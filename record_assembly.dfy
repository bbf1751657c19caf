/** parseFile: the input text is cut into lines; each line's first
    character selects a record layout (1 header, 2 item, 4 installment,
    8 item detail); a line with a layout is decoded into a field object and
    its missing required fields are reported; and the decoded records are
    assembled into a list of headers, each holding its items (each with its
    details) and its installments. */
module RecordAssembly {
  import opened Optional
  import opened JsString
  import opened JsObject
  import opened FieldDecoding
  import opened LineDecoding

  /** The layout of each record type, keyed by the type character. */
  type Layouts = map<char, seq<Descriptor>>

  /** The parser's fixed table: the descriptors of the four layout tables. */
  function LayoutTable(t1: seq<LayoutRow>, t2: seq<LayoutRow>, t4: seq<LayoutRow>, t8: seq<LayoutRow>): Layouts {
    map['1' := BuildDescriptors(t1), '2' := BuildDescriptors(t2),
        '4' := BuildDescriptors(t4), '8' := BuildDescriptors(t8)]
  }

  /** One entry of `rawLines`: the 1-based number, the text and the record type. */
  datatype RawLine = RawLine(lineNumber: int, raw: string, kind: string)

  /** An item record with its details. `fields == None` is the placeholder
      the code creates (`item: null`) for a detail that has no item. */
  datatype Item = Item(fields: Option<Fields>, details: seq<Fields>)

  /** A header record with its items and installments. `fields == None` is
      the orphan header the code creates for an item or an installment that
      comes before any header. */
  datatype Header = Header(fields: Option<Fields>, items: seq<Item>, installments: seq<Fields>)

  datatype ParseOutput = ParseOutput(result: seq<Header>, rawLines: seq<RawLine>, errors: seq<FieldError>)

  /** A decoded line: its type character and its field object. */
  datatype Rec = Rec(tag: char, fields: Fields)

  function Last<T>(s: seq<T>): T
    requires s != []
  {
    s[|s| - 1]
  }

  function UpdateLast<T>(s: seq<T>, x: T): (r: seq<T>)
    requires s != []
    ensures |r| == |s| && r[..|s| - 1] == s[..|s| - 1] && Last(r) == x
  {
    s[..|s| - 1] + [x]
  }

  /** Replacing the element at the last position is `UpdateLast`. */
  lemma UpdateAtLast<T>(s: seq<T>, x: T)
    requires s != []
    ensures s[|s| - 1 := x] == UpdateLast(s, x)
  {
  }

  lemma UpdateLastOfOne<T>(x: T, y: T)
    ensures UpdateLast([x], y) == [y]
  {
  }

  // ------------------------------------------------------------ lines

  /** `line.charAt(0) || ''`: the record type of a line. */
  function TypeOf(ln: string): string {
    if ln == "" then "" else [ln[0]]
  }

  /** `layouts[type]`, absent for the empty type and for unknown types. */
  function LayoutFor(layouts: Layouts, ln: string): Option<seq<Descriptor>> {
    if ln != "" && ln[0] in layouts then Some(layouts[ln[0]]) else None
  }

  function RawLines(lines: seq<string>): seq<RawLine> {
    seq(|lines|, i requires 0 <= i < |lines| => RawLine(i + 1, lines[i], TypeOf(lines[i])))
  }

  /** The decoded records of the lines that have a layout, in line order. */
  function Recs(lines: seq<string>, layouts: Layouts): seq<Rec> {
    if lines == [] then []
    else
      var prev := Recs(lines[..|lines| - 1], layouts);
      var ln := Last(lines);
      match LayoutFor(layouts, ln)
      case Some(ds) => prev + [Rec(ln[0], DecodedFields(ln, ds))]
      case None => prev
  }

  /** The errors of all lines, in line order; line `n` is `lines[n - 1]`. */
  function Errors(lines: seq<string>, layouts: Layouts): seq<FieldError> {
    if lines == [] then []
    else
      var prev := Errors(lines[..|lines| - 1], layouts);
      var ln := Last(lines);
      match LayoutFor(layouts, ln)
      case Some(ds) => prev + LineErrors(|lines|, ln, ds)
      case None => prev
  }

  // ------------------------------------------------------------ assembly

  /** The assembler's state: the headers so far, and whether `currentItem`
      is set (`currentHeader` is always the last header, when there is one). */
  datatype Asm = Asm(result: seq<Header>, itemOpen: bool)

  /** `currentItem` is set exactly when the last header has items: it is
      then that header's last item. */
  predicate WellFormed(a: Asm) {
    a.itemOpen <==> a.result != [] && Last(a.result).items != []
  }

  /** The shape the assembly gives the headers: only the first header can be
      an orphan, and an orphan has an item or an installment; only the first
      item of a header can be a placeholder, and a placeholder has a detail. */
  predicate Shaped(hs: seq<Header>) {
    (forall i :: 0 < i < |hs| ==> hs[i].fields.Some?)
    && (forall h :: h in hs && h.fields.None? ==> h.items != [] || h.installments != [])
    && (forall h :: h in hs ==> ItemsShaped(h.items))
  }

  predicate ItemsShaped(items: seq<Item>) {
    (forall j :: 0 < j < |items| ==> items[j].fields.Some?)
    && (forall it :: it in items && it.fields.None? ==> it.details != [])
  }

  predicate IsStructural(c: char) {
    c == '1' || c == '2' || c == '4'
  }

  /** One line's record applied to the state, as the branches of parseFile do. */
  function Step(a: Asm, r: Rec): (b: Asm)
    requires WellFormed(a)
    ensures WellFormed(b)
    ensures b.result != [] <==> a.result != [] || IsStructural(r.tag)
  {
    if r.tag == '1' then
      Asm(a.result + [Header(Some(r.fields), [], [])], false)
    else if r.tag == '2' then
      var item := Item(Some(r.fields), []);
      if a.result != [] then
        var h := Last(a.result);
        Asm(UpdateLast(a.result, h.(items := h.items + [item])), true)
      else
        Asm([Header(None, [item], [])], true)
    else if r.tag == '8' then
      if a.itemOpen then
        var h := Last(a.result);
        var it := Last(h.items);
        Asm(UpdateLast(a.result, h.(items := UpdateLast(h.items, it.(details := it.details + [r.fields])))), true)
      else if a.result != [] then
        var h := Last(a.result);
        Asm(UpdateLast(a.result, h.(items := h.items + [Item(None, [r.fields])])), true)
      else
        a
    else if r.tag == '4' then
      if a.result != [] then
        var h := Last(a.result);
        Asm(UpdateLast(a.result, h.(installments := h.installments + [r.fields])), a.itemOpen)
      else
        Asm([Header(None, [], [r.fields])], a.itemOpen)
    else
      a
  }

  /** The state after all records, in order. */
  function Assemble(recs: seq<Rec>): (a: Asm)
    ensures WellFormed(a)
  {
    if recs == [] then Asm([], false) else Step(Assemble(recs[..|recs| - 1]), Last(recs))
  }

  /** The output of parseFile on `text`. */
  function Parse(text: string, layouts: Layouts): ParseOutput {
    ParseLines(SplitLines(text), layouts)
  }

  /** The output of parseFile for the lines of a text. */
  function ParseLines(lines: seq<string>, layouts: Layouts): ParseOutput {
    ParseOutput(Assemble(Recs(lines, layouts)).result, RawLines(lines), Errors(lines, layouts))
  }

  /** Assembling one more record is one more step. */
  lemma AssembleSnoc(recs: seq<Rec>, r: Rec)
    ensures Assemble(recs + [r]) == Step(Assemble(recs), r)
  {
    assert (recs + [r])[..|recs|] == recs;
  }

  // ------------------------------------------------------------ the method

  /** parseFile: the text split into lines, then the lines processed in order. */
  method ParseFile(text: string, layouts: Layouts) returns (out: ParseOutput)
    ensures out == Parse(text, layouts)
  {
    var lines := SplitLines(text);
    out := ProcessLines(lines, layouts);
  }

  /** The `forEach` over the lines, with `currentHeader` and `currentItem`
      as positions in `result`: the code's pushes onto a header or item it
      still refers to are updates at those positions. */
  method ProcessLines(lines: seq<string>, layouts: Layouts) returns (out: ParseOutput)
    ensures out == ParseLines(lines, layouts)
  {
    var result: seq<Header> := [];
    var currentHeader: Option<nat> := None;
    var currentItem: Option<nat> := None;
    var rawLines: seq<RawLine> := [];
    var errors: seq<FieldError> := [];
    ghost var asm := Asm([], false);
    for idx := 0 to |lines|
      invariant asm == Assemble(Recs(lines[..idx], layouts))
      invariant Cursors(asm, result, currentHeader, currentItem)
      invariant rawLines == RawLines(lines[..idx])
      invariant errors == Errors(lines[..idx], layouts)
    {
      var ln := lines[idx];
      LinesStep(lines, idx, layouts);
      rawLines := rawLines + [RawLine(idx + 1, ln, TypeOf(ln))];
      if ln != "" && ln[0] in layouts {
        var parsed;
        parsed, errors := DecodeLine(idx + 1, ln, layouts[ln[0]], errors);
        var r := Rec(ln[0], parsed);
        AssembleSnoc(Recs(lines[..idx], layouts), r);
        result, currentHeader, currentItem := AddRecord(asm, result, currentHeader, currentItem, r);
        asm := Step(asm, r);
      }
    }
    assert lines[..|lines|] == lines;
    out := ParseOutput(result, rawLines, errors);
  }

  /** What one more line adds to the raw lines, the records and the errors. */
  lemma LinesStep(lines: seq<string>, idx: nat, layouts: Layouts)
    requires idx < |lines|
    ensures RawLines(lines[..idx + 1]) == RawLines(lines[..idx]) + [RawLine(idx + 1, lines[idx], TypeOf(lines[idx]))]
    ensures Recs(lines[..idx + 1], layouts) ==
      match LayoutFor(layouts, lines[idx])
      case Some(ds) => Recs(lines[..idx], layouts) + [Rec(lines[idx][0], DecodedFields(lines[idx], ds))]
      case None => Recs(lines[..idx], layouts)
    ensures Errors(lines[..idx + 1], layouts) ==
      match LayoutFor(layouts, lines[idx])
      case Some(ds) => Errors(lines[..idx], layouts) + LineErrors(idx + 1, lines[idx], ds)
      case None => Errors(lines[..idx], layouts)
  {
    assert lines[..idx + 1][..idx] == lines[..idx];
  }

  /** The method's variables hold the assembler's state: `result` is its
      headers, `currentHeader` the position of the last header, and
      `currentItem`, when set, the position of that header's last item. */
  predicate Cursors(a: Asm, result: seq<Header>, currentHeader: Option<nat>, currentItem: Option<nat>) {
    result == a.result && (currentItem.Some? <==> a.itemOpen)
    && currentHeader == (if result == [] then None else Some(|result| - 1))
    && (currentItem.Some? ==> result != [] && currentItem.value == |Last(result).items| - 1)
  }

  /** The branches of parseFile on the type of one decoded line. */
  method AddRecord(ghost a: Asm, result: seq<Header>, currentHeader: Option<nat>, currentItem: Option<nat>, r: Rec)
    returns (result': seq<Header>, currentHeader': Option<nat>, currentItem': Option<nat>)
    requires WellFormed(a) && Cursors(a, result, currentHeader, currentItem)
    ensures Cursors(Step(a, r), result', currentHeader', currentItem')
  {
    result', currentHeader', currentItem' := result, currentHeader, currentItem;
    if r.tag == '1' {
      result' := result + [Header(Some(r.fields), [], [])];
      currentHeader' := Some(|result'| - 1);
      currentItem' := None;
    } else if r.tag == '2' {
      result', currentHeader', currentItem' := AddItem(a, result, currentHeader, currentItem, r);
    } else if r.tag == '8' {
      result', currentItem' := AddDetail(a, result, currentHeader, currentItem, r);
    } else if r.tag == '4' {
      result', currentHeader' := AddInstallment(a, result, currentHeader, currentItem, r);
    }
  }

  /** Type 2: a new item on the current header, or on a new orphan header. */
  method AddItem(ghost a: Asm, result: seq<Header>, currentHeader: Option<nat>, currentItem: Option<nat>, r: Rec)
    returns (result': seq<Header>, currentHeader': Option<nat>, currentItem': Option<nat>)
    requires r.tag == '2'
    requires WellFormed(a) && Cursors(a, result, currentHeader, currentItem)
    ensures Cursors(Step(a, r), result', currentHeader', currentItem')
  {
    var item := Item(Some(r.fields), []);
    if currentHeader.Some? {
      var h := currentHeader.value;
      var hd := result[h].(items := result[h].items + [item]);
      UpdateAtLast(result, hd);
      assert Step(a, r) == Asm(UpdateLast(result, hd), true);
      result' := result[h := hd];
      currentHeader' := currentHeader;
      currentItem' := Some(|hd.items| - 1);
    } else {
      assert Step(a, r) == Asm([Header(None, [item], [])], true);
      result' := result + [Header(None, [item], [])];
      currentHeader' := Some(|result'| - 1);
      currentItem' := Some(0);
    }
  }

  /** Type 8: a detail on the current item, or on a new placeholder item of
      the current header; dropped when there is no header. */
  method AddDetail(ghost a: Asm, result: seq<Header>, currentHeader: Option<nat>, currentItem: Option<nat>, r: Rec)
    returns (result': seq<Header>, currentItem': Option<nat>)
    requires r.tag == '8'
    requires WellFormed(a) && Cursors(a, result, currentHeader, currentItem)
    ensures Cursors(Step(a, r), result', currentHeader, currentItem')
  {
    result', currentItem' := result, currentItem;
    if currentItem.Some? {
      var h, i := currentHeader.value, currentItem.value;
      var it := result[h].items[i];
      var it' := it.(details := it.details + [r.fields]);
      UpdateAtLast(result[h].items, it');
      UpdateAtLast(result, result[h].(items := result[h].items[i := it']));
      result' := result[h := result[h].(items := result[h].items[i := it'])];
    } else if currentHeader.Some? {
      var h := currentHeader.value;
      UpdateAtLast(result, result[h].(items := result[h].items + [Item(None, [r.fields])]));
      result' := result[h := result[h].(items := result[h].items + [Item(None, [r.fields])])];
      currentItem' := Some(|result'[h].items| - 1);
    }
  }

  /** Type 4: an installment on the current header, or on a new orphan header. */
  method AddInstallment(ghost a: Asm, result: seq<Header>, currentHeader: Option<nat>, currentItem: Option<nat>, r: Rec)
    returns (result': seq<Header>, currentHeader': Option<nat>)
    requires r.tag == '4'
    requires WellFormed(a) && Cursors(a, result, currentHeader, currentItem)
    ensures Cursors(Step(a, r), result', currentHeader', currentItem)
  {
    if currentHeader.Some? {
      var h := currentHeader.value;
      UpdateAtLast(result, result[h].(installments := result[h].installments + [r.fields]));
      result' := result[h := result[h].(installments := result[h].installments + [r.fields])];
      currentHeader' := currentHeader;
    } else {
      result' := result + [Header(None, [], [r.fields])];
      currentHeader' := Some(|result'| - 1);
    }
  }

  // ------------------------------------------------------------ shape

  lemma InUpdateLast<T>(s: seq<T>, x: T, y: T)
    requires s != []
    ensures y in UpdateLast(s, x) ==> y == x || y in s[..|s| - 1]
  {
  }

  /** Each step keeps the headers shaped. */
  lemma StepShaped(a: Asm, r: Rec)
    requires WellFormed(a) && Shaped(a.result)
    ensures Shaped(Step(a, r).result)
  {
    var hs := Step(a, r).result;
    if a.result != [] && hs != a.result && r.tag != '1' {
      var h := Last(a.result);
      var h' := Last(hs);
      assert hs == UpdateLast(a.result, h');
      if r.tag == '8' && a.itemOpen {
        var it := Last(h.items);
        DetailKeepsItemsShaped(h.items, it.(details := it.details + [r.fields]));
      }
      ShapedUpdateLast(a.result, h');
    }
  }

  lemma DetailKeepsItemsShaped(items: seq<Item>, it': Item)
    requires items != [] && ItemsShaped(items)
    requires it'.fields == Last(items).fields && it'.details != []
    ensures ItemsShaped(UpdateLast(items, it'))
  {
    var u := UpdateLast(items, it');
    forall j | 0 < j < |u| ensures u[j].fields.Some? {
      if j < |items| - 1 {
        assert u[j] == u[..|items| - 1][j];
      }
    }
    forall x | x in u && x.fields.None? ensures x.details != [] {
      InUpdateLast(items, it', x);
    }
  }

  lemma ShapedUpdateLast(hs: seq<Header>, h': Header)
    requires hs != [] && Shaped(hs)
    requires h'.fields == Last(hs).fields && ItemsShaped(h'.items)
    requires h'.fields.None? ==> h'.items != [] || h'.installments != []
    ensures Shaped(UpdateLast(hs, h'))
  {
    forall g | g in UpdateLast(hs, h')
      ensures ItemsShaped(g.items) && (g.fields.None? ==> g.items != [] || g.installments != [])
    {
      InUpdateLast(hs, h', g);
    }
  }

  /** The headers every assembly produces are shaped. */
  lemma {:induction false} AssembleShaped(recs: seq<Rec>)
    ensures Shaped(Assemble(recs).result)
  {
    if recs != [] {
      AssembleShaped(recs[..|recs| - 1]);
      StepShaped(Assemble(recs[..|recs| - 1]), Last(recs));
    }
  }

  /** The result is non-empty exactly when some record is a header, an item
      or an installment: details before the first of those are dropped. */
  lemma {:induction false} AssembleNonEmpty(recs: seq<Rec>)
    ensures Assemble(recs).result != [] <==> exists i :: 0 <= i < |recs| && IsStructural(recs[i].tag)
  {
    if recs != [] {
      var prev := recs[..|recs| - 1];
      AssembleNonEmpty(prev);
      assert forall i :: 0 <= i < |prev| ==> prev[i] == recs[i];
    }
  }

  // ------------------------------------------------------------ conservation

  function OptList(f: Option<Fields>): seq<Fields> {
    if f.Some? then [f.value] else []
  }

  /** The field objects of the headers that came from header lines, in order. */
  function HeaderFields(hs: seq<Header>): seq<Fields> {
    if hs == [] then [] else HeaderFields(hs[..|hs| - 1]) + OptList(Last(hs).fields)
  }

  /** The field objects of all items that came from item lines, in order. */
  function ItemFields(hs: seq<Header>): seq<Fields> {
    if hs == [] then [] else ItemFields(hs[..|hs| - 1]) + ItemsFields(Last(hs).items)
  }

  function ItemsFields(items: seq<Item>): seq<Fields> {
    if items == [] then [] else ItemsFields(items[..|items| - 1]) + OptList(Last(items).fields)
  }

  /** All installments, in order. */
  function Installments(hs: seq<Header>): seq<Fields> {
    if hs == [] then [] else Installments(hs[..|hs| - 1]) + Last(hs).installments
  }

  /** All details of all items, in order. */
  function Details(hs: seq<Header>): seq<Fields> {
    if hs == [] then [] else Details(hs[..|hs| - 1]) + ItemsDetails(Last(hs).items)
  }

  function ItemsDetails(items: seq<Item>): seq<Fields> {
    if items == [] then [] else ItemsDetails(items[..|items| - 1]) + Last(items).details
  }

  /** The field objects of the records of type `c`, in order. */
  function WithTag(recs: seq<Rec>, c: char): seq<Fields> {
    if recs == [] then []
    else WithTag(recs[..|recs| - 1], c) + (if Last(recs).tag == c then [Last(recs).fields] else [])
  }

  predicate HasStructural(recs: seq<Rec>) {
    exists i :: 0 <= i < |recs| && IsStructural(recs[i].tag)
  }

  /** The field objects of the detail records that some header, item or
      installment record precedes, in order. */
  function KeptDetails(recs: seq<Rec>): seq<Fields> {
    if recs == [] then []
    else
      var prev := recs[..|recs| - 1];
      KeptDetails(prev) + (if Last(recs).tag == '8' && HasStructural(prev) then [Last(recs).fields] else [])
  }

  /** What one step adds to each of the four flattened lists. */
  lemma StepConserves(a: Asm, r: Rec)
    requires WellFormed(a)
    ensures var b := Step(a, r).result;
      HeaderFields(b) == HeaderFields(a.result) + (if r.tag == '1' then [r.fields] else [])
      && ItemFields(b) == ItemFields(a.result) + (if r.tag == '2' then [r.fields] else [])
      && Installments(b) == Installments(a.result) + (if r.tag == '4' then [r.fields] else [])
      && Details(b) == Details(a.result) + (if r.tag == '8' && a.result != [] then [r.fields] else [])
  {
    var hs := a.result;
    if r.tag == '1' {
      HeadersSnoc(hs, Header(Some(r.fields), [], []));
    } else if hs == [] {
      if r.tag == '2' {
        HeadersSnoc(hs, Header(None, [Item(Some(r.fields), [])], []));
        ItemsSnoc([], Item(Some(r.fields), []));
      } else if r.tag == '4' {
        HeadersSnoc(hs, Header(None, [], [r.fields]));
      }
    } else if r.tag == '2' {
      StepItemConserves(hs, r.fields);
    } else if r.tag == '8' && a.itemOpen {
      StepDetailConserves(hs, r.fields);
    } else if r.tag == '8' {
      StepPlaceholderConserves(hs, r.fields);
    } else if r.tag == '4' {
      StepInstallmentConserves(hs, r.fields);
    }
  }

  lemma StepItemConserves(hs: seq<Header>, f: Fields)
    requires hs != []
    ensures var h := Last(hs); var b := UpdateLast(hs, h.(items := h.items + [Item(Some(f), [])]));
      HeaderFields(b) == HeaderFields(hs) && ItemFields(b) == ItemFields(hs) + [f]
      && Installments(b) == Installments(hs) && Details(b) == Details(hs)
  {
    var h := Last(hs);
    var h' := h.(items := h.items + [Item(Some(f), [])]);
    HeadersUpdateLast(hs, h');
    ItemsSnoc(h.items, Item(Some(f), []));
    assert ItemFields(hs) == ItemFields(hs[..|hs| - 1]) + ItemsFields(h.items);
  }

  lemma StepPlaceholderConserves(hs: seq<Header>, f: Fields)
    requires hs != []
    ensures var h := Last(hs); var b := UpdateLast(hs, h.(items := h.items + [Item(None, [f])]));
      HeaderFields(b) == HeaderFields(hs) && ItemFields(b) == ItemFields(hs)
      && Installments(b) == Installments(hs) && Details(b) == Details(hs) + [f]
  {
    var h := Last(hs);
    var h' := h.(items := h.items + [Item(None, [f])]);
    HeadersUpdateLast(hs, h');
    ItemsSnoc(h.items, Item(None, [f]));
    assert Details(hs) == Details(hs[..|hs| - 1]) + ItemsDetails(h.items);
  }

  lemma StepDetailConserves(hs: seq<Header>, f: Fields)
    requires hs != [] && Last(hs).items != []
    ensures var h := Last(hs); var it := Last(h.items);
      var b := UpdateLast(hs, h.(items := UpdateLast(h.items, it.(details := it.details + [f]))));
      HeaderFields(b) == HeaderFields(hs) && ItemFields(b) == ItemFields(hs)
      && Installments(b) == Installments(hs) && Details(b) == Details(hs) + [f]
  {
    var h := Last(hs);
    var it := Last(h.items);
    var it' := it.(details := it.details + [f]);
    var h' := h.(items := UpdateLast(h.items, it'));
    HeadersUpdateLast(hs, h');
    ItemsUpdateLast(h.items, it');
    assert ItemsDetails(h.items) == ItemsDetails(h.items[..|h.items| - 1]) + it.details;
    assert Details(hs) == Details(hs[..|hs| - 1]) + ItemsDetails(h.items);
  }

  lemma StepInstallmentConserves(hs: seq<Header>, f: Fields)
    requires hs != []
    ensures var h := Last(hs); var b := UpdateLast(hs, h.(installments := h.installments + [f]));
      HeaderFields(b) == HeaderFields(hs) && ItemFields(b) == ItemFields(hs)
      && Installments(b) == Installments(hs) + [f] && Details(b) == Details(hs)
  {
    var h := Last(hs);
    HeadersUpdateLast(hs, h.(installments := h.installments + [f]));
    assert Installments(hs) == Installments(hs[..|hs| - 1]) + h.installments;
  }

  lemma HeadersSnoc(hs: seq<Header>, h: Header)
    ensures HeaderFields(hs + [h]) == HeaderFields(hs) + OptList(h.fields)
    ensures ItemFields(hs + [h]) == ItemFields(hs) + ItemsFields(h.items)
    ensures Installments(hs + [h]) == Installments(hs) + h.installments
    ensures Details(hs + [h]) == Details(hs) + ItemsDetails(h.items)
  {
    assert (hs + [h])[..|hs|] == hs;
  }

  lemma HeadersUpdateLast(hs: seq<Header>, h': Header)
    requires hs != []
    ensures var prev := hs[..|hs| - 1];
      HeaderFields(UpdateLast(hs, h')) == HeaderFields(prev) + OptList(h'.fields)
      && ItemFields(UpdateLast(hs, h')) == ItemFields(prev) + ItemsFields(h'.items)
      && Installments(UpdateLast(hs, h')) == Installments(prev) + h'.installments
      && Details(UpdateLast(hs, h')) == Details(prev) + ItemsDetails(h'.items)
  {
  }

  lemma ItemsSnoc(items: seq<Item>, it: Item)
    ensures ItemsFields(items + [it]) == ItemsFields(items) + OptList(it.fields)
    ensures ItemsDetails(items + [it]) == ItemsDetails(items) + it.details
  {
    assert (items + [it])[..|items|] == items;
  }

  lemma ItemsUpdateLast(items: seq<Item>, it': Item)
    requires items != [] && it'.fields == Last(items).fields
    ensures ItemsFields(UpdateLast(items, it')) == ItemsFields(items)
    ensures ItemsDetails(UpdateLast(items, it')) ==
      ItemsDetails(items[..|items| - 1]) + it'.details
  {
  }

  /** Nothing is lost or reordered: the headers hold the header lines' field
      objects, the items the item lines', the installments the installment
      lines', in input order; and the details hold exactly the detail lines
      that some header, item or installment line precedes, in input order. */
  lemma {:induction false} AssembleConserves(recs: seq<Rec>)
    ensures var hs := Assemble(recs).result;
      HeaderFields(hs) == WithTag(recs, '1')
      && ItemFields(hs) == WithTag(recs, '2')
      && Installments(hs) == WithTag(recs, '4')
      && Details(hs) == KeptDetails(recs)
  {
    if recs != [] {
      var prev := recs[..|recs| - 1];
      AssembleConserves(prev);
      AssembleNonEmpty(prev);
      StepConserves(Assemble(prev), Last(recs));
    }
  }

  // ------------------------------------------------------------ unknown types

  predicate IsKnown(c: char) {
    c == '1' || c == '2' || c == '4' || c == '8'
  }

  /** The records of the four types the assembly acts on. */
  function Known(recs: seq<Rec>): seq<Rec> {
    if recs == [] then []
    else Known(recs[..|recs| - 1]) + (if IsKnown(Last(recs).tag) then [Last(recs)] else [])
  }

  /** Records of any other type leave the assembly unchanged. */
  lemma {:induction false} AssembleIgnoresUnknown(recs: seq<Rec>)
    ensures Assemble(Known(recs)) == Assemble(recs)
  {
    if recs != [] {
      var prev := recs[..|recs| - 1];
      AssembleIgnoresUnknown(prev);
      var r := Last(recs);
      assert Assemble(recs) == Step(Assemble(prev), r);
      if IsKnown(r.tag) {
        assert Known(recs) == Known(prev) + [r];
        AssembleSnoc(Known(prev), r);
      } else {
        assert Known(recs) == Known(prev);
      }
    }
  }

  /** With the parser's table, exactly the lines that start with 1, 2, 4 or 8
      are decoded. */
  lemma TableLayoutFor(t1: seq<LayoutRow>, t2: seq<LayoutRow>, t4: seq<LayoutRow>, t8: seq<LayoutRow>, ln: string)
    ensures LayoutFor(LayoutTable(t1, t2, t4, t8), ln).Some? <==> ln != "" && IsKnown(ln[0])
  {
  }

  /** A line without a layout (empty, or of an unknown type) adds its raw
      line and nothing else: no record and no error. */
  lemma UnknownLineIgnored(lines: seq<string>, ln: string, layouts: Layouts)
    requires LayoutFor(layouts, ln).None?
    ensures var before := ParseLines(lines, layouts);
      ParseLines(lines + [ln], layouts) ==
        before.(rawLines := before.rawLines + [RawLine(|lines| + 1, ln, TypeOf(ln))])
  {
    var all := lines + [ln];
    assert all[..|lines|] == lines;
    LinesStep(all, |lines|, layouts);
  }

  // ------------------------------------------------------------ errors

  /** The errors come from the decoded lines: an error is in the list exactly
      when it is one of the errors of some line with a layout, reported
      under that line's number. */
  lemma {:induction false} ErrorsIff(lines: seq<string>, layouts: Layouts, e: FieldError)
    ensures e in Errors(lines, layouts) <==>
      exists i :: 0 <= i < |lines| && LayoutFor(layouts, lines[i]).Some?
        && e in LineErrors(i + 1, lines[i], LayoutFor(layouts, lines[i]).value)
  {
    if lines != [] {
      var prev := lines[..|lines| - 1];
      ErrorsIff(prev, layouts, e);
      assert forall i :: 0 <= i < |prev| ==> prev[i] == lines[i];
    }
  }

  /** Every error names a line of the input, and the errors are in line order. */
  lemma {:induction false} ErrorsOrdered(lines: seq<string>, layouts: Layouts)
    ensures var errs := Errors(lines, layouts);
      (forall i :: 0 <= i < |errs| ==> 1 <= errs[i].line <= |lines|)
      && forall i, j :: 0 <= i < j < |errs| ==> errs[i].line <= errs[j].line
  {
    if lines != [] {
      var prev := lines[..|lines| - 1];
      ErrorsOrdered(prev, layouts);
      match LayoutFor(layouts, Last(lines))
      case Some(ds) =>
        var les := LineErrors(|lines|, Last(lines), ds);
        forall k | 0 <= k < |les| ensures les[k].line == |lines| {
          LineErrorsIff(|lines|, Last(lines), ds, les[k]);
        }
        var earlier := Errors(prev, layouts);
        var errs := Errors(lines, layouts);
        assert errs == earlier + les;
        forall i, j | 0 <= i < j < |errs| ensures errs[i].line <= errs[j].line {
          if j < |earlier| {
            assert errs[i] == earlier[i] && errs[j] == earlier[j];
          } else if i < |earlier| {
            assert errs[i] == earlier[i];
          } else {
            assert errs[i] == les[i - |earlier|];
          }
        }
        forall i | 0 <= i < |errs| ensures 1 <= errs[i].line <= |lines| {
          if i < |earlier| {
            assert errs[i] == earlier[i];
          } else {
            assert errs[i] == les[i - |earlier|];
          }
        }
      case None =>
        var errs := Errors(lines, layouts);
        assert errs == Errors(prev, layouts);
        assert forall i, j :: 0 <= i < j < |errs| ==> errs[i].line <= errs[j].line;
    }
  }

  // ------------------------------------------------------------ raw lines

  /** The raw text of each entry of `rawLines`. */
  function RawTexts(rl: seq<RawLine>): seq<string> {
    seq(|rl|, i requires 0 <= i < |rl| => rl[i].raw)
  }

  /** `rawLines` has one entry per line of the text, numbered from 1; no
      entry holds a line break, and the type is the first character, or
      empty for an empty line. */
  lemma RawLinesShape(text: string, layouts: Layouts)
    ensures var rl := Parse(text, layouts).rawLines;
      |rl| == Count(text, '\n') + 1
      && forall i :: 0 <= i < |rl| ==>
        rl[i].lineNumber == i + 1 && '\n' !in rl[i].raw
        && (rl[i].kind == "" <==> rl[i].raw == "")
        && (rl[i].raw != "" ==> rl[i].kind == [rl[i].raw[0]])
  {
  }

  /** Without carriage returns, the raw lines joined with '\n' are the text. */
  lemma RawLinesRoundTrip(text: string, layouts: Layouts)
    requires '\r' !in text
    ensures Join(RawTexts(Parse(text, layouts).rawLines), '\n') == text
  {
    SplitLinesWithoutCR(text);
    var lines := SplitLines(text);
    assert RawTexts(RawLines(lines)) == lines;
  }

  /** Text written with "\r\n" line breaks gives back its lines as the
      raw lines, without the '\r' of each break. */
  lemma RawLinesCrLf(lines: seq<string>, layouts: Layouts)
    requires lines != [] && forall i :: 0 <= i < |lines| ==> '\n' !in lines[i]
    ensures RawTexts(Parse(CrLfJoin(lines), layouts).rawLines) == lines
  {
    var text := CrLfJoin(lines);
    SplitLinesCrLf(lines);
    assert Parse(text, layouts).rawLines == RawLines(SplitLines(text));
    RawTextsOfLines(lines);
  }

  lemma RawTextsOfLines(lines: seq<string>)
    ensures RawTexts(RawLines(lines)) == lines
  {
  }

  /** The empty text is one empty line: one raw line, no record, no error. */
  lemma EmptyText(layouts: Layouts)
    ensures Parse("", layouts) == ParseOutput([], [RawLine(1, "", "")], [])
  {
    assert SplitLines("") == [""];
    var lines := [""];
    assert lines[..0] == [];
    assert Recs(lines, layouts) == [];
    assert Errors(lines, layouts) == [];
  }

  // ------------------------------------------------------------ examples

  /** A header, an item, a detail and an installment nest as the file's
      structure says. */
  lemma NestingExample(f1: Fields, f2: Fields, f8: Fields, f4: Fields)
    ensures Assemble([Rec('1', f1), Rec('2', f2), Rec('8', f8), Rec('4', f4)]).result
      == [Header(Some(f1), [Item(Some(f2), [f8])], [f4])]
  {
    var r1, r2, r3, r4 := Rec('1', f1), Rec('2', f2), Rec('8', f8), Rec('4', f4);
    var h1 := Header(Some(f1), [], []);
    var h2 := h1.(items := [Item(Some(f2), [])]);
    var h3 := h1.(items := [Item(Some(f2), [f8])]);
    AssembleSnoc([], r1);
    assert [] + [r1] == [r1];
    assert Assemble([r1]) == Asm([h1], false);
    AssembleSnoc([r1], r2);
    assert [r1] + [r2] == [r1, r2];
    assert h1.items + [Item(Some(f2), [])] == h2.items;
    UpdateLastOfOne(h1, h2);
    assert Assemble([r1, r2]) == Asm([h2], true);
    AssembleSnoc([r1, r2], r3);
    assert [r1, r2] + [r3] == [r1, r2, r3];
    var it := Last(h2.items);
    assert it.details + [f8] == [f8];
    UpdateLastOfOne(it, it.(details := [f8]));
    UpdateLastOfOne(h2, h3);
    assert Assemble([r1, r2, r3]) == Asm([h3], true);
    AssembleSnoc([r1, r2, r3], r4);
    assert [r1, r2, r3] + [r4] == [r1, r2, r3, r4];
    assert h3.installments + [f4] == [f4];
    UpdateLastOfOne(h3, h3.(installments := [f4]));
  }

  /** A detail before any header is dropped; an installment before any
      header opens an orphan header, whose later item takes the next detail. */
  lemma OrphanExample(f8: Fields, f4: Fields, f2: Fields, g8: Fields)
    ensures Assemble([Rec('8', f8), Rec('4', f4), Rec('2', f2), Rec('8', g8)]).result
      == [Header(None, [Item(Some(f2), [g8])], [f4])]
  {
    var r1, r2, r3, r4 := Rec('8', f8), Rec('4', f4), Rec('2', f2), Rec('8', g8);
    OrphanPrefix(f8, f4);
    AssembleSnoc([r1, r2], r3);
    assert [r1, r2] + [r3] == [r1, r2, r3];
    OrphanItem(f4, f2);
    AssembleSnoc([r1, r2, r3], r4);
    assert [r1, r2, r3] + [r4] == [r1, r2, r3, r4];
    OrphanDetail(f4, f2, g8);
  }

  lemma OrphanPrefix(f8: Fields, f4: Fields)
    ensures Assemble([Rec('8', f8), Rec('4', f4)]) == Asm([Header(None, [], [f4])], false)
  {
    var r1, r2 := Rec('8', f8), Rec('4', f4);
    AssembleSnoc([], r1);
    assert [] + [r1] == [r1];
    AssembleSnoc([r1], r2);
    assert [r1] + [r2] == [r1, r2];
  }

  lemma OrphanItem(f4: Fields, f2: Fields)
    ensures Step(Asm([Header(None, [], [f4])], false), Rec('2', f2))
      == Asm([Header(None, [Item(Some(f2), [])], [f4])], true)
  {
    var h2 := Header(None, [], [f4]);
    var h3 := h2.(items := [Item(Some(f2), [])]);
    assert h2.items + [Item(Some(f2), [])] == h3.items;
    UpdateLastOfOne(h2, h3);
  }

  lemma OrphanDetail(f4: Fields, f2: Fields, g8: Fields)
    ensures Step(Asm([Header(None, [Item(Some(f2), [])], [f4])], true), Rec('8', g8)).result
      == [Header(None, [Item(Some(f2), [g8])], [f4])]
  {
    var h3 := Header(None, [Item(Some(f2), [])], [f4]);
    var it := Last(h3.items);
    assert it.details + [g8] == [g8];
    UpdateLastOfOne(it, it.(details := [g8]));
    UpdateLastOfOne(h3, h3.(items := [Item(Some(f2), [g8])]));
  }

  /** A detail right after a header goes into a placeholder item; an item that
      follows is a new item of the same header. */
  lemma PlaceholderExample(f1: Fields, f8: Fields, f2: Fields)
    ensures Assemble([Rec('1', f1), Rec('8', f8), Rec('2', f2)]).result
      == [Header(Some(f1), [Item(None, [f8]), Item(Some(f2), [])], [])]
  {
    var r1, r2, r3 := Rec('1', f1), Rec('8', f8), Rec('2', f2);
    var h1 := Header(Some(f1), [], []);
    var h2 := h1.(items := [Item(None, [f8])]);
    var h3 := h1.(items := [Item(None, [f8]), Item(Some(f2), [])]);
    AssembleSnoc([], r1);
    assert [] + [r1] == [r1];
    assert Assemble([r1]) == Asm([h1], false);
    AssembleSnoc([r1], r2);
    assert [r1] + [r2] == [r1, r2];
    assert h1.items + [Item(None, [f8])] == h2.items;
    UpdateLastOfOne(h1, h2);
    assert Assemble([r1, r2]) == Asm([h2], true);
    AssembleSnoc([r1, r2], r3);
    assert [r1, r2] + [r3] == [r1, r2, r3];
    assert h2.items + [Item(Some(f2), [])] == h3.items;
    UpdateLastOfOne(h2, h3);
  }
}
