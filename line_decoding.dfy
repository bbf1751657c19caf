/** Decoding one line of the input against the descriptors of its record
    type: every descriptor with a column range contributes one entry to the
    line's field object, and a required field that decodes to `null` (or to
    the empty string) contributes one error. */
module LineDecoding {
  import opened Optional
  import opened JsString
  import opened JsObject
  import opened FieldDecoding

  /** The object of decoded fields of one line, keyed by field name. */
  type Fields = Obj<Value>

  const MissingFieldMessage: string := "Campo obrigat\U{F3}rio ausente"

  /** One entry of the error list: the 1-based line, the field and the message. */
  datatype FieldError = FieldError(line: int, field: string, message: string)

  /** A descriptor takes part only with both ends of its column range; like
      the code's `!field.start || !field.end`, a zero counts as absent. */
  predicate Active(d: Descriptor) {
    d.start.Some? && d.start.value != 0 && d.end.Some? && d.end.value != 0
  }

  /** The decoded value of an active descriptor's columns of `line`. */
  function FieldValue(line: string, d: Descriptor): Value
    requires Active(d)
  {
    ParseField(SafeSlice(line, d.start.value, d.end.value), d)
  }

  /** The code's `val === null || val === ''`. */
  predicate IsMissing(v: Value) {
    v == Null || v == Text("")
  }

  predicate Reports(line: string, d: Descriptor) {
    Active(d) && d.required && IsMissing(FieldValue(line, d))
  }

  /** The field object after the descriptors `ds`, in order, have been
      applied: `parsed[field.name] = val` for each active one. */
  function DecodedFields(line: string, ds: seq<Descriptor>): Fields {
    if ds == [] then []
    else
      var prev := DecodedFields(line, ds[..|ds| - 1]);
      var d := ds[|ds| - 1];
      if Active(d) then Put(prev, d.name, FieldValue(line, d)) else prev
  }

  /** The errors the descriptors `ds` report for line number `n`, in order. */
  function LineErrors(n: int, line: string, ds: seq<Descriptor>): seq<FieldError> {
    if ds == [] then []
    else
      var prev := LineErrors(n, line, ds[..|ds| - 1]);
      var d := ds[|ds| - 1];
      if Reports(line, d) then prev + [FieldError(n, d.name, MissingFieldMessage)] else prev
  }

  /** A line's errors come in layout order: the errors of a concatenation of
      descriptor lists are the errors of the first list, then of the second. */
  lemma {:induction false} LineErrorsConcat(n: int, line: string, ds1: seq<Descriptor>, ds2: seq<Descriptor>)
    ensures LineErrors(n, line, ds1 + ds2) == LineErrors(n, line, ds1) + LineErrors(n, line, ds2)
    decreases |ds2|
  {
    if ds2 == [] {
      assert ds1 + ds2 == ds1;
    } else {
      var ds := ds1 + ds2;
      assert ds[..|ds| - 1] == ds1 + ds2[..|ds2| - 1];
      assert ds[|ds| - 1] == ds2[|ds2| - 1];
      LineErrorsConcat(n, line, ds1, ds2[..|ds2| - 1]);
    }
  }

  /** One descriptor reports at most its own error. */
  lemma LineErrorsOne(n: int, line: string, d: Descriptor)
    ensures LineErrors(n, line, [d]) ==
      if Reports(line, d) then [FieldError(n, d.name, MissingFieldMessage)] else []
  {
    assert [d][..0] == [];
  }

  /** The last active descriptor named `k`: the one whose value a field
      object keeps when several descriptors share a name. */
  function LastActive(ds: seq<Descriptor>, k: string): (r: Option<Descriptor>)
    ensures r.None? <==> forall i :: 0 <= i < |ds| ==> !(Active(ds[i]) && ds[i].name == k)
    ensures r.Some? ==>
      exists i :: 0 <= i < |ds| && ds[i] == r.value && Active(ds[i]) && ds[i].name == k
                  && forall j :: i < j < |ds| ==> !(Active(ds[j]) && ds[j].name == k)
  {
    if ds == [] then None
    else
      var d := ds[|ds| - 1];
      var prev := ds[..|ds| - 1];
      if Active(d) && d.name == k then Some(d)
      else
        var r := LastActive(prev, k);
        assert forall i :: 0 <= i < |prev| ==> prev[i] == ds[i];
        r
  }

  /** Each key of a line's field object holds the value of the last active
      descriptor with that name, and a name without an active descriptor is
      not a key. */
  lemma {:induction false} DecodedFieldsGet(line: string, ds: seq<Descriptor>, k: string)
    ensures Get(DecodedFields(line, ds), k) ==
      match LastActive(ds, k)
      case None => None
      case Some(d) => Some(FieldValue(line, d))
  {
    if ds != [] {
      DecodedFieldsGet(line, ds[..|ds| - 1], k);
    }
  }

  /** The keys of a line's field object are exactly the names of the active
      descriptors, and no key occurs twice. */
  lemma {:induction false} DecodedFieldsKeys(line: string, ds: seq<Descriptor>)
    ensures forall k :: k in Keys(DecodedFields(line, ds)) <==>
      exists i :: 0 <= i < |ds| && Active(ds[i]) && ds[i].name == k
    ensures UniqueKeys(DecodedFields(line, ds))
  {
    forall k ensures k in Keys(DecodedFields(line, ds)) <==>
      exists i :: 0 <= i < |ds| && Active(ds[i]) && ds[i].name == k
    {
      DecodedFieldsGet(line, ds, k);
    }
    DecodedFieldsUnique(line, ds);
  }

  lemma {:induction false} DecodedFieldsUnique(line: string, ds: seq<Descriptor>)
    ensures UniqueKeys(DecodedFields(line, ds))
  {
    if ds != [] {
      var d := ds[|ds| - 1];
      DecodedFieldsUnique(line, ds[..|ds| - 1]);
      if Active(d) {
        PutKeys(DecodedFields(line, ds[..|ds| - 1]), d.name, FieldValue(line, d));
      }
    }
  }

  /** The entries an object built from `ds` would have if no two active
      descriptors shared a name: one per active descriptor, in order. */
  function ActiveEntries(line: string, ds: seq<Descriptor>): Fields {
    if ds == [] then []
    else
      var prev := ActiveEntries(line, ds[..|ds| - 1]);
      var d := ds[|ds| - 1];
      if Active(d) then prev + [(d.name, FieldValue(line, d))] else prev
  }

  predicate DistinctActiveNames(ds: seq<Descriptor>) {
    forall i, j :: 0 <= i < j < |ds| && Active(ds[i]) && Active(ds[j]) ==> ds[i].name != ds[j].name
  }

  /** With distinct names, a line's field object lists the active
      descriptors' values in layout order. */
  lemma {:induction false} DecodedFieldsInOrder(line: string, ds: seq<Descriptor>)
    requires DistinctActiveNames(ds)
    ensures DecodedFields(line, ds) == ActiveEntries(line, ds)
  {
    if ds != [] {
      var prev := ds[..|ds| - 1];
      var d := ds[|ds| - 1];
      assert DistinctActiveNames(prev);
      DecodedFieldsInOrder(line, prev);
      if Active(d) {
        DecodedFieldsKeys(line, prev);
        assert d.name !in Keys(DecodedFields(line, prev));
      }
    }
  }

  /** A line's errors are exactly the required active fields that decode to
      `null`, each reported with the line number and the fixed message. The
      empty string never occurs as a decoded value, so `null` is the only
      way a field is missing. */
  lemma {:induction false} LineErrorsIff(n: int, line: string, ds: seq<Descriptor>, e: FieldError)
    ensures e in LineErrors(n, line, ds) <==>
      e.line == n && e.message == MissingFieldMessage &&
      exists i :: 0 <= i < |ds| && Active(ds[i]) && ds[i].required
        && FieldValue(line, ds[i]) == Null && ds[i].name == e.field
  {
    if ds != [] {
      var prev := ds[..|ds| - 1];
      LineErrorsIff(n, line, prev, e);
      assert forall i :: 0 <= i < |prev| ==> prev[i] == ds[i];
    }
  }

  /** A line reports at most one error per descriptor. */
  lemma {:induction false} LineErrorsBound(n: int, line: string, ds: seq<Descriptor>)
    ensures |LineErrors(n, line, ds)| <= |ds|
  {
    if ds != [] {
      LineErrorsBound(n, line, ds[..|ds| - 1]);
    }
  }

  /** A line reports exactly one error per descriptor that reports: the
      number of errors is the number of those descriptors. */
  lemma LineErrorsCount(n: int, line: string, ds: seq<Descriptor>)
    ensures |LineErrors(n, line, ds)| == |set i | 0 <= i < |ds| && Reports(line, ds[i])|
  {
    LineErrorsCountFlags(n, line, ds);
    assert (set i | 0 <= i < |ds| && Reports(line, ds[i])) == IndexSet(ReportFlags(line, ds));
  }

  /** Which descriptors of `ds` report an error on `line`. */
  function ReportFlags(line: string, ds: seq<Descriptor>): (r: seq<bool>)
    ensures |r| == |ds|
  {
    seq(|ds|, i requires 0 <= i < |ds| => Reports(line, ds[i]))
  }

  /** The positions of `flags` that are set. */
  function IndexSet(flags: seq<bool>): set<int> {
    set i | 0 <= i < |flags| && flags[i]
  }

  lemma {:induction false} LineErrorsCountFlags(n: int, line: string, ds: seq<Descriptor>)
    ensures |LineErrors(n, line, ds)| == |IndexSet(ReportFlags(line, ds))|
  {
    if ds != [] {
      var prev := ds[..|ds| - 1];
      LineErrorsCountFlags(n, line, prev);
      var f := ReportFlags(line, ds);
      assert f[..|ds| - 1] == ReportFlags(line, prev);
      IndexSetSnoc(f);
    }
  }

  lemma IndexSetSnoc(flags: seq<bool>)
    requires flags != []
    ensures |IndexSet(flags)| == |IndexSet(flags[..|flags| - 1])| + (if flags[|flags| - 1] then 1 else 0)
  {
    var prev := flags[..|flags| - 1];
    var before := IndexSet(prev);
    assert |prev| !in before;
    if flags[|flags| - 1] {
      assert IndexSet(flags) == before + {|prev|};
    } else {
      assert IndexSet(flags) == before;
    }
  }

  /** The inner `forEach` of parseFile over a layout: builds the line's
      field object and appends the line's errors to `errorsIn`. */
  method DecodeLine(n: int, ln: string, layout: seq<Descriptor>, errorsIn: seq<FieldError>)
    returns (parsed: Fields, errors: seq<FieldError>)
    ensures parsed == DecodedFields(ln, layout)
    ensures errors == errorsIn + LineErrors(n, ln, layout)
  {
    parsed := [];
    errors := errorsIn;
    for j := 0 to |layout|
      invariant parsed == DecodedFields(ln, layout[..j])
      invariant errors == errorsIn + LineErrors(n, ln, layout[..j])
    {
      var field := layout[j];
      assert layout[..j + 1][..j] == layout[..j];
      if !Active(field) {
        continue;
      }
      var rawVal := SafeSlice(ln, field.start.value, field.end.value);
      var val := ParseField(rawVal, field);
      parsed := Put(parsed, field.name, val);
      if field.required && (val == Null || val == Text("")) {
        errors := errors + [FieldError(n, field.name, MissingFieldMessage)];
      }
    }
    assert layout[..|layout|] == layout;
  }
}
