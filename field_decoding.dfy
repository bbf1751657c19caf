/** The field decoder of the positional parser: cutting a 1-indexed column
    range out of a line, decoding that slice according to the field's layout
    type, and turning the rows of a layout table into field descriptors. */
module FieldDecoding {
  import opened Optional
  import opened JsString

  /** A decoded field value. `Decimal(m, k)` is the exact number m / 10^k
      (the code computes it in floating point); `NaN` is what `parseInt`
      yields for a string without leading digits, and it is not `Null`. */
  datatype Value =
    | Null
    | NaN
    | Decimal(mantissa: int, scale: int)
    | Integer(n: int)
    | Bool(b: bool)
    | Text(s: string)

  /** One row of a layout table, as the generated layout JSON holds it
      (`null` numbers are `None`). */
  datatype LayoutRow = LayoutRow(
    campo: string, descricao: string, tipo: string,
    decimais: Option<int>, obrigatorio: bool, inicio: Option<int>, fim: Option<int>)

  /** A field descriptor: name, type text, decimal scale, required flag and
      the 1-indexed inclusive column range. */
  datatype Descriptor = Descriptor(
    name: string, descricao: string, tipo: string,
    decimais: Option<int>, required: bool, start: Option<int>, end: Option<int>)

  // ---------------------------------------------------------------- slicing

  function Max(a: int, b: int): int { if a < b then b else a }
  function Min(a: int, b: int): int { if a < b then a else b }

  /** Where `String.prototype.slice` puts an argument `k` on a string of
      length `len`: a negative `k` counts from the end, and the position is
      clamped to [0, len]. */
  function SliceIndex(k: int, len: nat): (r: nat)
    ensures r <= len
    ensures 0 <= k <= len ==> r == k
  {
    if k < 0 then Max(0, len + k) else Min(k, len)
  }

  /** `s.slice(from, to)`. */
  function JsSlice(s: string, from: int, to: int): string {
    var a, b := SliceIndex(from, |s|), SliceIndex(to, |s|);
    if a < b then s[a..b] else ""
  }

  /** safeSlice: columns `start1` to `end1` (1-indexed, inclusive) of `line`,
      clamped to the line, so it never faults. For a non-negative end it is
      line[max(0, start1 - 1) .. min(|line|, end1)], empty when the line is
      shorter than `start1` or the range is empty; a negative end counts
      from the end of the line, as `slice` does. */
  function SafeSlice(line: string, start1: int, end1: int): (r: string)
    ensures |r| <= |line|
    ensures end1 >= 0 ==>
      var lo, hi := Max(0, start1 - 1), Min(|line|, end1);
      r == if lo < hi then line[lo..hi] else ""
    ensures end1 < 0 ==>
      var lo, hi := Max(0, start1 - 1), Max(0, |line| + end1);
      r == if lo < hi then line[lo..hi] else ""
    ensures end1 >= 0 && (start1 > |line| || start1 - 1 >= end1) ==> r == ""
  {
    JsSlice(line, Max(0, start1 - 1), Min(|line|, end1))
  }

  // --------------------------------------------------------- field decoding

  /** The characters `/[^0-9-]/g` keeps. */
  predicate IsNumberChar(c: char) {
    IsDigit(c) || c == '-'
  }

  /** parseNumberField: `null` for a slice without a digit or '-', otherwise
      the integer `parseInt` reads from those characters, scaled down by
      10^decimals (NaN when they do not start with an optionally negated
      digit). */
  function ParseNumberField(raw: string, decimals: int): (r: Value)
    ensures r.Null? || r.NaN? || (r.Decimal? && r.scale == decimals)
    ensures r.Null? <==> forall i :: 0 <= i < |raw| ==> !IsNumberChar(raw[i])
    ensures r.Decimal? ==> ParseInt(Keep(raw, IsNumberChar)) == Some(r.mantissa)
    ensures r.NaN? ==> ParseInt(Keep(raw, IsNumberChar)).None?
  {
    if raw == "" then Null
    else
      var digits := Keep(raw, IsNumberChar);
      if digits == "" then Null
      else match ParseInt(digits)
        case None => NaN
        case Some(n) => Decimal(n, decimals)
  }

  /** parseDateField: the digits of the slice read as ddmmyyyy, or as ddmmyy
      in the 2000s, give an ISO date; any other number of digits gives the
      slice itself, or `null` when it is empty. */
  function ParseDateField(raw: string): (r: Value)
    ensures r.Null? || r.Text?
    ensures r.Null? <==> raw == ""
    ensures |Keep(raw, IsDigit)| != 8 && |Keep(raw, IsDigit)| != 6 && raw != "" ==> r == Text(raw)
  {
    var d := Keep(raw, IsDigit);
    if |d| == 8 then Text(d[4..8] + "-" + d[2..4] + "-" + d[0..2])
    else if |d| == 6 then Text("20" + d[4..6] + "-" + d[2..4] + "-" + d[0..2])
    else if raw != "" then Text(raw)
    else Null
  }

  /** The sim/não type: the trimmed, lower-cased slice is one of the four
      words for "yes". */
  function ParseBoolean(raw: string): bool {
    var v := Lower(Trim(raw));
    v == "s" || v == "sim" || v == "1" || v == "yes"
  }

  /** The inteiro type: `null` without a digit or '-', else `parseInt` of those. */
  function ParseInteger(raw: string): (r: Value)
    ensures r.Null? || r.NaN? || r.Integer?
    ensures r.Null? <==> forall i :: 0 <= i < |raw| ==> !IsNumberChar(raw[i])
    ensures r.Integer? ==> ParseInt(Keep(raw, IsNumberChar)) == Some(r.n)
    ensures r.NaN? ==> ParseInt(Keep(raw, IsNumberChar)).None?
  {
    var digits := Keep(raw, IsNumberChar);
    if digits == "" then Null
    else match ParseInt(digits)
      case None => NaN
      case Some(n) => Integer(n)
  }

  /** The default, character type: the trimmed slice, or `null` when blank. */
  function ParseCharacter(raw: string): (r: Value)
    ensures r.Null? <==> AllWhitespace(raw)
    ensures r.Text? ==> r.s != "" && !IsJsWhitespace(r.s[0]) && !IsJsWhitespace(r.s[|r.s| - 1])
    ensures r.Null? || r.Text?
    ensures r.Text? ==> r == Text(Trim(raw))
  {
    var t := Trim(raw);
    if t == "" then Null else Text(t)
  }

  datatype Kind = DecimalKind | DateKind | BooleanKind | IntegerKind | CharacterKind

  /** The type tests of parseField, in the order the code makes them, on the
      lower-cased type text. (The code's extra tests `t === 'decimal'` and
      `/sim\/não/` are implied by the tests before them.) */
  function KindOf(tipo: string): Kind {
    var t := Lower(tipo);
    if Contains(t, "decimal") then DecimalKind
    else if Contains(t, "ddmmy") || Contains(t, "date") then DateKind
    else if Contains(t, "sim") || Contains(t, "n\U{E3}o") || Contains(t, "nao") then BooleanKind
    else if Contains(t, "inteiro") then IntegerKind
    else CharacterKind
  }

  /** The scale a decimal field is decoded with: its `decimais`, 2 when absent. */
  function Scale(d: Descriptor): int {
    d.decimais.GetOr(2)
  }

  /** parseField: decode a slice according to the descriptor's type. The
      result is never the empty string, a boolean field is never `null`,
      and each type yields only its own kinds of value. */
  function ParseField(raw: string, d: Descriptor): (r: Value)
    ensures r != Text("")
    ensures KindOf(d.tipo) == DecimalKind ==> r.Null? || r.NaN? || (r.Decimal? && r.scale == Scale(d))
    ensures KindOf(d.tipo) == DateKind ==> r.Null? || r.Text?
    ensures KindOf(d.tipo) == BooleanKind ==> r == Bool(ParseBoolean(raw))
    ensures KindOf(d.tipo) == IntegerKind ==> r.Null? || r.NaN? || r.Integer?
    ensures KindOf(d.tipo) == CharacterKind ==> r.Null? || r == Text(Trim(raw))
    ensures r.Null? <==>
      match KindOf(d.tipo)
      case DecimalKind => !exists i :: 0 <= i < |raw| && IsNumberChar(raw[i])
      case IntegerKind => !exists i :: 0 <= i < |raw| && IsNumberChar(raw[i])
      case DateKind => raw == ""
      case BooleanKind => false
      case CharacterKind => AllWhitespace(raw)
  {
    match KindOf(d.tipo)
    case DecimalKind => ParseNumberField(raw, Scale(d))
    case DateKind => ParseDateField(raw)
    case BooleanKind => Bool(ParseBoolean(raw))
    case IntegerKind => ParseInteger(raw)
    case CharacterKind => ParseCharacter(raw)
  }

  // ----------------------------------------------------- properties of decoding

  /** Only the digits and '-' of a decimal slice matter: removing every
      other character does not change the decoded value. */
  lemma NumberFieldIgnoresOtherChars(raw: string, decimals: int)
    ensures ParseNumberField(raw, decimals) == ParseNumberField(Keep(raw, IsNumberChar), decimals)
  {
    var digits := Keep(raw, IsNumberChar);
    KeepAll(digits, IsNumberChar);
  }

  /** A decimal slice holding one optionally negated digit string, padded by
      characters that are neither digits nor '-', decodes to that integer
      over 10^decimals. */
  lemma NumberFieldOfPaddedDigits(pad1: string, negative: bool, ds: string, pad2: string, decimals: int)
    requires ds != [] && AllDigits(ds)
    requires forall i :: 0 <= i < |pad1| ==> !IsNumberChar(pad1[i])
    requires forall i :: 0 <= i < |pad2| ==> !IsNumberChar(pad2[i])
    ensures var n: int := DigitsValue(ds);
      ParseNumberField(pad1 + (if negative then "-" else "") + ds + pad2, decimals)
        == Decimal(if negative then -n else n, decimals)
  {
    var sign := if negative then "-" else "";
    SignedDigitsKept(negative, ds);
    assert pad1 + sign + ds + pad2 == pad1 + (sign + ds) + pad2;
    KeepPadded(pad1, sign + ds, pad2);
    SignedDigits(sign + ds, negative, ds);
  }

  /** An integer slice holding one optionally negated digit string, padded
      by characters that are neither digits nor '-', decodes to that integer. */
  lemma IntegerFieldOfPaddedDigits(pad1: string, negative: bool, ds: string, pad2: string)
    requires ds != [] && AllDigits(ds)
    requires forall i :: 0 <= i < |pad1| ==> !IsNumberChar(pad1[i])
    requires forall i :: 0 <= i < |pad2| ==> !IsNumberChar(pad2[i])
    ensures var n: int := DigitsValue(ds);
      ParseInteger(pad1 + (if negative then "-" else "") + ds + pad2) == Integer(if negative then -n else n)
  {
    var sign := if negative then "-" else "";
    SignedDigitsKept(negative, ds);
    assert pad1 + sign + ds + pad2 == pad1 + (sign + ds) + pad2;
    KeepPadded(pad1, sign + ds, pad2);
    SignedDigits(sign + ds, negative, ds);
  }

  lemma SignedDigits(s: string, negative: bool, ds: string)
    requires ds != [] && AllDigits(ds)
    requires s == (if negative then "-" else "") + ds
    ensures var n: int := DigitsValue(ds);
      ParseInt(s) == Some(if negative then -n else n)
  {
    if negative {
      assert s == "-" + (ds + "");
      ParseIntOfNegatedDigits(ds, "", DigitsValue(ds));
    } else {
      assert s == ds + "";
      ParseIntOfDigits(s, ds, "");
    }
  }

  lemma KeepPadded(pad1: string, body: string, pad2: string)
    requires forall i :: 0 <= i < |body| ==> IsNumberChar(body[i])
    requires forall i :: 0 <= i < |pad1| ==> !IsNumberChar(pad1[i])
    requires forall i :: 0 <= i < |pad2| ==> !IsNumberChar(pad2[i])
    ensures Keep(pad1 + body + pad2, IsNumberChar) == body
  {
    KeepConcat(pad1 + body, pad2, IsNumberChar);
    KeepConcat(pad1, body, IsNumberChar);
    KeepAll(body, IsNumberChar);
  }

  lemma SignedDigitsKept(negative: bool, ds: string)
    requires AllDigits(ds)
    ensures var body := (if negative then "-" else "") + ds;
      forall i :: 0 <= i < |body| ==> IsNumberChar(body[i])
  {
  }

  /** An ISO calendar date as text: yyyy-mm-dd, all digits but the dashes. */
  predicate IsIsoDate(t: string) {
    |t| == 10 && t[4] == '-' && t[7] == '-'
    && AllDigits(t[..4]) && AllDigits(t[5..7]) && AllDigits(t[8..])
  }

  /** Eight or six digits in a date slice always give an ISO date. */
  lemma DateFieldIsIso(raw: string)
    requires |Keep(raw, IsDigit)| == 8 || |Keep(raw, IsDigit)| == 6
    ensures ParseDateField(raw).Text? && IsIsoDate(ParseDateField(raw).s)
  {
    var d := Keep(raw, IsDigit);
    var t := ParseDateField(raw).s;
    if |d| == 8 {
      assert t == d[4..8] + "-" + d[2..4] + "-" + d[0..2];
      assert t[..4] == d[4..8] && t[5..7] == d[2..4] && t[8..] == d[0..2];
    } else {
      assert t == "20" + d[4..6] + "-" + d[2..4] + "-" + d[0..2];
      assert t[..4] == "20" + d[4..6] && t[5..7] == d[2..4] && t[8..] == d[0..2];
    }
  }

  /** A stretch of a date slice without digits: padding or a separator. */
  predicate NoDigits(s: string) {
    forall i :: 0 <= i < |s| ==> !IsDigit(s[i])
  }

  /** ddmmyyyy written with any padding and separators decodes to yyyy-mm-dd. */
  lemma DateFieldOfFullDate(lead: string, day: string, sep1: string, month: string, sep2: string, year: string, trail: string)
    requires |day| == 2 && |month| == 2 && |year| == 4
    requires AllDigits(day) && AllDigits(month) && AllDigits(year)
    requires NoDigits(lead) && NoDigits(sep1) && NoDigits(sep2) && NoDigits(trail)
    ensures ParseDateField(lead + day + sep1 + month + sep2 + year + trail) == Text(year + "-" + month + "-" + day)
  {
    DigitsOfDate(lead, day, sep1, month, sep2, year, trail);
    var d := day + month + year;
    assert d[4..8] == year && d[2..4] == month && d[0..2] == day;
  }

  /** ddmmyy written with any padding and separators decodes to 20yy-mm-dd. */
  lemma DateFieldOfShortDate(lead: string, day: string, sep1: string, month: string, sep2: string, year: string, trail: string)
    requires |day| == 2 && |month| == 2 && |year| == 2
    requires AllDigits(day) && AllDigits(month) && AllDigits(year)
    requires NoDigits(lead) && NoDigits(sep1) && NoDigits(sep2) && NoDigits(trail)
    ensures ParseDateField(lead + day + sep1 + month + sep2 + year + trail) == Text("20" + year + "-" + month + "-" + day)
  {
    DigitsOfDate(lead, day, sep1, month, sep2, year, trail);
    var d := day + month + year;
    assert d[4..6] == year && d[2..4] == month && d[0..2] == day;
  }

  lemma DigitsOfDate(lead: string, day: string, sep1: string, month: string, sep2: string, year: string, trail: string)
    requires AllDigits(day) && AllDigits(month) && AllDigits(year)
    requires NoDigits(lead) && NoDigits(sep1) && NoDigits(sep2) && NoDigits(trail)
    ensures Keep(lead + day + sep1 + month + sep2 + year + trail, IsDigit) == day + month + year
  {
    var s1 := lead + day;
    var s2 := s1 + sep1;
    var s3 := s2 + month;
    var s4 := s3 + sep2;
    var s5 := s4 + year;
    assert Keep(lead, IsDigit) == "";
    KeepDigitsAfter(lead, day);
    assert Keep(s1, IsDigit) == day;
    KeepSkipsNonDigits(s1, sep1);
    KeepDigitsAfter(s2, month);
    assert Keep(s3, IsDigit) == day + month;
    KeepSkipsNonDigits(s3, sep2);
    KeepDigitsAfter(s4, year);
    assert Keep(s5, IsDigit) == day + month + year;
    KeepSkipsNonDigits(s5, trail);
  }

  lemma KeepDigitsAfter(a: string, ds: string)
    requires AllDigits(ds)
    ensures Keep(a + ds, IsDigit) == Keep(a, IsDigit) + ds
  {
    KeepConcat(a, ds, IsDigit);
    KeepAll(ds, IsDigit);
  }

  lemma KeepSkipsNonDigits(a: string, pad: string)
    requires NoDigits(pad)
    ensures Keep(a + pad, IsDigit) == Keep(a, IsDigit)
  {
    KeepConcat(a, pad, IsDigit);
    assert Keep(pad, IsDigit) == "";
  }

  /** A decimal value as a real number. */
  function DecimalAsReal(mantissa: int, scale: int): real
    decreases if scale < 0 then -scale else scale
  {
    if scale == 0 then mantissa as real
    else if scale > 0 then DecimalAsReal(mantissa, scale - 1) / 10.0
    else DecimalAsReal(mantissa, scale + 1) * 10.0
  }

  /** Worked example: the digits "012" at scale 2 are the number 0.12. */
  lemma DecimalExample()
    ensures ParseNumberField("012", 2) == Decimal(12, 2)
    ensures DecimalAsReal(12, 2) == 0.12
  {
    var s := "012";
    assert "" + "" + s + "" == s;
    NumberFieldOfPaddedDigits("", false, s, "", 2);
    TwelveDigits();
    TwelveHundredths();
  }

  lemma TwelveDigits()
    ensures DigitsValue("012") == 12
  {
    assert "012"[..2] == "01" && "01"[..1] == "0";
  }

  lemma TwelveHundredths()
    ensures DecimalAsReal(12, 2) == 0.12
  {
  }

  /** Worked examples of the three date forms: ddmmyyyy, ddmmyy, and a
      slice with another number of digits, which is kept as it is. */
  lemma DateExamples()
    ensures ParseDateField("25122023") == Text("2023" + "-" + "12" + "-" + "25")
    ensures ParseDateField("251223") == Text("20" + "23" + "-" + "12" + "-" + "25")
    ensures ParseDateField("2512") == Text("2512")
  {
    FullDateExample();
    ShortDateExample();
    OtherDateExample();
  }

  lemma FullDateExample()
    ensures ParseDateField("25122023") == Text("2023" + "-" + "12" + "-" + "25")
  {
    var s := "25122023";
    assert s == "" + "25" + "" + "12" + "" + "2023" + "";
    DateFieldOfFullDate("", "25", "", "12", "", "2023", "");
  }

  lemma ShortDateExample()
    ensures ParseDateField("251223") == Text("20" + "23" + "-" + "12" + "-" + "25")
  {
    var s := "251223";
    assert s == "" + "25" + "" + "12" + "" + "23" + "";
    DateFieldOfShortDate("", "25", "", "12", "", "23", "");
  }

  lemma OtherDateExample()
    ensures ParseDateField("2512") == Text("2512")
  {
    var s := "2512";
    assert s == "" + "25" + "" + "12" + "" + "" + "";
    DigitsOfDate("", "25", "", "12", "", "", "");
    assert |Keep(s, IsDigit)| == 4;
  }

  /** The yes-words in any case and with surrounding blanks are true; the
      empty slice is false. */
  lemma BooleanExamples()
    ensures ParseBoolean("S") && ParseBoolean(" sim ") && ParseBoolean("1") && ParseBoolean("YES")
    ensures !ParseBoolean("")
  {
    UpperS();
    DigitOne();
    UpperYes();
    PaddedSim();
    EmptyIsNo();
  }

  lemma UpperS() ensures ParseBoolean("S") { BooleanWord("S", "s"); }

  lemma DigitOne() ensures ParseBoolean("1") { BooleanWord("1", "1"); }

  lemma UpperYes() ensures ParseBoolean("YES") { BooleanWord("YES", "yes"); }

  /** ParseBoolean of a slice that trimming leaves alone compares its
      lower-cased form `t` with the four words. */
  lemma BooleanOfTrimmed(s: string, t: string)
    requires Trim(s) == s && Lower(s) == t
    ensures ParseBoolean(s) <==> t == "s" || t == "sim" || t == "1" || t == "yes"
  {
  }

  lemma BooleanWord(s: string, t: string)
    requires s != "" && !IsJsWhitespace(s[0]) && !IsJsWhitespace(s[|s| - 1])
    requires |t| == |s| && forall i :: 0 <= i < |s| ==> LowerChar(s[i]) == t[i]
    ensures ParseBoolean(s) <==> t == "s" || t == "sim" || t == "1" || t == "yes"
  {
    TrimNoOp(s);
    assert Lower(s) == t;
    BooleanOfTrimmed(s, t);
  }

  lemma EmptyIsNo()
    ensures !ParseBoolean("")
  {
    assert Trim("") == "";
    BooleanOfTrimmed("", "");
  }

  lemma PaddedSim()
    ensures ParseBoolean(" sim ")
  {
    var s := " sim ";
    assert s[1..] == "sim ";
    TrimStartNoOp("sim ");
    assert TrimStart(s) == "sim ";
    assert "sim "[..3] == "sim";
    assert Trim(s) == "sim";
    BooleanWord("sim", "sim");
  }

  // ------------------------------------------------------------ descriptors

  /** JavaScript's `x || null` on a number: zero is falsy and becomes `null`. */
  function NonZero(n: Option<int>): (r: Option<int>)
    ensures r.Some? <==> n.Some? && n.value != 0
    ensures r.Some? ==> r == n
  {
    if n == Some(0) then None else n
  }

  /** One row of buildDescriptors' `map`. */
  function Describe(row: LayoutRow): Descriptor {
    Descriptor(row.campo, row.descricao, row.tipo, NonZero(row.decimais),
               row.obrigatorio, NonZero(row.inicio), NonZero(row.fim))
  }

  /** buildDescriptors: the described rows, in order, except those without a name. */
  function BuildDescriptors(rows: seq<LayoutRow>): (r: seq<Descriptor>)
    ensures |r| <= |rows|
    ensures forall d :: d in r ==> d.name != "" && d.decimais != Some(0) && d.start != Some(0) && d.end != Some(0)
    ensures forall d :: d in r <==> exists row :: row in rows && row.campo != "" && d == Describe(row)
  {
    if rows == [] then []
    else
      var rest := BuildDescriptors(rows[1..]);
      assert forall row :: row in rows <==> row == rows[0] || row in rows[1..];
      (if rows[0].campo != "" then [Describe(rows[0])] else []) + rest
  }

  /** buildDescriptors keeps the order of the rows: it maps a concatenation
      of tables to the concatenation of their descriptors. */
  lemma {:induction false} BuildDescriptorsConcat(a: seq<LayoutRow>, b: seq<LayoutRow>)
    ensures BuildDescriptors(a + b) == BuildDescriptors(a) + BuildDescriptors(b)
  {
    if a == [] {
      assert a + b == b;
    } else {
      var h := if a[0].campo != "" then [Describe(a[0])] else [];
      assert a + b == [a[0]] + (a[1..] + b);
      BuildDescriptorsConcat(a[1..], b);
      BuildDescriptorsCons(a[0], a[1..] + b);
      BuildDescriptorsCons(a[0], a[1..]);
      assert a == [a[0]] + a[1..];
      AppendAssoc(h, BuildDescriptors(a[1..]), BuildDescriptors(b));
    }
  }

  lemma AppendAssoc<T>(x: seq<T>, y: seq<T>, z: seq<T>)
    ensures x + (y + z) == (x + y) + z
  {
  }

  lemma BuildDescriptorsCons(row: LayoutRow, rows: seq<LayoutRow>)
    ensures BuildDescriptors([row] + rows) ==
      (if row.campo != "" then [Describe(row)] else []) + BuildDescriptors(rows)
  {
    assert ([row] + rows)[1..] == rows;
  }

  /** A layout `decimais` of 0 is read as absent, so such a decimal field is
      decoded with the default scale 2; a non-zero `decimais` is used as it is. */
  lemma ScaleOfDescribedRow(row: LayoutRow)
    ensures Scale(Describe(row)) == (if row.decimais.Some? && row.decimais.value != 0 then row.decimais.value else 2)
  {
  }
}
