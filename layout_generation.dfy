/** The layout generator: a layout table in comma-separated text becomes a
    list of layout records. The first non-blank line names the columns; each
    further non-blank line becomes a record built from an object that maps
    every normalized column name to that line's cell, after a few header
    variants have been copied to the names the records read. */
module LayoutGeneration {
  import opened Optional
  import opened JsString
  import opened JsObject
  import opened HeaderNames

  // ------------------------------------------------------------ parseBool

  /** The JavaScript truthiness of a cell read from an object: present and
      not the empty string. */
  predicate Truthy(v: Option<string>) {
    v.Some? && v.value != ""
  }

  /** parseBool: false for a missing or empty cell, otherwise whether the
      text contains "sim" in any letter case. */
  predicate ParseBool(v: Option<string>) {
    Truthy(v) && Contains(Lower(v.value), "sim")
  }

  /** The three letters of "sim", each in either case, start at `i`. */
  predicate SimAt(v: string, i: int)
    requires 0 <= i && i + 3 <= |v|
  {
    (v[i] == 's' || v[i] == 'S') && (v[i + 1] == 'i' || v[i + 1] == 'I')
    && (v[i + 2] == 'm' || v[i + 2] == 'M')
  }

  /** A cell is read as true exactly when "sim" occurs in it, in any case. */
  lemma ParseBoolIff(v: string)
    ensures ParseBool(Some(v)) <==> exists i :: 0 <= i && i + 3 <= |v| && SimAt(v, i)
  {
    var l := Lower(v);
    ContainsIff(l, "sim");
    forall i | 0 <= i && i + 3 <= |v|
      ensures OccursAt(l, "sim", i) <==> SimAt(v, i)
    {
      LowerSim(v, i);
    }
    if v == "" {
      assert !Contains(l, "sim");
    }
  }

  lemma LowerSim(v: string, i: int)
    requires 0 <= i && i + 3 <= |v|
    ensures OccursAt(Lower(v), "sim", i) <==> SimAt(v, i)
  {
    var w := Lower(v)[i..i + 3];
    assert w[0] == LowerChar(v[i]) && w[1] == LowerChar(v[i + 1]) && w[2] == LowerChar(v[i + 2]);
    assert w == "sim" <==> w[0] == 's' && w[1] == 'i' && w[2] == 'm';
  }

  lemma TailSlice(s: string, i: int, j: int)
    requires 1 <= i <= j <= |s|
    ensures s[1..][i - 1..j - 1] == s[i..j]
  {
    forall k | 0 <= k < j - i
      ensures s[1..][i - 1..j - 1][k] == s[i..j][k]
    {
    }
  }

  /** `p` occurs in `s` at position `i`. */
  predicate OccursAt(s: string, p: string, i: int) {
    0 <= i && i + |p| <= |s| && s[i..i + |p|] == p
  }

  /** `Contains` holds exactly when `p` occurs at some position. */
  lemma {:induction false} ContainsIff(s: string, p: string)
    ensures Contains(s, p) <==> exists i :: OccursAt(s, p, i)
    decreases |s|
  {
    if s != "" {
      ContainsIff(s[1..], p);
      forall i | 1 <= i
        ensures OccursAt(s, p, i) <==> OccursAt(s[1..], p, i - 1)
      {
        if i + |p| <= |s| {
          TailSlice(s, i, i + |p|);
        }
      }
      if exists i :: OccursAt(s, p, i) {
        var i :| OccursAt(s, p, i);
        if i > 0 {
          assert OccursAt(s[1..], p, i - 1);
        }
      }
      if Contains(s[1..], p) {
        var i :| OccursAt(s[1..], p, i);
        assert OccursAt(s, p, i + 1);
      }
      if StartsWith(s, p) {
        assert OccursAt(s, p, 0);
      }
    } else if p == "" {
      assert OccursAt(s, p, 0);
    }
  }

  // ------------------------------------------------------------ numbers

  /** The characters the generator keeps before calling `Number`. */
  predicate IsNumeralChar(c: char) {
    IsDigit(c) || c == '.' || c == '-'
  }

  /** An exact decimal: the number mantissa / 10^scale. */
  datatype Num = Num(mantissa: int, scale: nat)

  function Pow10(k: nat): nat {
    if k == 0 then 1 else 10 * Pow10(k - 1)
  }

  lemma AllDigitsConcat(a: string, b: string)
    requires AllDigits(a) && AllDigits(b)
    ensures AllDigits(a + b)
  {
  }

  lemma {:induction false} LeadingDigitsIsPrefix(s: string)
    ensures |LeadingDigits(s)| <= |s| && s[..|LeadingDigits(s)|] == LeadingDigits(s)
  {
    if s != "" && IsDigit(s[0]) {
      LeadingDigitsIsPrefix(s[1..]);
    }
  }

  /** `Number` of a string over digits and '.', without a sign: digits, or
      digits and a '.' and digits with a digit on at least one side of the
      point; NaN (`None`) otherwise. */
  function UnsignedNumber(s: string): Option<Num> {
    var ip := LeadingDigits(s);
    LeadingDigitsIsPrefix(s);
    var rest := s[|ip|..];
    if rest == "" then
      if ip == "" then None else Some(Num(DigitsValue(ip), 0))
    else if rest[0] == '.' && AllDigits(rest[1..]) && (ip != "" || |rest| > 1) then
      var fp := rest[1..];
      AllDigitsConcat(ip, fp);
      Some(Num(DigitsValue(ip + fp), |fp|))
    else None
  }

  function NegateNum(n: Option<Num>): Option<Num> {
    match n
    case Some(m) => Some(Num(-m.mantissa, m.scale))
    case None => None
  }

  /** `Number(s)` for a string of digits, '.' and '-': the empty string is
      0, a leading '-' negates, and anything else malformed is NaN. */
  function NumberOf(s: string): Option<Num> {
    if s == "" then Some(Num(0, 0))
    else if s[0] == '-' then NegateNum(UnsignedNumber(s[1..]))
    else UnsignedNumber(s)
  }

  /** A decimal numeral: an optional '-', the integer digits, and, when
      `dot`, a '.' followed by the fraction digits. */
  function Numeral(negative: bool, ip: string, dot: bool, fp: string): string {
    (if negative then "-" else "") + (ip + Fraction(dot, fp))
  }

  function Fraction(dot: bool, fp: string): string {
    if dot then "." + fp else ""
  }

  predicate WellFormedNumeral(ip: string, dot: bool, fp: string) {
    AllDigits(ip) && AllDigits(fp) && (dot || fp == "") && (ip != "" || fp != "")
  }

  /** The value a numeral denotes, times 10^|fp|. */
  function NumeralValue(ip: string, fp: string): nat
    requires AllDigits(ip) && AllDigits(fp)
  {
    DigitsValue(ip) * Pow10(|fp|) + DigitsValue(fp)
  }

  /** Appending digits shifts the value of the leading ones. */
  lemma {:induction false} DigitsValueConcat(a: string, b: string)
    requires AllDigits(a) && AllDigits(b)
    ensures AllDigits(a + b) && DigitsValue(a + b) == DigitsValue(a) * Pow10(|b|) + DigitsValue(b)
    decreases |b|
  {
    AllDigitsConcat(a, b);
    if b == "" {
      assert a + b == a;
    } else {
      var b' := b[..|b| - 1];
      var d := DigitValue(b[|b| - 1]);
      assert (a + b)[..|a + b| - 1] == a + b';
      assert (a + b)[|a + b| - 1] == b[|b| - 1];
      DigitsValueConcat(a, b');
      var x: int, p: int, y: int := DigitsValue(a), Pow10(|b'|), DigitsValue(b');
      assert DigitsValue(a + b) == (x * p + y) * 10 + d;
      Shift(x, p, y, d);
      assert Pow10(|b|) == p * 10 && DigitsValue(b) == y * 10 + d;
    }
  }

  lemma Shift(x: int, p: int, y: int, d: int)
    ensures (x * p + y) * 10 + d == x * (p * 10) + (y * 10 + d)
  {
  }

  /** Every well-formed numeral reads as its value. */
  lemma NumberOfNumeral(negative: bool, ip: string, dot: bool, fp: string, v: int)
    requires WellFormedNumeral(ip, dot, fp) && v == NumeralValue(ip, fp)
    ensures NumberOf(Numeral(negative, ip, dot, fp)) == Some(Num(if negative then -v else v, |fp|))
  {
    var u := ip + Fraction(dot, fp);
    UnsignedOfNumeral(ip, dot, fp, v);
    if negative {
      assert Numeral(negative, ip, dot, fp) == "-" + u;
      NegativeNumber(u);
    } else {
      assert Numeral(negative, ip, dot, fp) == u;
    }
  }

  lemma NegativeNumber(u: string)
    ensures NumberOf("-" + u) == NegateNum(UnsignedNumber(u))
  {
    assert ("-" + u)[1..] == u;
  }

  lemma UnsignedOfNumeral(ip: string, dot: bool, fp: string, v: int)
    requires WellFormedNumeral(ip, dot, fp) && v == NumeralValue(ip, fp)
    ensures UnsignedNumber(ip + Fraction(dot, fp)) == Some(Num(v, |fp|))
  {
    var tail := Fraction(dot, fp);
    var u := ip + tail;
    LeadingDigitsPrefix(ip, tail);
    assert u[|ip|..] == tail;
    DigitsValueConcat(ip, fp);
    if dot {
      assert tail[1..] == fp;
    } else {
      assert DigitsValue(fp) == 0 && Pow10(0) == 1;
    }
  }

  /** Conversely, every non-empty string that reads as a number is a
      well-formed numeral. */
  lemma NumberOfIsNumeral(s: string)
    requires s != "" && NumberOf(s).Some?
    ensures exists negative, ip, dot, fp :: WellFormedNumeral(ip, dot, fp) && s == Numeral(negative, ip, dot, fp)
  {
    var negative := s[0] == '-';
    var u := if negative then s[1..] else s;
    var ip, dot, fp := UnsignedParts(u);
    if negative {
      SplitFirst(s);
    }
    assert s == Numeral(negative, ip, dot, fp);
  }

  lemma SplitFirst(s: string)
    requires s != ""
    ensures s == [s[0]] + s[1..]
  {
  }

  /** The parts of a string that reads as an unsigned number. */
  lemma UnsignedParts(u: string) returns (ip: string, dot: bool, fp: string)
    requires UnsignedNumber(u).Some?
    ensures WellFormedNumeral(ip, dot, fp) && u == ip + Fraction(dot, fp)
  {
    ip := LeadingDigits(u);
    LeadingDigitsIsPrefix(u);
    var rest := u[|ip|..];
    dot := rest != "";
    fp := if dot then rest[1..] else "";
    assert u == u[..|ip|] + rest;
    if dot {
      SplitFirst(rest);
    }
  }

  /** parseNumberOrNull: `null` for a missing or empty cell, otherwise
      `Number` of the cell's digits, points and minus signs, `null` for NaN. */
  function ParseNumberOrNull(v: Option<string>): Option<Num> {
    if !Truthy(v) then None else NumberOf(Keep(v.value, IsNumeralChar))
  }

  /** The record's numeric fields, `parseNumberOrNull(x) || null`: zero
      is `null` as well. */
  function NumberField(v: Option<string>): (r: Option<Num>)
    ensures r.Some? ==> r.value.mantissa != 0 && r == ParseNumberOrNull(v)
    ensures ParseNumberOrNull(v).Some? && ParseNumberOrNull(v).value.mantissa != 0 ==> r == ParseNumberOrNull(v)
  {
    match ParseNumberOrNull(v)
    case Some(n) => if n.mantissa == 0 then None else Some(n)
    case None => None
  }

  /** Every character that filtering keeps comes from the filtered string. */
  lemma {:induction false} KeepFrom(s: string, keep: char -> bool)
    ensures forall c :: c in Keep(s, keep) ==> c in s
  {
    if s != "" {
      KeepFrom(s[1..], keep);
    }
  }

  /** A cell without a digit gives `null`. */
  lemma NoDigitNoNumber(s: string)
    requires forall i :: 0 <= i < |s| ==> !IsDigit(s[i])
    ensures NumberField(Some(s)) == None
  {
    var k := Keep(s, IsNumeralChar);
    KeepFrom(s, IsNumeralChar);
    forall i | 0 <= i < |k| ensures !IsDigit(k[i]) {
      assert k[i] in s;
    }
    if k != "" {
      NoDigitNaN(k);
    }
  }

  /** Without a digit, a non-empty string is NaN. */
  lemma NoDigitNaN(k: string)
    requires k != "" && forall i :: 0 <= i < |k| ==> !IsDigit(k[i])
    ensures NumberOf(k) == None
  {
    var u := if k[0] == '-' then k[1..] else k;
    assert u != "" ==> !IsDigit(u[0]);
    assert LeadingDigits(u) == "";
    if |u| > 1 {
      assert !IsDigit(u[1]);
    }
  }

  /** A cell holding a well-formed numeral, between characters the filter
      drops, reads as the numeral's value (or `null` when that is zero). */
  lemma NumberFieldOfNumeral(pad1: string, negative: bool, ip: string, dot: bool, fp: string, pad2: string, v: int)
    requires WellFormedNumeral(ip, dot, fp) && v == NumeralValue(ip, fp)
    requires forall i :: 0 <= i < |pad1| ==> !IsNumeralChar(pad1[i])
    requires forall i :: 0 <= i < |pad2| ==> !IsNumeralChar(pad2[i])
    ensures NumberField(Some(pad1 + Numeral(negative, ip, dot, fp) + pad2))
      == if v == 0 then None else Some(Num(if negative then -v else v, |fp|))
  {
    var n := Numeral(negative, ip, dot, fp);
    NumeralKept(negative, ip, dot, fp);
    KeepConcat(pad1 + n, pad2, IsNumeralChar);
    KeepConcat(pad1, n, IsNumeralChar);
    assert Keep(pad1, IsNumeralChar) == "" && Keep(pad2, IsNumeralChar) == "";
    assert Keep(pad1 + n + pad2, IsNumeralChar) == n;
    NumberOfNumeral(negative, ip, dot, fp, v);
    assert n != "";
  }

  lemma NumeralKept(negative: bool, ip: string, dot: bool, fp: string)
    requires WellFormedNumeral(ip, dot, fp)
    ensures Keep(Numeral(negative, ip, dot, fp), IsNumeralChar) == Numeral(negative, ip, dot, fp)
  {
    var n := Numeral(negative, ip, dot, fp);
    assert forall i :: 0 <= i < |n| ==> IsNumeralChar(n[i]);
    KeepAll(n, IsNumeralChar);
  }

  /** Worked examples: a padded size, a negative fraction, and zero. */
  lemma SizeExample()
    ensures NumberField(Some(" 12 ")) == Some(Num(12, 0))
  {
    var ds := "12";
    assert " " + Numeral(false, ds, false, "") + " " == " 12 ";
    AllDigitsConcat("", "");
    NumberFieldOfNumeral(" ", false, ds, false, "", " ", NumeralValue(ds, ""));
    TwelveValue();
  }

  lemma TwelveValue()
    ensures NumeralValue("12", "") == 12
  {
    assert "12"[..1] == "1";
  }

  lemma FractionExample()
    ensures NumberField(Some("-0.5")) == Some(Num(-5, 1))
  {
    assert "" + Numeral(true, "0", true, "5") + "" == "-0.5";
    NumberFieldOfNumeral("", true, "0", true, "5", "", NumeralValue("0", "5"));
    HalfValue();
  }

  lemma HalfValue()
    ensures NumeralValue("0", "5") == 5
  {
  }

  lemma ZeroExample()
    ensures NumberField(Some("0")) == None
  {
    assert "" + Numeral(false, "0", false, "") + "" == "0";
    NumberFieldOfNumeral("", false, "0", false, "", "", NumeralValue("0", ""));
  }

  // ------------------------------------------------------------ rows

  /** `line.split(',').map(c => c.trim())`. */
  function Cells(line: string): (r: seq<string>)
    ensures |r| == Count(line, ',') + 1
  {
    var parts := Split(line, ',');
    seq(|parts|, i requires 0 <= i < |parts| => Trim(parts[i]))
  }

  /** Each cell is a piece of the comma split, trimmed, and so has no
      whitespace left at either end. */
  lemma CellsTrimmed(line: string, i: nat)
    requires i < |Cells(line)|
    ensures Cells(line)[i] == Trim(Split(line, ',')[i])
    ensures Trim(Cells(line)[i]) == Cells(line)[i]
  {
    TrimIdempotent(Split(line, ',')[i]);
  }

  /** `cols[i] === undefined ? '' : cols[i]`. */
  function Cell(cols: seq<string>, i: nat): string {
    if i < |cols| then cols[i] else ""
  }

  /** The normalized names of the header's columns. */
  function Names(header: seq<string>): (r: seq<string>)
    ensures |r| == |header|
  {
    seq(|header|, i requires 0 <= i < |header| => NormalizeHeader(header[i]))
  }

  lemma NamesNormalized(header: seq<string>)
    ensures forall i :: 0 <= i < |header| ==> IsNormalized(Names(header)[i])
  {
    forall i | 0 <= i < |header| ensures IsNormalized(Names(header)[i]) {
      NormalizeHeaderNormalized(header[i]);
    }
  }

  /** The `for` loop of a row, over the normalized names: `obj[names[i]] =
      cell i` for each column, in order. */
  function RowObject(names: seq<string>, cols: seq<string>): Obj<string> {
    if names == [] then []
    else
      var n := |names| - 1;
      Put(RowObject(names[..n], cols), names[n], Cell(cols, n))
  }

  lemma RowObjectSnoc(names: seq<string>, cols: seq<string>, i: nat)
    requires i < |names|
    ensures RowObject(names[..i + 1], cols) == Put(RowObject(names[..i], cols), names[i], Cell(cols, i))
  {
    assert names[..i + 1][..i] == names[..i];
  }

  /** The last position of `k` in `names`. */
  function LastIndex(names: seq<string>, k: string): (r: Option<nat>)
    ensures r.None? <==> forall j :: 0 <= j < |names| ==> names[j] != k
    ensures r.Some? ==>
      r.value < |names| && names[r.value] == k && forall j :: r.value < j < |names| ==> names[j] != k
  {
    if names == [] then None
    else
      var n := |names| - 1;
      if names[n] == k then Some(n)
      else
        var prev := names[..n];
        assert forall j :: 0 <= j < n ==> prev[j] == names[j];
        LastIndex(prev, k)
  }

  /** A row object maps each name to the cell of the last column with that
      name (the empty string past the end of the row), and has no other
      key. */
  lemma {:induction false} RowObjectGet(names: seq<string>, cols: seq<string>, k: string)
    ensures Get(RowObject(names, cols), k) ==
      match LastIndex(names, k)
      case None => None
      case Some(j) => Some(Cell(cols, j))
  {
    if names != [] {
      RowObjectGet(names[..|names| - 1], cols, k);
    }
  }

  /** The keys of a row object are distinct, and canonical when the names
      are. */
  lemma {:induction false} RowObjectKeys(names: seq<string>, cols: seq<string>)
    ensures UniqueKeys(RowObject(names, cols))
    ensures (forall i :: 0 <= i < |names| ==> IsNormalized(names[i])) ==> NormalizedKeys(RowObject(names, cols))
  {
    if names != [] {
      var n := |names| - 1;
      var prev := RowObject(names[..n], cols);
      RowObjectKeys(names[..n], cols);
      PutKeys(prev, names[n], Cell(cols, n));
    }
  }

  // ------------------------------------------------------------ aliases

  const AccentedDescricao: string := "descri\U{E7}\U{E3}o"
  const AccentedTermino: string := "t\U{E9}rmino"

  /** `if (obj[from]) obj[to] = obj[from]`. */
  function Alias(o: Obj<string>, from: string, to: string): Obj<string> {
    var v := Get(o, from);
    if Truthy(v) then Put(o, to, v.value) else o
  }

  /** The seven header variants, copied in the code's order. */
  function WithAliases(o: Obj<string>): Obj<string> {
    var o1 := Alias(o, "descri_o", "descricao");
    var o2 := Alias(o1, AccentedDescricao, "descricao");
    var o3 := Alias(o2, "tam", "tamanho");
    var o4 := Alias(o3, "in_cio", "inicio");
    var o5 := Alias(o4, "t_rmino", "fim");
    var o6 := Alias(o5, AccentedTermino, "fim");
    Alias(o6, "obrig", "obrigatorio")
  }

  predicate AliasTarget(k: string) {
    k == "descricao" || k == "tamanho" || k == "inicio" || k == "fim" || k == "obrigatorio"
  }

  /** Copying never changes a key other than its target. */
  lemma AliasGet(o: Obj<string>, from: string, to: string, k: string)
    requires k != to
    ensures Get(Alias(o, from, to), k) == Get(o, k)
  {
  }

  /** The variants change only the five target names. */
  lemma WithAliasesGet(o: Obj<string>, k: string)
    requires !AliasTarget(k)
    ensures Get(WithAliases(o), k) == Get(o, k)
  {
    var o1 := Alias(o, "descri_o", "descricao");
    var o2 := Alias(o1, AccentedDescricao, "descricao");
    var o3 := Alias(o2, "tam", "tamanho");
    var o4 := Alias(o3, "in_cio", "inicio");
    var o5 := Alias(o4, "t_rmino", "fim");
    var o6 := Alias(o5, AccentedTermino, "fim");
    AliasGet(o, "descri_o", "descricao", k);
    AliasGet(o1, AccentedDescricao, "descricao", k);
    AliasGet(o2, "tam", "tamanho", k);
    AliasGet(o3, "in_cio", "inicio", k);
    AliasGet(o4, "t_rmino", "fim", k);
    AliasGet(o5, AccentedTermino, "fim", k);
    AliasGet(o6, "obrig", "obrigatorio", k);
  }

  predicate NormalizedKeys(o: Obj<string>) {
    forall k :: k in Keys(o) ==> IsNormalized(k)
  }

  /** A name that is not canonical is never a key, so its variant is never
      copied. */
  lemma InertAlias(o: Obj<string>, from: string, to: string)
    requires NormalizedKeys(o) && !IsNormalized(from)
    ensures Alias(o, from, to) == o
  {
  }

  lemma AliasKeepsNormalized(o: Obj<string>, from: string, to: string)
    requires NormalizedKeys(o) && IsNormalized(to)
    ensures NormalizedKeys(Alias(o, from, to))
  {
    if Truthy(Get(o, from)) {
      PutKeys(o, to, Get(o, from).value);
    }
  }

  lemma AccentedNotNormalized()
    ensures !IsNormalized(AccentedDescricao) && !IsNormalized(AccentedTermino)
  {
    assert !IsLowerAlnum(AccentedDescricao[6]) && AccentedDescricao[6] != '_';
    assert !IsLowerAlnum(AccentedTermino[1]) && AccentedTermino[1] != '_';
  }

  lemma TargetsNormalized()
    ensures IsNormalized("descricao") && IsNormalized("tamanho") && IsNormalized("inicio") && IsNormalized("fim")
  {
  }

  /** Row objects only ever have canonical keys, so the two accented
      variants the code tests for never apply: only five copies can happen. */
  lemma AccentedAliasesInert(o: Obj<string>)
    requires NormalizedKeys(o)
    ensures WithAliases(o) ==
      Alias(Alias(Alias(Alias(Alias(o, "descri_o", "descricao"), "tam", "tamanho"),
        "in_cio", "inicio"), "t_rmino", "fim"), "obrig", "obrigatorio")
  {
    var o1 := Alias(o, "descri_o", "descricao");
    DescricaoVariants(o);
    var o3 := Alias(o1, "tam", "tamanho");
    var o4 := Alias(o3, "in_cio", "inicio");
    MiddleVariants(o1);
    FimVariants(o4);
  }

  lemma DescricaoVariants(o: Obj<string>)
    requires NormalizedKeys(o)
    ensures var o1 := Alias(o, "descri_o", "descricao");
      NormalizedKeys(o1) && Alias(o1, AccentedDescricao, "descricao") == o1
  {
    AccentedNotNormalized();
    TargetsNormalized();
    AliasKeepsNormalized(o, "descri_o", "descricao");
    InertAlias(Alias(o, "descri_o", "descricao"), AccentedDescricao, "descricao");
  }

  lemma MiddleVariants(o: Obj<string>)
    requires NormalizedKeys(o)
    ensures NormalizedKeys(Alias(Alias(o, "tam", "tamanho"), "in_cio", "inicio"))
  {
    TargetsNormalized();
    AliasKeepsNormalized(o, "tam", "tamanho");
    AliasKeepsNormalized(Alias(o, "tam", "tamanho"), "in_cio", "inicio");
  }

  lemma FimVariants(o: Obj<string>)
    requires NormalizedKeys(o)
    ensures var o5 := Alias(o, "t_rmino", "fim"); Alias(o5, AccentedTermino, "fim") == o5
  {
    AccentedNotNormalized();
    TargetsNormalized();
    AliasKeepsNormalized(o, "t_rmino", "fim");
    InertAlias(Alias(o, "t_rmino", "fim"), AccentedTermino, "fim");
  }

  // ------------------------------------------------------------ records

  /** One generated layout record. `seqNumber` is the code's `seq`. */
  datatype LayoutRecord = LayoutRecord(
    seqNumber: Option<Num>, descricao: string, campo: string, tipo: string,
    decimais: Option<Num>, obrigatorio: bool, tamanho: Option<Num>,
    inicio: Option<Num>, fim: Option<Num>, raw: Obj<string>)

  /** JavaScript's `a || b` on two cells. */
  function Or(a: Option<string>, b: Option<string>): Option<string> {
    if Truthy(a) then a else b
  }

  /** `obj.k || ''`. */
  function TextOf(o: Obj<string>, k: string): string {
    Get(o, k).GetOr("")
  }

  /** The record of one row, from its aliased object. */
  function RecordOf(obj: Obj<string>): LayoutRecord {
    var obrigKey := FirstKeyWithPrefix(obj, "obrig");
    LayoutRecord(
      NumberField(Or(Or(Or(Or(Get(obj, "seq"), Get(obj, "seq_")), Get(obj, "seq.")), Get(obj, "seq")), Get(obj, "seq,"))),
      TextOf(obj, "descricao"), TextOf(obj, "campo"), TextOf(obj, "tipo"),
      NumberField(Get(obj, "decimais")),
      ParseBool(if obrigKey.Some? then Get(obj, obrigKey.value) else Get(obj, "obrigatorio")),
      NumberField(Get(obj, "tamanho")), NumberField(Get(obj, "inicio")),
      NumberField(Or(Get(obj, "fim"), Get(obj, "termino"))),
      obj)
  }

  /** The record the `rows.map` callback returns for the cells `cols`. */
  function Record(header: seq<string>, cols: seq<string>): LayoutRecord {
    RecordOf(RowRecordObject(header, cols))
  }

  /** The aliased object of a row. */
  function RowRecordObject(header: seq<string>, cols: seq<string>): Obj<string> {
    WithAliases(RowObject(Names(header), cols))
  }

  /** The column a record field is read from: the cell of the last column
      whose name normalizes to `k`, or missing. */
  function Column(header: seq<string>, cols: seq<string>, k: string): Option<string> {
    match LastIndex(Names(header), k)
    case None => None
    case Some(j) => Some(Cell(cols, j))
  }

  /** Fields that no variant targets come straight from their column. */
  lemma RecordGet(header: seq<string>, cols: seq<string>, k: string)
    requires !AliasTarget(k)
    ensures Get(RowRecordObject(header, cols), k) == Column(header, cols, k)
  {
    WithAliasesGet(RowObject(Names(header), cols), k);
    RowObjectGet(Names(header), cols, k);
  }

  /** The name and type of a record are the cells of the columns named
      "campo" and "tipo", or empty. */
  lemma RecordCampoTipo(header: seq<string>, cols: seq<string>)
    ensures Record(header, cols).campo == Column(header, cols, "campo").GetOr("")
    ensures Record(header, cols).tipo == Column(header, cols, "tipo").GetOr("")
    ensures Record(header, cols).decimais == NumberField(Column(header, cols, "decimais"))
  {
    RecordGet(header, cols, "campo");
    RecordGet(header, cols, "tipo");
    RecordGet(header, cols, "decimais");
  }

  /** The fields the header variants feed: `descricao`, `tamanho` and
      `inicio` prefer a non-empty variant column ("descri_o", "tam",
      "in_cio") over the column of their own name, and `fim` prefers
      "t_rmino", then "fim", then "termino". `descricao` defaults to ''. */
  lemma RecordAliases(header: seq<string>, cols: seq<string>)
    ensures Record(header, cols).descricao ==
      Or(Column(header, cols, "descri_o"), Column(header, cols, "descricao")).GetOr("")
    ensures Record(header, cols).tamanho ==
      NumberField(Or(Column(header, cols, "tam"), Column(header, cols, "tamanho")))
    ensures Record(header, cols).inicio ==
      NumberField(Or(Column(header, cols, "in_cio"), Column(header, cols, "inicio")))
    ensures Record(header, cols).fim ==
      NumberField(Or(Or(Column(header, cols, "t_rmino"), Column(header, cols, "fim")), Column(header, cols, "termino")))
  {
    var names := Names(header);
    var o := RowObject(names, cols);
    RowKeysNormalized(header, cols);
    RecordOfAliases(o);
    RowObjectGet(names, cols, "descri_o");
    RowObjectGet(names, cols, "descricao");
    RowObjectGet(names, cols, "tam");
    RowObjectGet(names, cols, "tamanho");
    RowObjectGet(names, cols, "in_cio");
    RowObjectGet(names, cols, "inicio");
    RowObjectGet(names, cols, "t_rmino");
    RowObjectGet(names, cols, "fim");
    RowObjectGet(names, cols, "termino");
  }

  lemma RecordOfAliases(o: Obj<string>)
    requires NormalizedKeys(o)
    ensures RecordOf(WithAliases(o)).descricao == Or(Get(o, "descri_o"), Get(o, "descricao")).GetOr("")
    ensures RecordOf(WithAliases(o)).tamanho == NumberField(Or(Get(o, "tam"), Get(o, "tamanho")))
    ensures RecordOf(WithAliases(o)).inicio == NumberField(Or(Get(o, "in_cio"), Get(o, "inicio")))
    ensures RecordOf(WithAliases(o)).fim ==
      NumberField(Or(Or(Get(o, "t_rmino"), Get(o, "fim")), Get(o, "termino")))
  {
    AliasedTargets(o);
    WithAliasesGet(o, "termino");
  }

  /** Reading the target of one copy: the source when it is non-empty,
      otherwise what the target held. */
  lemma AliasRead(o: Obj<string>, from: string, to: string)
    ensures Get(Alias(o, from, to), to) == Or(Get(o, from), Get(o, to))
  {
  }

  /** On an object with canonical keys, each target of the variants reads
      its variant first and its own key second. */
  lemma AliasedTargets(o: Obj<string>)
    requires NormalizedKeys(o)
    ensures Get(WithAliases(o), "descricao") == Or(Get(o, "descri_o"), Get(o, "descricao"))
    ensures Get(WithAliases(o), "tamanho") == Or(Get(o, "tam"), Get(o, "tamanho"))
    ensures Get(WithAliases(o), "inicio") == Or(Get(o, "in_cio"), Get(o, "inicio"))
    ensures Get(WithAliases(o), "fim") == Or(Get(o, "t_rmino"), Get(o, "fim"))
  {
    AccentedNotNormalized();
    assert AccentedDescricao !in Keys(o) && AccentedTermino !in Keys(o);
    AliasedDescricao(o);
    AliasedTamanho(o);
    AliasedInicio(o);
    AliasedFim(o);
  }

  lemma AliasedDescricao(o: Obj<string>)
    ensures Get(WithAliases(o), "descricao") ==
      Or(Get(o, AccentedDescricao), Or(Get(o, "descri_o"), Get(o, "descricao")))
  {
    var o1 := Alias(o, "descri_o", "descricao");
    var o2 := Alias(o1, AccentedDescricao, "descricao");
    var o3 := Alias(o2, "tam", "tamanho");
    var o4 := Alias(o3, "in_cio", "inicio");
    var o5 := Alias(o4, "t_rmino", "fim");
    var o6 := Alias(o5, AccentedTermino, "fim");
    AliasRead(o, "descri_o", "descricao");
    AliasGet(o, "descri_o", "descricao", AccentedDescricao);
    AliasRead(o1, AccentedDescricao, "descricao");
    AliasGet(o2, "tam", "tamanho", "descricao");
    AliasGet(o3, "in_cio", "inicio", "descricao");
    AliasGet(o4, "t_rmino", "fim", "descricao");
    AliasGet(o5, AccentedTermino, "fim", "descricao");
    AliasGet(o6, "obrig", "obrigatorio", "descricao");
  }

  lemma AliasedTamanho(o: Obj<string>)
    ensures Get(WithAliases(o), "tamanho") == Or(Get(o, "tam"), Get(o, "tamanho"))
  {
    var o1 := Alias(o, "descri_o", "descricao");
    var o2 := Alias(o1, AccentedDescricao, "descricao");
    var o3 := Alias(o2, "tam", "tamanho");
    var o4 := Alias(o3, "in_cio", "inicio");
    var o5 := Alias(o4, "t_rmino", "fim");
    var o6 := Alias(o5, AccentedTermino, "fim");
    AliasGet(o, "descri_o", "descricao", "tam");
    AliasGet(o, "descri_o", "descricao", "tamanho");
    AliasGet(o1, AccentedDescricao, "descricao", "tam");
    AliasGet(o1, AccentedDescricao, "descricao", "tamanho");
    AliasRead(o2, "tam", "tamanho");
    AliasGet(o3, "in_cio", "inicio", "tamanho");
    AliasGet(o4, "t_rmino", "fim", "tamanho");
    AliasGet(o5, AccentedTermino, "fim", "tamanho");
    AliasGet(o6, "obrig", "obrigatorio", "tamanho");
  }

  lemma AliasedInicio(o: Obj<string>)
    ensures Get(WithAliases(o), "inicio") == Or(Get(o, "in_cio"), Get(o, "inicio"))
  {
    var o1 := Alias(o, "descri_o", "descricao");
    var o2 := Alias(o1, AccentedDescricao, "descricao");
    var o3 := Alias(o2, "tam", "tamanho");
    var o4 := Alias(o3, "in_cio", "inicio");
    var o5 := Alias(o4, "t_rmino", "fim");
    var o6 := Alias(o5, AccentedTermino, "fim");
    AliasGet(o, "descri_o", "descricao", "in_cio");
    AliasGet(o, "descri_o", "descricao", "inicio");
    AliasGet(o1, AccentedDescricao, "descricao", "in_cio");
    AliasGet(o1, AccentedDescricao, "descricao", "inicio");
    AliasGet(o2, "tam", "tamanho", "in_cio");
    AliasGet(o2, "tam", "tamanho", "inicio");
    AliasRead(o3, "in_cio", "inicio");
    AliasGet(o4, "t_rmino", "fim", "inicio");
    AliasGet(o5, AccentedTermino, "fim", "inicio");
    AliasGet(o6, "obrig", "obrigatorio", "inicio");
  }

  lemma AliasedFim(o: Obj<string>)
    ensures Get(WithAliases(o), "fim") ==
      Or(Get(o, AccentedTermino), Or(Get(o, "t_rmino"), Get(o, "fim")))
  {
    var o1 := Alias(o, "descri_o", "descricao");
    var o2 := Alias(o1, AccentedDescricao, "descricao");
    var o3 := Alias(o2, "tam", "tamanho");
    var o4 := Alias(o3, "in_cio", "inicio");
    var o5 := Alias(o4, "t_rmino", "fim");
    var o6 := Alias(o5, AccentedTermino, "fim");
    AliasedFimPrefix(o);
    AliasGet(o4, "t_rmino", "fim", AccentedTermino);
    AliasRead(o5, AccentedTermino, "fim");
    AliasGet(o6, "obrig", "obrigatorio", "fim");
  }

  /** The first four copies leave "fim" and the two names it is copied from alone. */
  lemma AliasedFimPrefix(o: Obj<string>)
    ensures var o4 := Alias(Alias(Alias(Alias(o, "descri_o", "descricao"), AccentedDescricao, "descricao"),
      "tam", "tamanho"), "in_cio", "inicio");
      Get(o4, AccentedTermino) == Get(o, AccentedTermino)
      && Get(Alias(o4, "t_rmino", "fim"), "fim") == Or(Get(o, "t_rmino"), Get(o, "fim"))
  {
    var o1 := Alias(o, "descri_o", "descricao");
    var o2 := Alias(o1, AccentedDescricao, "descricao");
    var o3 := Alias(o2, "tam", "tamanho");
    var o4 := Alias(o3, "in_cio", "inicio");
    AliasGet(o, "descri_o", "descricao", "t_rmino");
    AliasGet(o, "descri_o", "descricao", "fim");
    AliasGet(o, "descri_o", "descricao", AccentedTermino);
    AliasGet(o1, AccentedDescricao, "descricao", "t_rmino");
    AliasGet(o1, AccentedDescricao, "descricao", "fim");
    AliasGet(o1, AccentedDescricao, "descricao", AccentedTermino);
    AliasGet(o2, "tam", "tamanho", "t_rmino");
    AliasGet(o2, "tam", "tamanho", "fim");
    AliasGet(o2, "tam", "tamanho", AccentedTermino);
    AliasGet(o3, "in_cio", "inicio", "t_rmino");
    AliasGet(o3, "in_cio", "inicio", "fim");
    AliasGet(o3, "in_cio", "inicio", AccentedTermino);
    AliasRead(o4, "t_rmino", "fim");
  }

  /** The sequence number comes from the column named "seq": the other
      spellings the code tries ("seq_", "seq." and "seq,") are never keys. */
  lemma RecordSeq(header: seq<string>, cols: seq<string>)
    ensures Record(header, cols).seqNumber == NumberField(Column(header, cols, "seq"))
  {
    SeqVariantsAbsent(header, cols);
    RecordGet(header, cols, "seq");
    RecordOfSeq(RowRecordObject(header, cols));
  }

  lemma SeqVariantsAbsent(header: seq<string>, cols: seq<string>)
    ensures var obj := RowRecordObject(header, cols);
      Get(obj, "seq_") == None && Get(obj, "seq.") == None && Get(obj, "seq,") == None
  {
    RowKeysNormalized(header, cols);
    SeqVariantsAbsentFrom(RowObject(Names(header), cols));
  }

  lemma SeqVariantsAbsentFrom(o: Obj<string>)
    requires NormalizedKeys(o)
    ensures Get(WithAliases(o), "seq_") == None && Get(WithAliases(o), "seq.") == None
      && Get(WithAliases(o), "seq,") == None
  {
    SeqVariantsNotNormalized();
    AbsentAfterAliases(o, "seq_");
    AbsentAfterAliases(o, "seq.");
    AbsentAfterAliases(o, "seq,");
  }

  lemma RowKeysNormalized(header: seq<string>, cols: seq<string>)
    ensures NormalizedKeys(RowObject(Names(header), cols))
  {
    NamesNormalized(header);
    RowObjectKeys(Names(header), cols);
  }

  /** A name that is not canonical and that no variant targets is never a
      key of an aliased row. */
  lemma AbsentAfterAliases(o: Obj<string>, k: string)
    requires NormalizedKeys(o) && !IsNormalized(k) && !AliasTarget(k)
    ensures Get(WithAliases(o), k) == None
  {
    WithAliasesGet(o, k);
  }

  lemma RecordOfSeq(obj: Obj<string>)
    requires Get(obj, "seq_") == None && Get(obj, "seq.") == None && Get(obj, "seq,") == None
    ensures RecordOf(obj).seqNumber == NumberField(Get(obj, "seq"))
  {
    SeqChain(Get(obj, "seq"));
  }

  /** `a || undefined || undefined || a || undefined` reads as `a`. */
  lemma SeqChain(a: Option<string>)
    ensures NumberField(Or(Or(Or(Or(a, None), None), a), None)) == NumberField(a)
  {
  }

  lemma SeqVariantsNotNormalized()
    ensures !IsNormalized("seq_") && !IsNormalized("seq.") && !IsNormalized("seq,")
  {
    assert "seq."[3] == '.' && "seq,"[3] == ',';
  }

  /** The required flag is read from the first key that starts with
      "obrig"; without one it is false, since the fallback `obj.obrigatorio`
      would itself start with "obrig". */
  lemma RecordObrigatorio(header: seq<string>, cols: seq<string>)
    ensures var obj := RowRecordObject(header, cols);
      Record(header, cols).obrigatorio ==
        match FirstKeyWithPrefix(obj, "obrig")
        case None => false
        case Some(k) => ParseBool(Get(obj, k))
  {
    var obj := RowRecordObject(header, cols);
    ObrigatorioPrefix();
    if FirstKeyWithPrefix(obj, "obrig").None? {
      assert "obrigatorio" !in Keys(obj);
    }
  }

  lemma ObrigatorioPrefix()
    ensures StartsWith("obrigatorio", "obrig")
  {
    assert "obrigatorio"[..5] == "obrig";
  }

  // ------------------------------------------------------------ files

  /** `.filter(l => l.trim() !== '')`. */
  function NonBlank(lines: seq<string>): (r: seq<string>)
    ensures |r| <= |lines|
    ensures forall i :: 0 <= i < |r| ==> Trim(r[i]) != ""
  {
    if lines == [] then []
    else (if Trim(lines[0]) != "" then [lines[0]] else []) + NonBlank(lines[1..])
  }

  /** The filter keeps exactly the non-blank lines. */
  lemma {:induction false} NonBlankIff(lines: seq<string>, l: string)
    ensures l in NonBlank(lines) <==> l in lines && Trim(l) != ""
  {
    if lines != [] {
      NonBlankIff(lines[1..], l);
      assert lines == [lines[0]] + lines[1..];
    }
  }

  /** The records of the rows `rows` under the columns `header`. */
  function Records(header: seq<string>, rows: seq<string>): (r: seq<LayoutRecord>)
    ensures |r| == |rows|
  {
    MapRows(line => Record(header, Cells(line)), rows)
  }

  /** `rows.map(f)`. */
  function MapRows<T>(f: string -> T, rows: seq<string>): (r: seq<T>)
    ensures |r| == |rows|
  {
    if rows == [] then [] else MapRows(f, rows[..|rows| - 1]) + [f(rows[|rows| - 1])]
  }

  /** Element `i` of the map is `f` of row `i`. */
  lemma {:induction false} MapRowsAt<T>(f: string -> T, rows: seq<string>, i: nat)
    requires i < |rows|
    ensures MapRows(f, rows)[i] == f(rows[i])
  {
    var n := |rows| - 1;
    if i < n {
      var prev := rows[..n];
      MapRowsAt(f, prev, i);
      assert prev[i] == rows[i];
    }
  }

  /** What parseCsv returns for the text of a layout file. */
  function LayoutRecords(text: string): seq<LayoutRecord> {
    var lines := NonBlank(SplitLines(text));
    if lines == [] then [] else Records(Cells(lines[0]), lines[1..])
  }

  /** One record per non-blank line after the first, each built from that
      line under the column names of the first; none without lines. */
  lemma LayoutRecordsShape(text: string)
    ensures var lines := NonBlank(SplitLines(text));
      |LayoutRecords(text)| == (if lines == [] then 0 else |lines| - 1)
      && forall i :: 0 <= i < |LayoutRecords(text)| ==>
           LayoutRecords(text)[i] == Record(Cells(lines[0]), Cells(lines[i + 1]))
  {
    var lines := NonBlank(SplitLines(text));
    if lines != [] {
      var rows := lines[1..];
      forall i | 0 <= i < |rows|
        ensures Records(Cells(lines[0]), rows)[i] == Record(Cells(lines[0]), Cells(lines[i + 1]))
      {
        MapRowsAt(line => Record(Cells(lines[0]), Cells(line)), rows, i);
      }
    }
  }

  // ------------------------------------------------------------ the methods

  /** The `rows.map` callback: the cells of `line`, the row object built
      column by column, the variants copied, and the record. */
  method MakeRecord(header: seq<string>, line: string) returns (rec: LayoutRecord)
    ensures rec == Record(header, Cells(line))
  {
    var cols := Cells(line);
    var obj := BuildRow(header, cols);
    obj := CopyVariants(obj);
    rec := RecordOf(obj);
  }

  /** The `for` loop over the header: one assignment per column, under the
      column's normalized name. */
  method BuildRow(header: seq<string>, cols: seq<string>) returns (obj: Obj<string>)
    ensures obj == RowObject(Names(header), cols)
  {
    var names := Names(header);
    obj := AssignColumns(names, cols);
  }

  /** The loop body `obj[key] = i >= cols.length ? '' : cols[i]`, column by
      column, with the keys already normalized. */
  method AssignColumns(names: seq<string>, cols: seq<string>) returns (obj: Obj<string>)
    ensures obj == RowObject(names, cols)
  {
    obj := [];
    for i := 0 to |names|
      invariant obj == RowObject(names[..i], cols)
    {
      var key := names[i];
      var val := if i >= |cols| then "" else cols[i];
      RowObjectSnoc(names, cols, i);
      assert Cell(cols, i) == val;
      obj := Put(obj, key, val);
    }
    assert names[..|names|] == names;
  }

  /** The seven `if (obj[from]) obj[to] = obj[from]` statements. */
  method CopyVariants(o: Obj<string>) returns (obj: Obj<string>)
    ensures obj == WithAliases(o)
  {
    obj := CopyIfSet(o, "descri_o", "descricao");
    obj := CopyIfSet(obj, AccentedDescricao, "descricao");
    obj := CopyIfSet(obj, "tam", "tamanho");
    obj := CopyIfSet(obj, "in_cio", "inicio");
    obj := CopyIfSet(obj, "t_rmino", "fim");
    obj := CopyIfSet(obj, AccentedTermino, "fim");
    obj := CopyIfSet(obj, "obrig", "obrigatorio");
  }

  /** `if (obj[from]) obj[to] = obj[from]`. */
  method CopyIfSet(o: Obj<string>, from: string, to: string) returns (obj: Obj<string>)
    ensures obj == Alias(o, from, to)
  {
    obj := o;
    if Truthy(Get(obj, from)) {
      obj := Put(obj, to, Get(obj, from).value);
    }
  }

  /** parseCsv on the text of a file: the non-blank lines, the header from
      the first, and one record per further line. */
  method ParseCsv(text: string) returns (out: seq<LayoutRecord>)
    ensures out == LayoutRecords(text)
  {
    var lines := NonBlank(SplitLines(text));
    if |lines| == 0 {
      return [];
    }
    var header := Cells(lines[0]);
    out := RecordRows(header, lines[1..]);
  }

  /** `rows.map(...)`: one record per row, in order. */
  method RecordRows(header: seq<string>, rows: seq<string>) returns (out: seq<LayoutRecord>)
    ensures out == Records(header, rows)
  {
    ghost var f := line => Record(header, Cells(line));
    out := [];
    for r := 0 to |rows|
      invariant out == MapRows(f, rows[..r])
    {
      var rec := MakeRecord(header, rows[r]);
      MapRowsSnoc(f, rows, r);
      assert rec == f(rows[r]);
      out := out + [rec];
    }
    assert rows[..|rows|] == rows;
  }

  lemma MapRowsSnoc<T>(f: string -> T, rows: seq<string>, r: nat)
    requires r < |rows|
    ensures MapRows(f, rows[..r + 1]) == MapRows(f, rows[..r]) + [f(rows[r])]
  {
    assert rows[..r + 1][..r] == rows[..r];
  }
}
