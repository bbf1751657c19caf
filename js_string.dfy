/** The JavaScript string built-ins that the parser and the layout generator
    rely on, stated over `seq<char>`: `trim`, `toLowerCase`, `includes`-style
    regular-expression tests, `replace(/[^...]/g, '')` filters, `split`,
    the line split on `/\r?\n/`, and `parseInt(s, 10)`. */
module JsString {
  import opened Optional

  predicate IsDigit(c: char) {
    '0' <= c <= '9'
  }

  predicate AllDigits(s: string) {
    forall i :: 0 <= i < |s| ==> IsDigit(s[i])
  }

  /** The characters JavaScript's `trim` removes: WhiteSpace and LineTerminator. */
  predicate IsJsWhitespace(c: char) {
    c == '\t' || c == '\n' || c == '\U{B}' || c == '\U{C}' || c == '\r' || c == ' '
    || c == '\U{A0}' || c == '\U{1680}' || ('\U{2000}' <= c <= '\U{200A}')
    || c == '\U{2028}' || c == '\U{2029}' || c == '\U{202F}' || c == '\U{205F}'
    || c == '\U{3000}' || c == '\U{FEFF}'
  }

  predicate AllWhitespace(s: string) {
    forall i :: 0 <= i < |s| ==> IsJsWhitespace(s[i])
  }

  /** `s.trimStart()`: the suffix of `s` left after its leading whitespace. */
  function TrimStart(s: string): (r: string)
    ensures |r| <= |s| && r == s[|s| - |r|..]
    ensures r == "" || !IsJsWhitespace(r[0])
  {
    if s != "" && IsJsWhitespace(s[0]) then TrimStart(s[1..]) else s
  }

  /** What `trimStart` drops is whitespace. */
  lemma {:induction false} TrimStartDropsWhitespace(s: string)
    ensures AllWhitespace(s[..|s| - |TrimStart(s)|])
  {
    if s != "" && IsJsWhitespace(s[0]) {
      var k := |s| - |TrimStart(s[1..])|;
      var q := s[1..][..k - 1];
      TrimStartDropsWhitespace(s[1..]);
      var p := s[..k];
      forall i | 0 <= i < |p| ensures IsJsWhitespace(p[i]) {
        if i > 0 {
          assert p[i] == q[i - 1];
        }
      }
    }
  }

  /** `s.trimEnd()`: the prefix of `s` left before its trailing whitespace. */
  function TrimEnd(s: string): (r: string)
    ensures |r| <= |s| && r == s[..|r|]
    ensures r == "" || !IsJsWhitespace(r[|r| - 1])
  {
    if s != "" && IsJsWhitespace(s[|s| - 1]) then TrimEnd(s[..|s| - 1]) else s
  }

  /** What `trimEnd` drops is whitespace. */
  lemma {:induction false} TrimEndDropsWhitespace(s: string)
    ensures AllWhitespace(s[|TrimEnd(s)|..])
  {
    if s != "" && IsJsWhitespace(s[|s| - 1]) {
      var k := |TrimEnd(s[..|s| - 1])|;
      var q := s[..|s| - 1][k..];
      TrimEndDropsWhitespace(s[..|s| - 1]);
      var p := s[k..];
      forall i | 0 <= i < |p| ensures IsJsWhitespace(p[i]) {
        if i < |q| {
          assert p[i] == q[i];
        }
      }
    }
  }

  /** `r` is `s` without some whitespace at its start and at its end. */
  predicate StripsEdges(s: string, r: string) {
    exists a, b :: 0 <= a <= b <= |s| && r == s[a..b] && AllWhitespace(s[..a]) && AllWhitespace(s[b..])
  }

  /** `s.trim()`: empty exactly for a blank string, and otherwise a string that
      neither starts nor ends with whitespace. */
  function Trim(s: string): (r: string)
    ensures |r| <= |s|
    ensures r == "" <==> AllWhitespace(s)
    ensures r != "" ==> !IsJsWhitespace(r[0]) && !IsJsWhitespace(r[|r| - 1])
  {
    var t := TrimStart(s);
    var r := TrimEnd(t);
    TrimStartDropsWhitespace(s);
    TrimEndDropsWhitespace(t);
    assert r == "" ==> s == s[..|s| - |t|] + t[|r|..];
    r
  }

  /** What trimming removes is whitespace at either end, and nothing else:
      the trimmed text is a piece of `s` between two runs of whitespace. */
  lemma TrimStripsEdges(s: string)
    ensures StripsEdges(s, Trim(s))
  {
    var t := TrimStart(s);
    var r := TrimEnd(t);
    TrimStartDropsWhitespace(s);
    TrimEndDropsWhitespace(t);
    var a := |s| - |t|;
    var b := a + |r|;
    assert r == s[a..b];
    assert s[b..] == t[|r|..];
  }

  /** Conversely, a piece of `s` between two runs of whitespace that neither
      starts nor ends with whitespace is the trimmed text. */
  lemma TrimUnique(s: string, a: int, b: int)
    requires 0 <= a < b <= |s| && AllWhitespace(s[..a]) && AllWhitespace(s[b..])
    requires !IsJsWhitespace(s[a]) && !IsJsWhitespace(s[b - 1])
    ensures Trim(s) == s[a..b]
  {
    TrimStartAfter(s, a);
    TrimEndOfPiece(s, a, b);
  }

  lemma TrimEndOfPiece(s: string, a: int, b: int)
    requires 0 <= a < b <= |s| && AllWhitespace(s[b..]) && !IsJsWhitespace(s[b - 1])
    ensures TrimEnd(s[a..]) == s[a..b]
  {
    var t := s[a..];
    assert t[b - a..] == s[b..];
    assert t[b - a - 1] == s[b - 1];
    TrimEndBefore(t, b - a);
    assert t[..b - a] == s[a..b];
  }

  lemma {:induction false} TrimStartAfter(s: string, a: int)
    requires 0 <= a < |s| && AllWhitespace(s[..a]) && !IsJsWhitespace(s[a])
    ensures TrimStart(s) == s[a..]
    decreases a
  {
    if a > 0 {
      assert IsJsWhitespace(s[..a][0]);
      assert s[1..][..a - 1] == s[1..a];
      TrimStartAfter(s[1..], a - 1);
      assert s[1..][a - 1..] == s[a..];
    }
  }

  lemma {:induction false} TrimEndBefore(t: string, b: int)
    requires 0 < b <= |t| && AllWhitespace(t[b..]) && !IsJsWhitespace(t[b - 1])
    ensures TrimEnd(t) == t[..b]
    decreases |t| - b
  {
    if b < |t| {
      assert IsJsWhitespace(t[b..][|t| - 1 - b]);
      var u := t[..|t| - 1];
      assert u[b..] == t[b..|t| - 1];
      TrimEndBefore(u, b);
      assert u[..b] == t[..b];
    }
  }

  /** Trimming twice is trimming once. */
  lemma TrimIdempotent(s: string)
    ensures Trim(Trim(s)) == Trim(s)
  {
    var r := Trim(s);
    TrimNoOp(r);
  }

  /** A string that neither starts nor ends with whitespace is its own trim. */
  lemma TrimNoOp(s: string)
    requires s == "" || (!IsJsWhitespace(s[0]) && !IsJsWhitespace(s[|s| - 1]))
    ensures Trim(s) == s
  {
  }

  /** JavaScript's `toLowerCase` on one character, folding only the ASCII
      capitals and the Latin-1 capitals U+00C0 to U+00DE (except the
      multiplication sign U+00D7). The input file is decoded as windows-1252,
      whose other capitals Š, Œ, Ž and Ÿ are left as they are. */
  function LowerChar(c: char): (r: char)
    ensures 'a' <= r <= 'z' <==> 'a' <= c <= 'z' || 'A' <= c <= 'Z'
    ensures IsDigit(r) <==> IsDigit(c)
  {
    if 'A' <= c <= 'Z' || ('\U{C0}' <= c <= '\U{DE}' && c != '\U{D7}') then
      (c as int + 32) as char
    else c
  }

  /** `s.toLowerCase()`, character by character. */
  function Lower(s: string): (r: string)
    ensures |r| == |s|
  {
    seq(|s|, i requires 0 <= i < |s| => LowerChar(s[i]))
  }

  /** `s.startsWith(p)`. */
  predicate StartsWith(s: string, p: string) {
    |p| <= |s| && s[..|p|] == p
  }

  /** `p` occurs in `s` at some position: how the code's `/p/.test(s)` reads. */
  predicate Contains(s: string, p: string)
    decreases |s|
  {
    StartsWith(s, p) || (s != "" && Contains(s[1..], p))
  }

  /** `s.replace(/[^...]/g, '')`: the characters of `s` that `keep` accepts, in order. */
  function Keep(s: string, keep: char -> bool): (r: string)
    ensures |r| <= |s|
    ensures forall i :: 0 <= i < |r| ==> keep(r[i])
    ensures r == "" <==> forall i :: 0 <= i < |s| ==> !keep(s[i])
  {
    if s == "" then ""
    else
      var rest := Keep(s[1..], keep);
      assert forall i :: 1 <= i < |s| ==> s[i] == s[1..][i - 1];
      if keep(s[0]) then [s[0]] + rest else rest
  }

  /** Filtering distributes over concatenation. */
  lemma {:induction false} KeepConcat(a: string, b: string, keep: char -> bool)
    ensures Keep(a + b, keep) == Keep(a, keep) + Keep(b, keep)
  {
    if a != "" {
      assert (a + b)[0] == a[0] && (a + b)[1..] == a[1..] + b;
      KeepConcat(a[1..], b, keep);
    } else {
      assert a + b == b;
    }
  }

  /** Filtering a string whose every character is kept changes nothing; so
      filtering is idempotent. */
  lemma {:induction false} KeepAll(s: string, keep: char -> bool)
    requires forall i :: 0 <= i < |s| ==> keep(s[i])
    ensures Keep(s, keep) == s
  {
    if s != "" {
      KeepAll(s[1..], keep);
    }
  }

  /** Number of occurrences of `c` in `s`. */
  function Count(s: string, c: char): nat {
    if s == "" then 0 else (if s[0] == c then 1 else 0) + Count(s[1..], c)
  }

  /** The inverse of `Split`: the pieces glued back with the separator. */
  function Join(parts: seq<string>, sep: char): string
    requires parts != []
  {
    if |parts| == 1 then parts[0] else parts[0] + [sep] + Join(parts[1..], sep)
  }

  /** `s.split(sep)` for a one-character separator: one more piece than there
      are separators, no piece contains the separator, and joining the pieces
      gives back `s`. */
  function Split(s: string, sep: char): (r: seq<string>)
    ensures |r| == Count(s, sep) + 1
    ensures forall i :: 0 <= i < |r| ==> sep !in r[i]
    ensures Join(r, sep) == s
  {
    if s == "" then [""]
    else
      var rest := Split(s[1..], sep);
      if s[0] == sep then [""] + rest
      else
        var r := [[s[0]] + rest[0]] + rest[1..];
        assert forall i :: 1 <= i < |r| ==> r[i] == rest[i];
        r
  }

  function DropTrailingCR(s: string): string {
    if s != "" && s[|s| - 1] == '\r' then s[..|s| - 1] else s
  }

  /** `text.split(/\r?\n/)`: the pieces between the '\n' characters, where a
      '\r' right before a '\n' belongs to the line break. Every piece but the
      last ended at a '\n', so only those lose a trailing '\r'. */
  function SplitLines(text: string): (r: seq<string>)
    ensures |r| == Count(text, '\n') + 1
    ensures forall i :: 0 <= i < |r| ==> '\n' !in r[i]
  {
    var pieces := Split(text, '\n');
    seq(|pieces|, i requires 0 <= i < |pieces| =>
      if i < |pieces| - 1 then DropTrailingCR(pieces[i]) else pieces[i])
  }

  /** Without carriage returns the line split is the plain split at '\n',
      and joining the lines with '\n' restores the text. */
  lemma SplitLinesWithoutCR(text: string)
    requires '\r' !in text
    ensures SplitLines(text) == Split(text, '\n')
    ensures Join(SplitLines(text), '\n') == text
  {
    var pieces := Split(text, '\n');
    forall i | 0 <= i < |pieces|
      ensures '\r' !in pieces[i]
    {
      JoinContains(pieces, '\n', i);
    }
  }

  /** Lines glued back with "\r\n" line breaks. */
  function CrLfJoin(lines: seq<string>): string
    requires lines != []
  {
    if |lines| == 1 then lines[0] else lines[0] + "\r\n" + CrLfJoin(lines[1..])
  }

  /** Splitting text written with "\r\n" line breaks gives back its lines,
      even lines that end in '\r' themselves: a break takes one '\r' only. */
  lemma SplitLinesCrLf(lines: seq<string>)
    requires lines != [] && forall i :: 0 <= i < |lines| ==> '\n' !in lines[i]
    ensures SplitLines(CrLfJoin(lines)) == lines
  {
    var text := CrLfJoin(lines);
    SplitCrLf(lines);
    var pieces := Split(text, '\n');
    var r := SplitLines(text);
    assert |r| == |pieces| == |lines|;
    forall i | 0 <= i < |lines|
      ensures r[i] == lines[i]
    {
      if i < |lines| - 1 {
        assert pieces[i] == lines[i] + "\r";
        DropCR(lines[i]);
      }
    }
  }

  lemma DropCR(s: string)
    ensures DropTrailingCR(s + "\r") == s
  {
    assert (s + "\r")[..|s|] == s;
  }

  /** The pieces of the split at '\n': every line but the last keeps the
      '\r' of its break. */
  function WithCR(lines: seq<string>): (r: seq<string>)
    ensures |r| == |lines|
  {
    seq(|lines|, i requires 0 <= i < |lines| => if i < |lines| - 1 then lines[i] + "\r" else lines[i])
  }

  lemma {:induction false} SplitCrLf(lines: seq<string>)
    requires lines != [] && forall i :: 0 <= i < |lines| ==> '\n' !in lines[i]
    ensures Split(CrLfJoin(lines), '\n') == WithCR(lines)
    decreases |lines|
  {
    if |lines| == 1 {
      SplitNoSep(lines[0], '\n');
    } else {
      var rest := lines[1..];
      assert forall i :: 0 <= i < |rest| ==> rest[i] == lines[i + 1];
      SplitCrLf(rest);
      var first := lines[0] + "\r";
      NoBreakWithCR(lines[0]);
      CrLfUnfold(lines[0], CrLfJoin(rest));
      SplitAfter(first, CrLfJoin(rest), '\n');
      WithCRCons(lines);
    }
  }

  lemma NoBreakWithCR(s: string)
    requires '\n' !in s
    ensures '\n' !in s + "\r"
  {
  }

  lemma CrLfUnfold(a: string, b: string)
    ensures a + "\r\n" + b == (a + "\r") + ['\n'] + b
  {
  }

  lemma WithCRCons(lines: seq<string>)
    requires |lines| > 1
    ensures WithCR(lines) == [lines[0] + "\r"] + WithCR(lines[1..])
  {
  }

  /** A text without the separator is one piece. */
  lemma {:induction false} SplitNoSep(s: string, sep: char)
    requires sep !in s
    ensures Split(s, sep) == [s]
    decreases |s|
  {
    if s != "" {
      SplitNoSep(s[1..], sep);
      assert [s[0]] + s[1..] == s;
    }
  }

  /** A piece without the separator, then the separator, splits off first. */
  lemma {:induction false} SplitAfter(a: string, b: string, sep: char)
    requires sep !in a
    ensures Split(a + [sep] + b, sep) == [a] + Split(b, sep)
    decreases |a|
  {
    var s := a + [sep] + b;
    if a == "" {
      assert s[1..] == b;
    } else {
      assert s[1..] == a[1..] + [sep] + b;
      SplitAfter(a[1..], b, sep);
      assert [a[0]] + a[1..] == a;
    }
  }

  /** Every character of a piece occurs in the joined string. */
  lemma {:induction false} JoinContains(parts: seq<string>, sep: char, i: nat)
    requires i < |parts|
    ensures forall c :: c in parts[i] ==> c in Join(parts, sep)
  {
    if |parts| > 1 {
      if i > 0 {
        JoinContains(parts[1..], sep, i - 1);
      }
    }
  }

  /** The maximal prefix of `s` made of decimal digits. */
  function LeadingDigits(s: string): (r: string)
    ensures forall i :: 0 <= i < |r| ==> IsDigit(r[i])
  {
    if s != "" && IsDigit(s[0]) then [s[0]] + LeadingDigits(s[1..]) else ""
  }

  /** The value of a string of decimal digits, most significant first. */
  function DigitsValue(ds: string): nat
    requires AllDigits(ds)
  {
    if ds == "" then 0
    else DigitsValue(ds[..|ds| - 1]) * 10 + DigitValue(ds[|ds| - 1])
  }

  function DigitValue(c: char): nat
    requires IsDigit(c)
  {
    c as int - '0' as int
  }

  /** `parseInt(s, 10)`: after leading whitespace, an optional sign, then the
      maximal run of digits; `None` is NaN (no digit at that point). Numbers
      are exact here: the loss of precision above 2^53 is not modelled. */
  function ParseInt(s: string): Option<int> {
    var t := TrimStart(s);
    if t != "" && t[0] == '-' then Negate(ParseDigits(t[1..]))
    else if t != "" && t[0] == '+' then ParseDigits(t[1..])
    else ParseDigits(t)
  }

  /** The value of the leading digits of `s`, or NaN when there are none. */
  function ParseDigits(s: string): Option<int> {
    var ds := LeadingDigits(s);
    if ds == "" then None else Some(DigitsValue(ds))
  }

  function Negate(n: Option<int>): Option<int> {
    match n
    case Some(v) => Some(-v)
    case None => None
  }

  /** `parseInt` reads exactly the leading digits. */
  lemma ParseIntOfDigits(s: string, ds: string, rest: string)
    requires ds != [] && AllDigits(ds)
    requires rest == "" || !IsDigit(rest[0])
    requires s == ds + rest
    ensures ParseInt(s) == Some(DigitsValue(ds))
  {
    LeadingDigitsPrefix(ds, rest);
    ParseIntUnsigned(s);
  }

  /** After a leading '-', `parseInt` reads the digits that follow, of value
      `v`, and negates them. */
  lemma ParseIntOfNegatedDigits(ds: string, rest: string, v: int)
    requires ds != [] && AllDigits(ds) && v == DigitsValue(ds)
    requires rest == "" || !IsDigit(rest[0])
    ensures ParseInt("-" + (ds + rest)) == Some(-v)
  {
    ParseDigitsPrefix(ds, rest);
    ParseIntMinusValue(ds + rest, v);
  }

  lemma ParseIntMinusValue(body: string, v: int)
    requires ParseDigits(body) == Some(v)
    ensures ParseInt("-" + body) == Some(-v)
  {
    ParseIntMinus(body);
  }

  lemma ParseDigitsPrefix(ds: string, rest: string)
    requires ds != [] && AllDigits(ds)
    requires rest == "" || !IsDigit(rest[0])
    ensures ParseDigits(ds + rest) == Some(DigitsValue(ds))
  {
    LeadingDigitsPrefix(ds, rest);
  }

  lemma ParseIntMinus(body: string)
    ensures ParseInt("-" + body) == Negate(ParseDigits(body))
  {
    assert ("-" + body)[1..] == body;
    ParseIntNegative("-" + body);
  }

  /** A string that starts with a digit is read by `ParseDigits` unchanged. */
  lemma ParseIntUnsigned(s: string)
    requires s != "" && IsDigit(s[0])
    ensures ParseInt(s) == ParseDigits(s)
  {
    TrimStartNoOp(s);
  }

  /** A string that starts with '-' is read as the negated digits after it. */
  lemma ParseIntNegative(s: string)
    requires s != "" && s[0] == '-'
    ensures ParseInt(s) == Negate(ParseDigits(s[1..]))
  {
    TrimStartNoOp(s);
  }

  /** `parseInt` fails (NaN) exactly when no digit follows the optional sign. */
  lemma ParseIntNaN(s: string)
    requires s == "" || !IsJsWhitespace(s[0])
    ensures ParseInt(s).None? <==>
      (var body := if s != "" && (s[0] == '-' || s[0] == '+') then s[1..] else s;
       body == "" || !IsDigit(body[0]))
  {
    TrimStartNoOp(s);
  }

  lemma TrimStartNoOp(s: string)
    requires s == "" || !IsJsWhitespace(s[0])
    ensures TrimStart(s) == s
  {
  }

  lemma {:induction false} LeadingDigitsPrefix(ds: string, rest: string)
    requires AllDigits(ds)
    requires rest == "" || !IsDigit(rest[0])
    ensures LeadingDigits(ds + rest) == ds
  {
    if ds != "" {
      assert (ds + rest)[1..] == ds[1..] + rest;
      LeadingDigitsPrefix(ds[1..], rest);
    }
  }

}
