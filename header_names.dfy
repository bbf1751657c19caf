/** The column-name canonicalisation of the layout generator: lower-case the
    name, replace every run of characters other than `a-z` and `0-9` by one
    underscore, and drop the underscores left at either end. */
module HeaderNames {
  import opened JsString

  predicate IsLowerAlnum(c: char) {
    'a' <= c <= 'z' || IsDigit(c)
  }

  /** A canonical column name: only `a-z`, `0-9` and `_`, no underscore at
      either end, and never two underscores in a row. */
  predicate IsNormalized(t: string) {
    NameChars(t) && NoDoubleUnderscore(t) && (t != "" ==> t[0] != '_' && t[|t| - 1] != '_')
  }

  predicate NameChars(t: string) {
    forall i :: 0 <= i < |t| ==> IsLowerAlnum(t[i]) || t[i] == '_'
  }

  predicate NoDoubleUnderscore(t: string) {
    forall i :: 0 <= i < |t| - 1 ==> !(t[i] == '_' && t[i + 1] == '_')
  }

  /** Both properties hold for every substring. */
  lemma NameSlice(t: string, lo: nat, hi: nat)
    requires lo <= hi <= |t| && NameChars(t) && NoDoubleUnderscore(t)
    ensures NameChars(t[lo..hi]) && NoDoubleUnderscore(t[lo..hi])
  {
    var u := t[lo..hi];
    assert forall i :: 0 <= i < |u| ==> u[i] == t[lo + i];
  }

  /** The suffix of `s` after its leading run of non-alphanumerics. */
  function DropRun(s: string): (r: string)
    ensures |r| <= |s| && r == s[|s| - |r|..]
    ensures r == "" || IsLowerAlnum(r[0])
  {
    if s != "" && !IsLowerAlnum(s[0]) then DropRun(s[1..]) else s
  }

  /** `s.replace(/[^a-z0-9]+/g, '_')`. */
  function CollapseRuns(s: string): (r: string)
    ensures r == "" <==> s == ""
    decreases |s|
  {
    if s == "" then ""
    else if IsLowerAlnum(s[0]) then [s[0]] + CollapseRuns(s[1..])
    else "_" + CollapseRuns(DropRun(s[1..]))
  }

  /** Replacing the runs leaves only `a-z`, `0-9` and single underscores, and
      starts with an underscore exactly when `s` starts with a separator. */
  lemma {:induction false} CollapseRunsShape(s: string)
    ensures NameChars(CollapseRuns(s)) && NoDoubleUnderscore(CollapseRuns(s))
    ensures s != "" ==> (CollapseRuns(s)[0] == '_' <==> !IsLowerAlnum(s[0]))
    decreases |s|
  {
    if s != "" {
      if IsLowerAlnum(s[0]) {
        CollapseRunsShape(s[1..]);
        PrefixAlnum(s[0], CollapseRuns(s[1..]));
      } else {
        var rest := DropRun(s[1..]);
        CollapseRunsShape(rest);
        PrefixUnderscore(CollapseRuns(rest));
      }
    }
  }

  lemma PrefixAlnum(c: char, t: string)
    requires IsLowerAlnum(c) && NameChars(t) && NoDoubleUnderscore(t)
    ensures NameChars([c] + t) && NoDoubleUnderscore([c] + t)
  {
    var r := [c] + t;
    assert forall i :: 1 <= i < |r| ==> r[i] == t[i - 1];
  }

  lemma PrefixUnderscore(t: string)
    requires NameChars(t) && NoDoubleUnderscore(t) && (t == "" || t[0] != '_')
    ensures NameChars("_" + t) && NoDoubleUnderscore("_" + t)
  {
    var r := "_" + t;
    assert forall i :: 1 <= i < |r| ==> r[i] == t[i - 1];
  }

  /** The suffix of `s` after its leading underscores. */
  function DropLeadingUnderscores(s: string): (r: string)
    ensures |r| <= |s| && r == s[|s| - |r|..]
    ensures r == "" || r[0] != '_'
  {
    if s != "" && s[0] == '_' then DropLeadingUnderscores(s[1..]) else s
  }

  /** The prefix of `s` before its trailing underscores. */
  function DropTrailingUnderscores(s: string): (r: string)
    ensures |r| <= |s| && r == s[..|r|]
    ensures r == "" || r[|r| - 1] != '_'
  {
    if s != "" && s[|s| - 1] == '_' then DropTrailingUnderscores(s[..|s| - 1]) else s
  }

  /** `.replace(/^_+|_+$/g, '')`. */
  function StripUnderscores(s: string): string {
    DropTrailingUnderscores(DropLeadingUnderscores(s))
  }

  /** normalizeHeader. */
  function NormalizeHeader(h: string): string {
    StripUnderscores(CollapseRuns(Lower(h)))
  }

  /** Every name normalizes to a canonical name. */
  lemma NormalizeHeaderNormalized(h: string)
    ensures IsNormalized(NormalizeHeader(h))
  {
    CollapseRunsShape(Lower(h));
    StripNormalizes(CollapseRuns(Lower(h)));
  }

  /** Stripping the end underscores of a name without a double underscore
      gives a canonical name. */
  lemma StripNormalizes(c: string)
    requires NameChars(c) && NoDoubleUnderscore(c)
    ensures IsNormalized(StripUnderscores(c))
  {
    var l := DropLeadingUnderscores(c);
    NameSlice(c, |c| - |l|, |c|);
    var t := DropTrailingUnderscores(l);
    NameSlice(l, 0, |t|);
    if t != "" {
      assert t[0] == l[0];
    }
  }

  /** A canonical name is its own normalization. */
  lemma NormalizedIsFixed(t: string)
    requires IsNormalized(t)
    ensures NormalizeHeader(t) == t
  {
    LowerOfNormalized(t);
    CollapseRunsOfNormalized(t);
  }

  /** normalizeHeader is idempotent. */
  lemma NormalizeHeaderIdempotent(h: string)
    ensures NormalizeHeader(NormalizeHeader(h)) == NormalizeHeader(h)
  {
    NormalizeHeaderNormalized(h);
    NormalizedIsFixed(NormalizeHeader(h));
  }

  lemma LowerOfNormalized(t: string)
    requires NameChars(t)
    ensures Lower(t) == t
  {
  }

  lemma {:induction false} CollapseRunsOfNormalized(t: string)
    requires NameChars(t) && NoDoubleUnderscore(t)
    requires t != "" ==> t[|t| - 1] != '_'
    ensures CollapseRuns(t) == t
    decreases |t|
  {
    if t != "" {
      var rest := t[1..];
      NameSlice(t, 1, |t|);
      assert rest != "" ==> rest[|rest| - 1] == t[|t| - 1];
      CollapseRunsOfNormalized(rest);
      if IsLowerAlnum(t[0]) {
        CollapseAlnum(t[0], rest);
        assert t == [t[0]] + rest;
      } else {
        assert t[0] == '_' && rest != "" && rest[0] == t[1];
        CollapseUnderscore(rest);
        assert t == "_" + rest;
      }
    }
  }

  /** One underscore before a letter or digit is kept as it is. */
  lemma CollapseUnderscore(rest: string)
    requires rest != "" && IsLowerAlnum(rest[0])
    ensures CollapseRuns("_" + rest) == "_" + CollapseRuns(rest)
  {
    CollapseSeparator('_', rest);
    assert DropRun(rest) == rest;
  }

  /** Normalization keeps the letters and digits of the lower-cased name, in
      order, and only them: it changes nothing but the separators. */
  lemma NormalizeHeaderKeepsAlnum(h: string)
    ensures Keep(NormalizeHeader(h), IsLowerAlnum) == Keep(Lower(h), IsLowerAlnum)
  {
    var c := CollapseRuns(Lower(h));
    CollapseRunsKeepsAlnum(Lower(h));
    StripKeepsAlnum(c);
  }

  lemma {:induction false} CollapseRunsKeepsAlnum(s: string)
    ensures Keep(CollapseRuns(s), IsLowerAlnum) == Keep(s, IsLowerAlnum)
    decreases |s|
  {
    if s != "" {
      if IsLowerAlnum(s[0]) {
        CollapseRunsKeepsAlnum(s[1..]);
        KeepConcat([s[0]], CollapseRuns(s[1..]), IsLowerAlnum);
      } else {
        var rest := DropRun(s[1..]);
        CollapseRunsKeepsAlnum(rest);
        DropRunKeepsAlnum(s[1..]);
        KeepConcat("_", CollapseRuns(rest), IsLowerAlnum);
      }
    }
  }

  lemma {:induction false} DropRunKeepsAlnum(s: string)
    ensures Keep(DropRun(s), IsLowerAlnum) == Keep(s, IsLowerAlnum)
  {
    if s != "" && !IsLowerAlnum(s[0]) {
      DropRunKeepsAlnum(s[1..]);
    }
  }

  lemma StripKeepsAlnum(s: string)
    ensures Keep(StripUnderscores(s), IsLowerAlnum) == Keep(s, IsLowerAlnum)
  {
    DropLeadingKeepsAlnum(s);
    DropTrailingKeepsAlnum(DropLeadingUnderscores(s));
  }

  lemma {:induction false} DropLeadingKeepsAlnum(s: string)
    ensures Keep(DropLeadingUnderscores(s), IsLowerAlnum) == Keep(s, IsLowerAlnum)
  {
    if s != "" && s[0] == '_' {
      DropLeadingKeepsAlnum(s[1..]);
    }
  }

  lemma {:induction false} DropTrailingKeepsAlnum(s: string)
    ensures Keep(DropTrailingUnderscores(s), IsLowerAlnum) == Keep(s, IsLowerAlnum)
  {
    if s != "" && s[|s| - 1] == '_' {
      var init := s[..|s| - 1];
      DropTrailingKeepsAlnum(init);
      assert s == init + "_";
      KeepConcat(init, "_", IsLowerAlnum);
    }
  }

  /** A name normalizes to the empty string exactly when it has no letter or
      digit once lower-cased. */
  lemma NormalizeHeaderEmpty(h: string)
    ensures NormalizeHeader(h) == "" <==> forall i :: 0 <= i < |h| ==> !IsLowerAlnum(Lower(h)[i])
  {
    NormalizeHeaderKeepsAlnum(h);
    NormalizeHeaderNormalized(h);
    var t := NormalizeHeader(h);
    if t != "" {
      assert IsLowerAlnum(t[0]);
    }
  }

  /** Worked example: an accented, punctuated column name. */
  lemma NormalizeHeaderExample()
    ensures NormalizeHeader("T\U{E9}rmino") == "t_rmino"
  {
    LowerExample();
    CollapseExample();
    SpellOut();
    StripNoOp("t_rmino");
  }

  lemma SpellOut()
    ensures ['t'] + ("_" + "rmino") == "t_rmino"
  {
  }

  lemma StripNoOp(t: string)
    requires t != "" && t[0] != '_' && t[|t| - 1] != '_'
    ensures StripUnderscores(t) == t
  {
  }

  lemma LowerExample()
    ensures Lower("T\U{E9}rmino") == "t\U{E9}rmino"
  {
    var s := "T\U{E9}rmino";
    assert LowerChar(s[0]) == 't';
    assert forall i :: 1 <= i < |s| ==> LowerChar(s[i]) == s[i];
  }

  lemma CollapseExample()
    ensures CollapseRuns("t\U{E9}rmino") == ['t'] + ("_" + "rmino")
  {
    var w := "rmino";
    var s := ['\U{E9}'] + w;
    assert "t\U{E9}rmino" == ['t'] + s;
    CollapseAlnum('t', s);
    CollapseSeparator('\U{E9}', w);
    CollapseWord();
  }

  lemma CollapseWord()
    ensures DropRun("rmino") == "rmino" && CollapseRuns("rmino") == "rmino"
  {
    var w := "rmino";
    assert IsLowerAlnum(w[0]);
    CollapseAlnum('r', "mino");
    CollapseAlnum('m', "ino");
    CollapseAlnum('i', "no");
    CollapseAlnum('n', "o");
    CollapseAlnum('o', "");
  }

  lemma CollapseAlnum(c: char, s: string)
    requires IsLowerAlnum(c)
    ensures CollapseRuns([c] + s) == [c] + CollapseRuns(s)
  {
    assert ([c] + s)[1..] == s;
  }

  lemma CollapseSeparator(c: char, s: string)
    requires !IsLowerAlnum(c)
    ensures CollapseRuns([c] + s) == "_" + CollapseRuns(DropRun(s))
  {
    assert ([c] + s)[1..] == s;
  }
}
