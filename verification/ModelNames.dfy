/** Model-name canonicalisation: normalizeModelName and splitFamilyAndVersion, for ASCII names. */
module ModelNames {

  import opened Common

  // ---------- Characters and library string functions ----------

  predicate IsLetter(c: char) { 'a' <= c <= 'z' || 'A' <= c <= 'Z' }

  predicate IsDigit(c: char) { '0' <= c <= '9' }

  predicate IsSeparator(c: char) { c == ':' || c == '_' || c == '.' }

  /** strings.ReplaceAll of one character by a hyphen. */
  function Hyphenated(s: string, c: char): (t: string)
    ensures |t| == |s| && forall i :: 0 <= i < |s| ==> t[i] == if s[i] == c then '-' else s[i]
  {
    seq(|s|, i requires 0 <= i < |s| => if s[i] == c then '-' else s[i])
  }

  predicate HasSuffix(s: string, suffix: string) {
    |suffix| <= |s| && s[|s| - |suffix|..] == suffix
  }

  function TrimPrefix(s: string, prefix: string): string {
    if prefix <= s then s[|prefix|..] else s
  }

  function TrimSuffix(s: string, suffix: string): string {
    if HasSuffix(s, suffix) then s[..|s| - |suffix|] else s
  }

  /** strings.ReplaceAll(s, "--", "-"): leftmost matches that do not overlap. */
  function ReplaceDouble(s: string): string {
    if |s| < 2 then s
    else if s[0] == '-' && s[1] == '-' then "-" + ReplaceDouble(s[2..])
    else [s[0]] + ReplaceDouble(s[1..])
  }

  predicate HasDouble(s: string) {
    exists i :: 0 <= i < |s| - 1 && s[i] == '-' && s[i + 1] == '-'
  }

  /** strings.Trim(s, "-") */
  function Trim(s: string): string {
    TrimRight(TrimLeft(s))
  }

  function TrimLeft(s: string): string {
    if s != "" && s[0] == '-' then TrimLeft(s[1..]) else s
  }

  function TrimRight(s: string): string {
    if s != "" && s[|s| - 1] == '-' then TrimRight(s[..|s| - 1]) else s
  }

  // ---------- The passes ----------

  const PREFIXES: seq<string> :=
    ["meta-llama/", "mistralai/", "qwen/", "deepseek-ai/", "google/", "microsoft/", "nvidia/"]

  const SUFFIXES: seq<string> := [":latest", "-instruct", "-chat", "-base", "-hf", "-gguf"]

  const ALIASES: map<string, string> := map[
    "phi-3-mini" := "phi-3-mini",
    "phi-3-medium" := "phi-3-medium",
    "phi-3-small" := "phi-3-small",
    "mistral-7b-v0-1" := "mistral-7b",
    "mistral-7b-v0-2" := "mistral-7b",
    "mistral-7b-v0-3" := "mistral-7b"]

  function Alias(s: string): string {
    if s in ALIASES then ALIASES[s] else s
  }

  function TrimPrefixes(s: string, prefixes: seq<string>): string {
    if prefixes == [] then s
    else TrimPrefix(TrimPrefixes(s, prefixes[..|prefixes| - 1]), prefixes[|prefixes| - 1])
  }

  function TrimSuffixes(s: string, suffixes: seq<string>): string {
    if suffixes == [] then s
    else TrimSuffix(TrimSuffixes(s, suffixes[..|suffixes| - 1]), suffixes[|suffixes| - 1])
  }

  /** The vendor prefixes, then the suffixes, each at most once and in list order. */
  function Strip(s: string): string {
    TrimSuffixes(TrimPrefixes(s, PREFIXES), SUFFIXES)
  }

  function Separated(s: string): string {
    Hyphenated(Hyphenated(Hyphenated(s, ':'), '_'), '.')
  }

  /** A hyphen between every letter and a digit right after it. */
  function SplitDigits(s: string): string {
    if |s| < 2 then s
    else (if IsLetter(s[0]) && IsDigit(s[1]) then [s[0], '-'] else [s[0]]) + SplitDigits(s[1..])
  }

  /** Every run of hyphens shrunk to one hyphen. */
  function Squeeze(s: string): string {
    if |s| < 2 then s
    else if s[0] == '-' && s[1] == '-' then Squeeze(s[1..])
    else [s[0]] + Squeeze(s[1..])
  }

  /** The passes from separator replacement on. */
  function Canon(s: string): string {
    Trim(Alias(Squeeze(SplitDigits(Separated(s)))))
  }

  function Normal(s: string): string {
    Canon(Strip(Lower(s)))
  }

  // ---------- The code ----------

  method InsertHyphenBetweenLettersAndDigits(s: string) returns (r: string)
    ensures r == SplitDigits(s)
  {
    if |s| < 2 {
      return s;
    }
    r := "";
    for i := 0 to |s|
      invariant SplitDigits(s) == r + SplitDigits(s[i..])
    {
      SplitDigitsStep(r, s, i);
      r := r + [s[i]];
      if i < |s| - 1 {
        var curr := s[i];
        var next := s[i + 1];
        if IsLetter(curr) && IsDigit(next) {
          r := r + ['-'];
        }
      }
    }
  }

  /** What one turn of the loop appends. */
  lemma SplitDigitsStep(r: string, s: string, i: nat)
    requires i < |s|
    ensures r + SplitDigits(s[i..]) ==
      (if i < |s| - 1 && IsLetter(s[i]) && IsDigit(s[i + 1]) then r + [s[i]] + ['-'] else r + [s[i]])
        + SplitDigits(s[i + 1..])
  {
    assert s[i..][1..] == s[i + 1..];
    if i < |s| - 1 && IsLetter(s[i]) && IsDigit(s[i + 1]) {
      assert [s[i], '-'] == [s[i]] + ['-'];
      ConcatAssoc(r, [s[i], '-'], SplitDigits(s[i + 1..]));
      ConcatAssoc(r, [s[i]], ['-']);
    } else if i < |s| - 1 {
      ConcatAssoc(r, [s[i]], SplitDigits(s[i + 1..]));
    } else {
      assert s[i..] == [s[i]] && s[i + 1..] == "";
    }
  }

  method NormalizeModelName(s: string) returns (name: string)
    ensures name == Normal(s)
  {
    name := Lower(s);
    for i := 0 to |PREFIXES|
      invariant name == TrimPrefixes(Lower(s), PREFIXES[..i])
    {
      name := TrimPrefix(name, PREFIXES[i]);
      assert PREFIXES[..i + 1][..i] == PREFIXES[..i];
    }
    assert PREFIXES[..|PREFIXES|] == PREFIXES;
    ghost var unprefixed := name;
    for i := 0 to |SUFFIXES|
      invariant name == TrimSuffixes(unprefixed, SUFFIXES[..i])
    {
      name := TrimSuffix(name, SUFFIXES[i]);
      assert SUFFIXES[..i + 1][..i] == SUFFIXES[..i];
    }
    assert SUFFIXES[..|SUFFIXES|] == SUFFIXES;
    name := Hyphenated(name, ':');
    name := Hyphenated(name, '_');
    name := Hyphenated(name, '.');
    name := InsertHyphenBetweenLettersAndDigits(name);
    name := RemoveDoubleHyphens(name);
    if name in ALIASES {
      name := ALIASES[name];
    }
    name := Trim(name);
  }

  /** The loop that replaces "--" until none is left. */
  method RemoveDoubleHyphens(s: string) returns (name: string)
    ensures name == Squeeze(s)
  {
    name := s;
    while HasDouble(name)
      invariant Squeeze(name) == Squeeze(s)
      decreases |name|
    {
      SqueezeAfterReplace(name);
      ReplaceShrinks(name);
      name := ReplaceDouble(name);
    }
    SqueezeFixes(name);
  }

  lemma {:induction false} SqueezeAfterReplace(s: string)
    ensures Squeeze(ReplaceDouble(s)) == Squeeze(s)
    ensures |s| > 0 ==> |ReplaceDouble(s)| > 0 && ReplaceDouble(s)[0] == s[0]
    decreases |s|
  {
    if |s| >= 2 {
      if s[0] == '-' && s[1] == '-' {
        SqueezeAfterReplace(s[2..]);
        assert ReplaceDouble(s)[1..] == ReplaceDouble(s[2..]);
        assert s[1..][1..] == s[2..];
      } else {
        SqueezeAfterReplace(s[1..]);
        assert ReplaceDouble(s)[1..] == ReplaceDouble(s[1..]);
      }
    }
  }

  lemma {:induction false} ReplaceShrinks(s: string)
    ensures |ReplaceDouble(s)| <= |s|
    ensures HasDouble(s) ==> |ReplaceDouble(s)| < |s|
    decreases |s|
  {
    if |s| >= 2 {
      if s[0] == '-' && s[1] == '-' {
        ReplaceShrinks(s[2..]);
      } else {
        ReplaceShrinks(s[1..]);
        if i :| 0 <= i < |s| - 1 && s[i] == '-' && s[i + 1] == '-' {
          assert s[1..][i - 1] == '-' && s[1..][i] == '-';
        }
      }
    }
  }

  /** Squeezing leaves a name alone exactly when it has no double hyphen. */
  lemma {:induction false} SqueezeFixes(s: string)
    ensures |Squeeze(s)| <= |s|
    ensures Squeeze(s) == s <==> !HasDouble(s)
    decreases |s|
  {
    if |s| >= 2 {
      SqueezeFixes(s[1..]);
      if s[0] == '-' && s[1] == '-' {
        assert HasDouble(s);
      } else {
        assert forall i :: 0 <= i < |s| - 1 ==> s[1..][i] == s[i + 1];
        if HasDouble(s[1..]) {
          var i :| 0 <= i < |s| - 2 && s[1..][i] == '-' && s[1..][i + 1] == '-';
          assert s[i + 1] == '-' && s[i + 2] == '-';
        }
        if HasDouble(s) {
          var i :| 0 <= i < |s| - 1 && s[i] == '-' && s[i + 1] == '-';
          assert s[1..][i - 1] == '-' && s[1..][i] == '-';
        }
      }
    }
  }

  /** Two hyphens are worth one, wherever they stand. */
  lemma {:induction false} SqueezeMerges(a: string, b: string)
    ensures Squeeze(a + "--" + b) == Squeeze(a + "-" + b)
    decreases |a|
  {
    var two, one := a + "--" + b, a + "-" + b;
    if a == "" {
      assert two[1..] == one;
    } else {
      SqueezeMerges(a[1..], b);
      assert two[1..] == a[1..] + "--" + b && one[1..] == a[1..] + "-" + b;
      assert two[1] == one[1];
    }
  }

  /** What comes between two characters. */
  function Gap(l: char, d: char): string {
    if ('a' <= l <= 'z' || 'A' <= l <= 'Z') && '0' <= d <= '9' then "-" else ""
  }

  lemma SplitDigitsCons(c: char, t: string)
    requires t != ""
    ensures SplitDigits([c] + t) == [c] + Gap(c, t[0]) + SplitDigits(t)
  {
    assert ([c] + t)[1..] == t;
    assert [c] + "-" == [c, '-'];
  }

  /** Where two pieces meet there is a hyphen more exactly between a letter and a digit. */
  lemma {:induction false} SplitDigitsConcat(a: string, b: string)
    requires a != "" && b != ""
    ensures SplitDigits(a + b) == SplitDigits(a) + Gap(a[|a| - 1], b[0]) + SplitDigits(b)
    decreases |a|
  {
    if |a| == 1 {
      SplitDigitsCons(a[0], b);
      assert a == [a[0]];
    } else {
      var t := a[1..];
      SplitDigitsConcat(t, b);
      assert a == [a[0]] + t && a + b == [a[0]] + (t + b);
      SplitDigitsCons(a[0], t);
      SplitDigitsCons(a[0], t + b);
      hide SplitDigits, Gap;
      ConcatAssoc([a[0]] + Gap(a[0], t[0]), SplitDigits(t) + Gap(t[|t| - 1], b[0]), SplitDigits(b));
      ConcatAssoc([a[0]] + Gap(a[0], t[0]), SplitDigits(t), Gap(t[|t| - 1], b[0]));
    }
  }

  // ---------- What a normalised name looks like ----------

  predicate NoUpper(s: string) {
    forall i :: 0 <= i < |s| ==> !IsUpper(s[i])
  }

  predicate NoSeparator(s: string) {
    forall i :: 0 <= i < |s| ==> !IsSeparator(s[i])
  }

  /** No letter directly followed by a digit. */
  predicate DigitsApart(s: string) {
    forall i :: 0 <= i < |s| - 1 ==> !(IsLetter(s[i]) && IsDigit(s[i + 1]))
  }

  predicate NoEdge(s: string) {
    s != "" ==> s[0] != '-' && s[|s| - 1] != '-'
  }

  predicate Clean(s: string) {
    NoSeparator(s) && DigitsApart(s) && !HasDouble(s) && NoEdge(s)
  }

  lemma {:induction false} SplitDigitsApart(s: string)
    ensures DigitsApart(SplitDigits(s)) && |SplitDigits(s)| >= |s|
    ensures |s| > 0 ==> SplitDigits(s)[0] == s[0]
    ensures DigitsApart(s) ==> SplitDigits(s) == s
    decreases |s|
  {
    if |s| >= 2 {
      SplitDigitsApart(s[1..]);
      assert DigitsApart(s) ==> DigitsApart(s[1..]) by {
        assert forall i :: 0 <= i < |s| - 1 ==> s[1..][i] == s[i + 1];
      }
      var t := SplitDigits(s[1..]);
      var apart := IsLetter(s[0]) && IsDigit(s[1]);
      var whole := if apart then [s[0], '-'] + t else [s[0]] + t;
      forall i | 0 <= i < |whole| - 1 ensures !(IsLetter(whole[i]) && IsDigit(whole[i + 1])) {
        var k := if apart then i - 2 else i - 1;
        assert k >= 0 ==> whole[i] == t[k] && whole[i + 1] == t[k + 1];
        assert k == -1 ==> whole[i + 1] == t[0];
      }
    }
  }

  lemma {:induction false} SplitDigitsChars(s: string)
    ensures forall c :: c in SplitDigits(s) ==> c in s || c == '-'
    decreases |s|
  {
    if |s| >= 2 {
      SplitDigitsChars(s[1..]);
      assert forall c :: c in s[1..] ==> c in s;
    }
  }

  lemma {:induction false} SqueezeKeeps(s: string)
    ensures !HasDouble(Squeeze(s))
    ensures |s| > 0 ==> |Squeeze(s)| > 0 && Squeeze(s)[0] == s[0]
    ensures forall i :: 0 <= i < |Squeeze(s)| ==> Squeeze(s)[i] in s
    ensures DigitsApart(s) ==> DigitsApart(Squeeze(s))
    decreases |s|
  {
    if |s| >= 2 {
      SqueezeKeeps(s[1..]);
      assert DigitsApart(s) ==> DigitsApart(s[1..]) by {
        assert forall i :: 0 <= i < |s| - 1 ==> s[1..][i] == s[i + 1];
      }
      assert forall c :: c in s[1..] ==> c in s;
      var t := Squeeze(s[1..]);
      assert !HasDouble(t);
      if !(s[0] == '-' && s[1] == '-') {
        forall i | 0 <= i < |t| ensures !(([s[0]] + t)[i] == '-' && ([s[0]] + t)[i + 1] == '-') {
          assert t[0] == s[1];
          assert i > 0 ==> ([s[0]] + t)[i] == t[i - 1];
        }
      }
    }
  }

  /** Trimming cuts at both ends and leaves no hyphen there. */
  lemma {:induction false} TrimIsSlice(s: string) returns (a: nat, b: nat)
    ensures a <= b <= |s| && Trim(s) == s[a..b] && NoEdge(Trim(s))
    ensures NoEdge(s) ==> Trim(s) == s
    ensures !NoEdge(s) ==> |Trim(s)| < |s|
  {
    a := TrimLeftIsSlice(s);
    b := TrimRightIsSlice(TrimLeft(s));
    b := a + b;
  }

  lemma {:induction false} TrimLeftIsSlice(s: string) returns (a: nat)
    ensures a <= |s| && TrimLeft(s) == s[a..]
    ensures TrimLeft(s) != "" ==> TrimLeft(s)[0] != '-'
    ensures s != "" && s[0] == '-' ==> a > 0
    ensures s == "" || s[0] != '-' ==> a == 0
    decreases |s|
  {
    if s != "" && s[0] == '-' {
      a := TrimLeftIsSlice(s[1..]);
      a := a + 1;
    } else {
      a := 0;
    }
  }

  lemma {:induction false} TrimRightIsSlice(s: string) returns (b: nat)
    ensures b <= |s| && TrimRight(s) == s[..b]
    ensures TrimRight(s) != "" ==> TrimRight(s)[b - 1] != '-'
    ensures s != "" && s[|s| - 1] == '-' ==> b < |s|
    ensures s == "" || s[|s| - 1] != '-' ==> b == |s|
    decreases |s|
  {
    if s != "" && s[|s| - 1] == '-' {
      b := TrimRightIsSlice(s[..|s| - 1]);
    } else {
      b := |s|;
    }
  }

  lemma SliceKeeps(s: string, a: nat, b: nat)
    requires a <= b <= |s|
    ensures NoUpper(s) ==> NoUpper(s[a..b])
    ensures NoSeparator(s) ==> NoSeparator(s[a..b])
    ensures DigitsApart(s) ==> DigitsApart(s[a..b])
    ensures !HasDouble(s) ==> !HasDouble(s[a..b])
  {
    assert forall i :: 0 <= i < b - a ==> s[a..b][i] == s[a + i];
    if HasDouble(s[a..b]) {
      var i :| 0 <= i < b - a - 1 && s[a..b][i] == '-' && s[a..b][i + 1] == '-';
      assert s[a + i] == '-' && s[a + i + 1] == '-';
    }
  }

  /** The alias table never changes a name that reaches it: its only entries that are not
      identities have a letter directly followed by a digit. */
  lemma AliasIsIdentity(s: string)
    requires DigitsApart(s)
    ensures Alias(s) == s
  {
    if |s| > 12 {
      assert !(IsLetter(s[11]) && IsDigit(s[12]));
    }
  }

  lemma SeparatedKeeps(s: string)
    ensures NoSeparator(Separated(s))
    ensures NoUpper(s) ==> NoUpper(Separated(s))
  {
  }

  /** Whatever the input, the passes yield a clean name and introduce no upper case. */
  lemma CanonIsClean(s: string)
    ensures Clean(Canon(s))
    ensures NoUpper(s) ==> NoUpper(Canon(s))
  {
    hide SplitDigits, Squeeze, Alias, HasDouble, Separated;
    var separated := Separated(s);
    SeparatedKeeps(s);
    var split := SplitDigits(separated);
    SplitDigitsApart(separated);
    SplitDigitsChars(separated);
    var squeezed := Squeeze(split);
    SqueezeKeeps(split);
    AliasIsIdentity(squeezed);
    var a, b := TrimIsSlice(squeezed);
    SliceKeeps(squeezed, a, b);
  }

  /** The clean names are exactly the fixed points of the passes. */
  lemma CanonFixesExactlyClean(s: string)
    ensures Canon(s) == s <==> Clean(s)
  {
    CanonIsClean(s);
    if Clean(s) {
      assert Separated(s) == s;
      SplitDigitsApart(s);
      SqueezeFixes(s);
      AliasIsIdentity(s);
      var _, _ := TrimIsSlice(s);
    }
  }

  lemma CanonIsIdempotent(s: string)
    ensures Canon(Canon(s)) == Canon(s)
  {
    CanonIsClean(s);
    CanonFixesExactlyClean(Canon(s));
  }

  /** The passes lengthen a name only by putting hyphens before digits. */
  lemma CanonShrinks(s: string)
    requires NoSeparator(s) && DigitsApart(s)
    ensures |Canon(s)| <= |s|
  {
    assert Separated(s) == s;
    SplitDigitsApart(s);
    SqueezeFixes(s);
    SqueezeKeeps(s);
    AliasIsIdentity(Squeeze(s));
    var _, _ := TrimIsSlice(Squeeze(s));
  }

  predicate HasAffix(s: string) {
    (exists i :: 0 <= i < |PREFIXES| && PREFIXES[i] <= s) || (exists i :: 0 <= i < |SUFFIXES| && HasSuffix(s, SUFFIXES[i]))
  }

  lemma {:induction false} TrimPrefixesIsSlice(s: string, prefixes: seq<string>) returns (a: nat)
    requires forall i :: 0 <= i < |prefixes| ==> prefixes[i] != ""
    ensures a <= |s| && TrimPrefixes(s, prefixes) == s[a..]
    ensures a == 0 <==> forall i :: 0 <= i < |prefixes| ==> !(prefixes[i] <= s)
    decreases |prefixes|
  {
    a := 0;
    if prefixes != [] {
      var last := |prefixes| - 1;
      a := TrimPrefixesIsSlice(s, prefixes[..last]);
      assert forall i :: 0 <= i < last ==> prefixes[..last][i] == prefixes[i];
      if a == 0 {
        assert s[a..] == s;
      }
      a := a + if prefixes[last] <= s[a..] then |prefixes[last]| else 0;
    }
  }

  lemma {:induction false} TrimSuffixesIsSlice(s: string, suffixes: seq<string>) returns (b: nat)
    requires forall i :: 0 <= i < |suffixes| ==> suffixes[i] != ""
    ensures b <= |s| && TrimSuffixes(s, suffixes) == s[..b]
    ensures b == |s| <==> forall i :: 0 <= i < |suffixes| ==> !HasSuffix(s, suffixes[i])
    decreases |suffixes|
  {
    b := |s|;
    if suffixes != [] {
      var last := |suffixes| - 1;
      b := TrimSuffixesIsSlice(s, suffixes[..last]);
      assert forall i :: 0 <= i < last ==> suffixes[..last][i] == suffixes[i];
      if b == |s| {
        assert s[..b] == s;
      }
      b := b - if HasSuffix(s[..b], suffixes[last]) then |suffixes[last]| else 0;
    }
  }

  /** Stripping leaves a slice, and the whole name exactly when it has no listed affix. */
  lemma StripIsSlice(s: string) returns (a: nat, b: nat)
    ensures a <= b <= |s| && Strip(s) == s[a..b]
    ensures Strip(s) == s <==> !HasAffix(s)
  {
    a := TrimPrefixesIsSlice(s, PREFIXES);
    var t := TrimPrefixes(s, PREFIXES);
    b := TrimSuffixesIsSlice(t, SUFFIXES);
    assert s[a..][..b] == s[a..a + b];
    if a == 0 {
      assert t == s;
    }
    b := a + b;
  }

  // ---------- Which affixes are stripped ----------

  lemma AffixesAre()
    ensures forall v: string :: v in PREFIXES <==>
      || v == "meta-llama/" || v == "mistralai/" || v == "qwen/" || v == "deepseek-ai/" || v == "google/"
      || v == "microsoft/" || v == "nvidia/"
    ensures forall w: string :: w in SUFFIXES <==>
      w == ":latest" || w == "-instruct" || w == "-chat" || w == "-base" || w == "-hf" || w == "-gguf"
  {
  }

  predicate SlashAtEnd(v: string) {
    v != "" && v[|v| - 1] == '/' && forall i :: 0 <= i < |v| - 1 ==> v[i] != '/'
  }

  predicate IsMark(c: char) { c == ':' || c == '-' }

  predicate MarkAtStart(w: string) {
    w != "" && IsMark(w[0]) && forall i :: 0 < i < |w| ==> !IsMark(w[i])
  }

  lemma AffixShapes()
    ensures forall v :: v in PREFIXES ==> SlashAtEnd(v)
    ensures forall w :: w in SUFFIXES ==> MarkAtStart(w)
  {
  }

  lemma SamePrefix(p: string, v: string, t: string)
    requires SlashAtEnd(p) && SlashAtEnd(v) && p <= v + t
    ensures p == v
  {
    var s := v + t;
    assert forall i :: 0 <= i < |p| ==> s[i] == p[i];
    assert s[|v| - 1] == s[|p| - 1] == '/';
  }

  lemma {:induction false} TrimsOnePrefix(v: string, t: string, prefixes: seq<string>)
    requires SlashAtEnd(v) && forall p :: p in prefixes ==> SlashAtEnd(p) && !(p <= t)
    ensures TrimPrefixes(v + t, prefixes) == if v in prefixes then t else v + t
    decreases |prefixes|
  {
    if prefixes != [] {
      var before, last := prefixes[..|prefixes| - 1], prefixes[|prefixes| - 1];
      assert last in prefixes && forall p :: p in before ==> p in prefixes;
      assert forall p :: p in prefixes ==> p in before || p == last;
      TrimsOnePrefix(v, t, before);
      if last <= v + t {
        SamePrefix(last, v, t);
      }
      hide TrimPrefixes, SlashAtEnd;
      TrimPrefixesLast(v + t, prefixes);
      assert last == v ==> (v + t)[|v|..] == t;
    }
  }

  lemma TrimPrefixesLast(s: string, prefixes: seq<string>)
    requires prefixes != []
    ensures TrimPrefixes(s, prefixes) ==
      TrimPrefix(TrimPrefixes(s, prefixes[..|prefixes| - 1]), prefixes[|prefixes| - 1])
  {
  }

  lemma SameSuffix(x: string, w: string, t: string)
    requires MarkAtStart(x) && MarkAtStart(w) && HasSuffix(t + w, x)
    ensures x == w
  {
    var s := t + w;
    assert forall i :: 0 <= i < |x| ==> s[|s| - |x| + i] == x[i];
    assert forall i :: 0 <= i < |w| ==> s[|s| - |w| + i] == w[i];
    assert IsMark(s[|s| - |x|]) && IsMark(s[|s| - |w|]);
    assert forall k :: |s| - |x| < k < |s| ==> s[k] == x[k - (|s| - |x|)];
    assert forall k :: |s| - |w| < k < |s| ==> s[k] == w[k - (|s| - |w|)];
  }

  lemma {:induction false} TrimsOneSuffix(t: string, w: string, suffixes: seq<string>)
    requires MarkAtStart(w) && forall x :: x in suffixes ==> MarkAtStart(x) && !HasSuffix(t, x)
    ensures TrimSuffixes(t + w, suffixes) == if w in suffixes then t else t + w
    decreases |suffixes|
  {
    if suffixes != [] {
      var before, last := suffixes[..|suffixes| - 1], suffixes[|suffixes| - 1];
      assert last in suffixes && forall x :: x in before ==> x in suffixes;
      assert forall x :: x in suffixes ==> x in before || x == last;
      TrimsOneSuffix(t, w, before);
      if HasSuffix(t + w, last) {
        SameSuffix(last, w, t);
      }
      assert last == w ==> (t + w)[..|t|] == t && (t + w)[|t|..] == w;
    }
  }

  /** A listed vendor prefix or none, before a name that has no affix, and a listed suffix or none
      after it: exactly these are stripped. */
  lemma StripsAffixes(v: string, rest: string, w: string)
    requires (v in PREFIXES || v == "") && (w in SUFFIXES || w == "") && !HasAffix(rest)
    ensures Strip(v + rest + w) == rest
  {
    AffixShapes();
    NoPrefixOf(rest, w);
    var t := rest + w;
    ConcatAssoc(v, rest, w);
    assert TrimPrefixes(v + t, PREFIXES) == t by {
      hide TrimPrefixes;
      if v == "" {
        assert v + t == t;
        var a := TrimPrefixesIsSlice(t, PREFIXES);
        assert forall i :: 0 <= i < |PREFIXES| ==> PREFIXES[i] in PREFIXES;
        assert t[0..] == t;
      } else {
        TrimsOnePrefix(v, t, PREFIXES);
      }
    }
    assert TrimSuffixes(t, SUFFIXES) == rest by {
      hide TrimSuffixes;
      if w == "" {
        assert t == rest;
        var b := TrimSuffixesIsSlice(t, SUFFIXES);
        assert rest[..|rest|] == rest;
      } else {
        NoSuffixOf(rest);
        TrimsOneSuffix(rest, w, SUFFIXES);
      }
    }
  }

  lemma NoSuffixOf(rest: string)
    requires !HasAffix(rest)
    ensures forall x :: x in SUFFIXES ==> !HasSuffix(rest, x)
  {
  }

  /** A suffix has no slash, so it completes no vendor prefix. */
  lemma NoPrefixOf(rest: string, w: string)
    requires (w in SUFFIXES || w == "") && !HasAffix(rest)
    ensures forall v :: v in PREFIXES ==> !(v <= rest + w)
  {
    AffixShapes();
    SuffixesHaveNoSlash();
    forall v | v in PREFIXES
      ensures !(v <= rest + w)
    {
      if |v| <= |rest| {
        assert (rest + w)[..|v|] == rest[..|v|];
      } else if |v| <= |rest + w| {
        assert (rest + w)[|v| - 1] == w[|v| - 1 - |rest|] != '/';
      }
    }
  }

  lemma SuffixesHaveNoSlash()
    ensures forall w, i :: w in SUFFIXES && 0 <= i < |w| ==> w[i] != '/'
  {
  }

  /** The output of normalisation: no upper case, no separator, no letter directly followed by a
      digit, no double hyphen, no hyphen at an edge. */
  lemma NormalIsClean(s: string)
    ensures Clean(Normal(s)) && NoUpper(Normal(s))
  {
    var a, b := StripIsSlice(Lower(s));
    SliceKeeps(Lower(s), a, b);
    CanonIsClean(Strip(Lower(s)));
  }

  /** The same character by character. */
  lemma CleanIs(t: string)
    ensures Clean(t) && NoUpper(t) <==>
      && (forall i :: 0 <= i < |t| ==> t[i] != ':' && t[i] != '_' && t[i] != '.' && !('A' <= t[i] <= 'Z'))
      && (forall i, j :: 0 <= i && j == i + 1 < |t| ==> !(t[i] == '-' && t[j] == '-'))
      && (forall i, j :: 0 <= i && j == i + 1 < |t| ==> !('a' <= t[i] <= 'z' && '0' <= t[j] <= '9'))
      && (t == "" || (t[0] != '-' && t[|t| - 1] != '-'))
  {
  }

  lemma LowerOfLower(t: string)
    requires NoUpper(t)
    ensures Lower(t) == t
  {
  }

  /** The names that normalisation leaves alone are exactly the clean lower-case names without a
      listed vendor prefix or suffix. */
  lemma NormalFixesExactly(t: string)
    ensures Normal(t) == t <==> Clean(t) && NoUpper(t) && !HasAffix(t)
  {
    NormalIsClean(t);
    if Clean(t) && NoUpper(t) {
      LowerOfLower(t);
      var a, b := StripIsSlice(t);
      hide Normal, Canon, HasAffix, Strip;
      if HasAffix(t) {
        NormalShortens(t, a, b);
      } else {
        CanonFixesExactlyClean(t);
        NormalOf(t);
      }
    }
  }

  lemma NormalOf(t: string)
    requires Lower(t) == t
    ensures Normal(t) == Canon(Strip(t))
  {
  }

  lemma NormalShortens(t: string, a: nat, b: nat)
    requires Clean(t) && Lower(t) == t && a <= b <= |t| && Strip(t) == t[a..b] && Strip(t) != t
    ensures |Normal(t)| < |t|
  {
    NormalOf(t);
    SliceKeeps(t, a, b);
    hide Normal, Canon, Strip;
    CanonShrinks(Strip(t));
    assert t[0..|t|] == t;
  }

  /** So normalising twice changes the name if and only if the normalised name still carries a
      listed prefix or suffix. */
  lemma NormalTwiceIff(s: string)
    ensures Normal(Normal(s)) == Normal(s) <==> !HasAffix(Normal(s))
  {
    NormalIsClean(s);
    NormalFixesExactly(Normal(s));
  }

  /** A concrete name on which normalisation is not idempotent: of two stacked suffixes only the
      one later in the list is stripped. */
  lemma NormalIsNotIdempotent()
    ensures Normal("x-hf-gguf") == "x-hf"
    ensures Normal("x-hf") != "x-hf"
  {
    hide Canon, Strip;
    StripExample();
    assert Clean("x-hf");
    CanonFixesExactlyClean("x-hf");
    assert HasSuffix("x-hf", SUFFIXES[4]);
    NormalTwiceIff("x-hf-gguf");
  }

  lemma StripExample()
    ensures Strip(Lower("x-hf-gguf")) == "x-hf"
  {
    ExampleIsPlain();
    SuffixesOfExample();
    hide Lower, TrimPrefixes, TrimSuffixes;
    NoSlashNoPrefix("x-hf-gguf");
  }

  lemma ExampleIsPlain()
    ensures Lower("x-hf-gguf") == "x-hf-gguf" && '/' !in "x-hf-gguf"
  {
  }

  lemma NoSlashNoPrefix(s: string)
    requires '/' !in s
    ensures TrimPrefixes(s, PREFIXES) == s
  {
    AffixShapes();
    hide TrimPrefixes;
    var a := TrimPrefixesIsSlice(s, PREFIXES);
    forall i | 0 <= i < |PREFIXES|
      ensures !(PREFIXES[i] <= s)
    {
      var v := PREFIXES[i];
      assert v in PREFIXES && v[|v| - 1] == '/';
    }
    assert s[0..] == s;
  }

  lemma SuffixesOfExample()
    ensures TrimSuffixes("x-hf-gguf", SUFFIXES) == "x-hf"
  {
    var s := "x-hf-gguf";
    var _ := TrimSuffixesIsSlice(s, SUFFIXES[..5]);
    assert forall i :: 0 <= i < 5 ==> SUFFIXES[i][|SUFFIXES[i]| - 1] != 'f' || SUFFIXES[i] == "-hf";
    assert s[|s| - 3..] == "guf";
    assert TrimSuffixes(s, SUFFIXES[..5]) == s;
    assert s[|s| - 5..] == SUFFIXES[5] && s[..|s| - 5] == "x-hf";
  }

  // ---------- What a normalised name keeps ----------

  /** The name without hyphens and separators. */
  function Core(s: string): string {
    if s == "" then ""
    else CoreChar(s[0]) + Core(s[1..])
  }

  function CoreChar(c: char): string {
    if c == '-' || IsSeparator(c) then "" else [c]
  }

  lemma {:induction false} CoreConcat(s: string, t: string)
    ensures Core(s + t) == Core(s) + Core(t)
  {
    if s == "" {
      assert s + t == t;
    } else {
      CoreConcat(s[1..], t);
      assert (s + t)[1..] == s[1..] + t;
      ConcatAssoc(CoreChar(s[0]), Core(s[1..]), Core(t));
    }
  }

  lemma {:induction false} CoreOfHyphenated(s: string, c: char)
    requires IsSeparator(c)
    ensures Core(Hyphenated(s, c)) == Core(s)
  {
    if s != "" {
      CoreOfHyphenated(s[1..], c);
      assert Hyphenated(s, c)[1..] == Hyphenated(s[1..], c);
    }
  }

  lemma {:induction false} CoreOfSplit(s: string)
    ensures Core(SplitDigits(s)) == Core(s)
    decreases |s|
  {
    if |s| >= 2 {
      CoreOfSplit(s[1..]);
      var head := if IsLetter(s[0]) && IsDigit(s[1]) then [s[0], '-'] else [s[0]];
      CoreConcat(head, SplitDigits(s[1..]));
      CoreConcat([s[0]], ['-']);
      assert [s[0]] + ['-'] == [s[0], '-'];
    }
  }

  lemma {:induction false} CoreOfSqueeze(s: string)
    ensures Core(Squeeze(s)) == Core(s)
    decreases |s|
  {
    if |s| >= 2 {
      CoreOfSqueeze(s[1..]);
      if !(s[0] == '-' && s[1] == '-') {
        CoreConcat([s[0]], Squeeze(s[1..]));
      }
    }
  }

  lemma {:induction false} CoreOfTrimLeft(s: string)
    ensures Core(TrimLeft(s)) == Core(s)
    decreases |s|
  {
    if s != "" && s[0] == '-' {
      CoreOfTrimLeft(s[1..]);
    }
  }

  lemma {:induction false} CoreOfTrimRight(s: string)
    ensures Core(TrimRight(s)) == Core(s)
    decreases |s|
  {
    if s != "" && s[|s| - 1] == '-' {
      CoreOfTrimRight(s[..|s| - 1]);
      CoreConcat(s[..|s| - 1], "-");
      assert s[..|s| - 1] + "-" == s;
    }
  }

  /** The passes add and remove nothing but hyphens and separators. */
  lemma CanonKeepsCore(s: string)
    ensures Core(Canon(s)) == Core(s)
  {
    CoreOfHyphenated(s, ':');
    CoreOfHyphenated(Hyphenated(s, ':'), '_');
    CoreOfHyphenated(Hyphenated(Hyphenated(s, ':'), '_'), '.');
    var split := SplitDigits(Separated(s));
    CoreOfSplit(Separated(s));
    SplitDigitsApart(Separated(s));
    CoreOfSqueeze(split);
    SqueezeKeeps(split);
    AliasIsIdentity(Squeeze(split));
    CoreOfTrimLeft(Squeeze(split));
    CoreOfTrimRight(TrimLeft(Squeeze(split)));
  }

  // ---------- Family and version ----------

  /** strings.Split(s, "-") */
  function Parts(s: string): (parts: seq<string>)
    ensures |parts| > 0
  {
    if s == "" then [""]
    else
      var rest := Parts(s[1..]);
      if s[0] == '-' then [""] + rest else [[s[0]] + rest[0]] + rest[1..]
  }

  /** strings.Join(parts, "-") */
  function Join(parts: seq<string>): string {
    if parts == [] then "" else if |parts| == 1 then parts[0] else parts[0] + "-" + Join(parts[1..])
  }

  lemma {:induction false} JoinParts(s: string)
    ensures Join(Parts(s)) == s
  {
    if s != "" {
      JoinParts(s[1..]);
      var rest := Parts(s[1..]);
      if s[0] == '-' {
        assert ([""] + rest)[1..] == rest;
      } else {
        assert ([[s[0]] + rest[0]] + rest[1..])[1..] == rest[1..];
      }
    }
  }

  lemma {:induction false} JoinSplitsAt(parts: seq<string>, k: nat)
    requires 0 < k < |parts|
    ensures Join(parts) == Join(parts[..k]) + "-" + Join(parts[k..])
  {
    if k == 1 {
      assert parts[..1] == [parts[0]];
    } else {
      JoinSplitsAt(parts[1..], k - 1);
      assert parts[..k][1..] == parts[1..][..k - 1] && parts[1..][k - 1..] == parts[k..];
    }
  }

  /** The pattern of one version number, on a part that has no hyphen. */
  predicate IsNumber(part: string) {
    part != "" && forall i :: 0 <= i < |part| ==> IsDigit(part[i])
  }

  /** Part i is a version component: a number, or a "v" that is not the last part. */
  predicate IsVersionPart(parts: seq<string>, i: nat)
    requires i < |parts|
  {
    IsNumber(parts[i]) || (parts[i] == "v" && i < |parts| - 1)
  }

  /** parts[k..] is the longest suffix of version components. */
  predicate LongestVersion(parts: seq<string>, k: nat) {
    && k <= |parts|
    && (forall i :: k <= i < |parts| ==> IsVersionPart(parts, i))
    && (k > 0 ==> !IsVersionPart(parts, k - 1))
  }

  /** The name is cut before part `start`, where the longest version suffix begins, and a leading
      "v" of that suffix is dropped; a name that is all version is not cut. */
  predicate SplitsAt(s: string, start: nat, family: string, version: string) {
    var parts := Parts(s);
    && LongestVersion(parts, start)
    && family == (if start == 0 then s else Join(parts[..start]))
    && version == (if start == 0 || start == |parts| then ""
                   else Join(if parts[start] == "v" then parts[start + 1..] else parts[start..]))
  }

  method SplitFamilyAndVersion(s: string) returns (family: string, version: string)
    ensures exists start: nat :: SplitsAt(s, start, family, version)
  {
    var parts := Parts(s);
    var versionStart := |parts|;
    var i := |parts| - 1;
    while i >= 0
      invariant -1 <= i < |parts| && versionStart == i + 1
      invariant forall k :: versionStart <= k < |parts| ==> IsVersionPart(parts, k)
    {
      var part := parts[i];
      if IsNumber(part) {
        versionStart := i;
      } else if part == "v" && i < |parts| - 1 {
        versionStart := i;
      } else {
        break;
      }
      i := i - 1;
    }
    if versionStart == 0 {
      assert SplitsAt(s, 0, s, "");
      return s, "";
    }
    family := Join(parts[..versionStart]);
    version := "";
    if versionStart < |parts| {
      var versionParts := parts[versionStart..];
      if versionParts[0] == "v" {
        versionParts := versionParts[1..];
      }
      version := Join(versionParts);
    }
    assert SplitsAt(s, versionStart, family, version);
  }

  /** A suffix that starts with a dropped "v" has more parts. */
  lemma DroppedV(parts: seq<string>, start: nat)
    requires start < |parts| && IsVersionPart(parts, start) && parts[start] == "v"
    ensures start + 1 < |parts| && Join(parts[start..]) == "v-" + Join(parts[start + 1..])
  {
    assert !IsDigit("v"[0]);
    var tail := parts[start..];
    assert tail[0] == "v" && tail[1..] == parts[start + 1..];
    assert "v" + "-" == "v-";
  }

  lemma VersionStarts(parts: seq<string>, start: nat)
    requires LongestVersion(parts, start) && start < |parts|
    ensures IsVersionPart(parts, start)
  {
  }

  /** Splitting loses nothing: the name is the family alone, or the family, a hyphen, at most one
      dropped "v-" and the version. */
  lemma SplitIsLossless(s: string, start: nat, family: string, version: string)
    requires SplitsAt(s, start, family, version)
    ensures
      || (s == family && version == "" && (start == 0 || start == |Parts(s)|))
      || (0 < start < |Parts(s)| && s == family + "-" + version && Parts(s)[start] != "v")
      || (0 < start < |Parts(s)| && s == family + "-v-" + version && Parts(s)[start] == "v")
  {
    var parts := Parts(s);
    JoinParts(s);
    assert start <= |parts|;
    hide Parts, Join, IsVersionPart, LongestVersion;
    if start == |parts| {
      assert parts[..start] == parts;
    } else if start > 0 {
      JoinSplitsAt(parts, start);
      if parts[start] == "v" {
        VersionStarts(parts, start);
        DroppedV(parts, start);
        ConcatAssoc(family + "-", "v-", version);
        ConcatAssoc(family, "-", "v-");
        assert "-" + "v-" == "-v-";
      }
    }
  }

  lemma LongestVersionIsUnique(parts: seq<string>, j: nat, k: nat)
    requires LongestVersion(parts, j) && LongestVersion(parts, k)
    ensures j == k
  {
  }

  /** There is one longest version suffix, so the name determines the split. */
  lemma SplitIsUnique(s: string, j: nat, f: string, v: string, k: nat, f': string, v': string)
    requires SplitsAt(s, j, f, v) && SplitsAt(s, k, f', v')
    ensures j == k && f == f' && v == v'
  {
    LongestVersionIsUnique(Parts(s), j, k);
  }

  lemma PartsOfCons(c: char, t: string)
    ensures Parts([c] + t) == if c == '-' then [""] + Parts(t) else [[c] + Parts(t)[0]] + Parts(t)[1..]
  {
    assert ([c] + t)[1..] == t;
  }

  lemma {:induction false} PartsOfConcat(a: string, b: string)
    ensures Parts(a + "-" + b) == Parts(a) + Parts(b)
  {
    if a == "" {
      PartsOfCons('-', b);
      assert a + "-" + b == "-" + b;
    } else {
      var t := a[1..] + "-" + b;
      PartsOfConcat(a[1..], b);
      PartsOfCons(a[0], a[1..]);
      PartsOfCons(a[0], t);
      assert a + "-" + b == [a[0]] + t && a == [a[0]] + a[1..];
      hide Parts;
      HeadOfConcat([a[0]], Parts(a[1..]), Parts(b));
    }
  }

  lemma HeadOfConcat(head: string, p: seq<string>, q: seq<string>)
    requires p != []
    ensures [""] + (p + q) == [""] + p + q
    ensures [head + (p + q)[0]] + (p + q)[1..] == [head + p[0]] + p[1..] + q
  {
  }

  lemma NoHyphenNoSplit(s: string)
    requires '-' !in s
    ensures Parts(s) == [s]
  {
    if s != "" {
      NoHyphenNoSplit(s[1..]);
      assert [s[0]] + s[1..] == s;
    }
  }

  /** A version of numbers is split off a family whose last part is no number and not "v", and with it
      a "v" between them. */
  lemma SplitsVersionOff(family: string, version: string)
    requires var parts := Parts(family); var last := parts[|parts| - 1];
      last != "v" && (last == "" || exists i :: 0 <= i < |last| && !('0' <= last[i] <= '9'))
    requires forall part :: part in Parts(version) ==>
      part != "" && forall i :: 0 <= i < |part| ==> '0' <= part[i] <= '9'
    ensures SplitsAt(family + "-" + version, |Parts(family)|, family, version)
    ensures SplitsAt(family + "-v-" + version, |Parts(family)|, family, version)
  {
    PartsWithVersion(family, version);
    PartsWithV(family, version);
    JoinParts(family);
    JoinParts(version);
    hide Parts, Join, SplitsAt;
    SplitsHere(family + "-" + version, Parts(family), Parts(version), Parts(version));
    SplitsHere(family + "-v-" + version, Parts(family), ["v"] + Parts(version), Parts(version));
  }

  lemma PartsWithVersion(family: string, version: string)
    ensures Parts(version) != [] && Parts(family + "-" + version) == Parts(family) + Parts(version)
  {
    PartsOfConcat(family, version);
  }

  lemma PartsWithV(family: string, version: string)
    ensures Parts(family + "-v-" + version) == Parts(family) + (["v"] + Parts(version))
  {
    hide Parts;
    PartsOfConcat("v", version);
    PartsOfConcat(family, "v" + "-" + version);
    NoHyphenNoSplit("v");
    assert family + "-" + ("v" + "-" + version) == family + "-v-" + version;
  }

  lemma SplitsHere(s: string, f: seq<string>, tail: seq<string>, numbers: seq<string>)
    requires f != [] && !IsNumber(f[|f| - 1]) && f[|f| - 1] != "v" && Parts(s) == f + tail
    requires numbers != [] && forall part :: part in numbers ==> IsNumber(part)
    requires tail == numbers || tail == ["v"] + numbers
    ensures SplitsAt(s, |f|, Join(f), Join(numbers))
  {
    hide Parts, Join;
    LongestHere(f, tail, numbers);
    assert !IsDigit("v"[0]) && numbers[0] in numbers;
    hide LongestVersion;
    var parts := f + tail;
    assert parts[..|f|] == f;
    if tail == numbers {
      assert parts[|f|..] == numbers;
    } else {
      assert parts[|f| + 1..] == numbers;
    }
  }

  lemma LongestHere(f: seq<string>, tail: seq<string>, numbers: seq<string>)
    requires f != [] && !IsNumber(f[|f| - 1]) && f[|f| - 1] != "v"
    requires numbers != [] && forall part :: part in numbers ==> IsNumber(part)
    requires tail == numbers || tail == ["v"] + numbers
    ensures LongestVersion(f + tail, |f|)
  {
    forall i | |f| <= i < |f + tail|
      ensures IsVersionPart(f + tail, i)
    {
      assert (f + tail)[i] == tail[i - |f|];
    }
  }
}
