/** The composite hash of a model's files: sort by filename, write one "filename:hash" line per
    file, hash the text. SHA-256 is a parameter. */
module CompositeHash {

  import opened Common
  import opened Sorting

  datatype ManifestFile = ManifestFile(filename: string, hash: string)

  // ---------- Order ----------

  /** Go's <= on strings: lexicographic. */
  predicate AtMost(a: string, b: string) {
    a == "" || (b != "" && (a[0] < b[0] || (a[0] == b[0] && AtMost(a[1..], b[1..]))))
  }

  lemma {:induction false} AtMostIsTotalOrder(a: string, b: string, c: string)
    ensures AtMost(a, a)
    ensures AtMost(a, b) || AtMost(b, a)
    ensures AtMost(a, b) && AtMost(b, a) ==> a == b
    ensures AtMost(a, b) && AtMost(b, c) ==> AtMost(a, c)
    decreases |a|
  {
    if a != "" {
      var b' := if b == "" then "" else b[1..];
      var c' := if c == "" then "" else c[1..];
      AtMostIsTotalOrder(a[1..], b', c');
      if b != "" && a[0] == b[0] && a[1..] == b[1..] {
        assert a == [a[0]] + a[1..] && b == [b[0]] + b[1..];
      }
    }
  }

  /** The strings differ first at k, and a has the smaller character there. */
  predicate SmallerAt(a: string, b: string, k: nat) {
    k < |a| && k < |b| && a[k] < b[k] && forall i :: 0 <= i < k ==> a[i] == b[i]
  }

  /** A string is at most another exactly when it is a prefix of it or the first character that
      differs is the smaller one. */
  lemma {:induction false} AtMostIsLexicographic(a: string, b: string)
    ensures AtMost(a, b) <==> a <= b || exists k: nat :: SmallerAt(a, b, k)
    decreases |a|
  {
    if a != "" && b != "" {
      AtMostIsLexicographic(a[1..], b[1..]);
      if a[0] == b[0] {
        Lexicographic(a, b);
      } else if a[0] < b[0] {
        assert SmallerAt(a, b, 0);
      }
    }
  }

  lemma Lexicographic(a: string, b: string)
    requires a != "" && b != "" && a[0] == b[0]
    ensures a[1..] <= b[1..] <==> a <= b
    ensures (exists k: nat :: SmallerAt(a[1..], b[1..], k)) <==> exists k: nat :: SmallerAt(a, b, k)
  {
    assert a == [a[0]] + a[1..] && b == [b[0]] + b[1..];
    if k: nat :| SmallerAt(a[1..], b[1..], k) {
      assert forall i :: 0 < i <= k ==> a[i] == a[1..][i - 1] == b[1..][i - 1] == b[i];
      assert SmallerAt(a, b, k + 1);
    }
    if k: nat :| SmallerAt(a, b, k) {
      assert SmallerAt(a[1..], b[1..], k - 1);
    }
  }

  /** The comparison that sort.Slice is given. */
  predicate Before(f: ManifestFile, g: ManifestFile) {
    !AtMost(g.filename, f.filename)
  }

  lemma BeforeIsStrictOrder()
    ensures StrictOrder(Before)
  {
    forall f, g, h
      ensures Before(f, g) ==> !Before(g, f)
      ensures Before(f, h) ==> Before(f, g) || Before(g, h)
    {
      AtMostIsTotalOrder(f.filename, g.filename, "");
      AtMostIsTotalOrder(h.filename, g.filename, f.filename);
    }
  }

  /** What sort.Slice leaves: the same files, sorted by filename. The order of files with
      equal filenames is up to the library. */
  ghost predicate Arrangement(files: seq<ManifestFile>, order: seq<ManifestFile>) {
    multiset(order) == multiset(files) && Sorted(order, Before)
  }

  /** Every list of files can be arranged. */
  lemma ArrangementExists(files: seq<ManifestFile>)
    ensures Arrangement(files, Arranged(files, Before))
  {
    BeforeIsStrictOrder();
    ArrangedIsSorted(files, Before);
  }

  /** In an arrangement no later filename is smaller: each earlier one is a prefix of it or has the
      smaller character where they differ first. */
  lemma ArrangementAscends(files: seq<ManifestFile>, order: seq<ManifestFile>, i: nat, j: nat)
    requires Arrangement(files, order) && i < j < |order|
    ensures
      || order[i].filename <= order[j].filename
      || exists k: nat :: SmallerAt(order[i].filename, order[j].filename, k)
  {
    assert !Before(order[j], order[i]);
    AtMostIsLexicographic(order[i].filename, order[j].filename);
  }

  // ---------- The code ----------

  function Line(f: ManifestFile): string {
    f.filename + ":" + f.hash + "\n"
  }

  function Text(files: seq<ManifestFile>): string {
    if files == [] then "" else Line(files[0]) + Text(files[1..])
  }

  /** One line for each file, in order. */
  lemma {:induction false} TextAdds(p: seq<ManifestFile>, q: seq<ManifestFile>)
    ensures Text([]) == "" && Text(p + q) == Text(p) + Text(q)
    ensures forall f :: Text([f]) == f.filename + ":" + f.hash + "\n"
  {
    if p == [] {
      assert p + q == q;
    } else {
      TextAdds(p[1..], q);
      assert (p + q)[1..] == p[1..] + q;
      hide Line;
      ConcatAssoc(Line(p[0]), Text(p[1..]), Text(q));
    }
    forall f
      ensures Text([f]) == f.filename + ":" + f.hash + "\n"
    {
      assert [f][1..] == [] && Text([f]) == Line(f) + "";
    }
  }

  /** sort.Slice on the copied slice. Callers know no more than the library promises. */
  method SortSlice(files: seq<ManifestFile>) returns (sorted: seq<ManifestFile>)
    ensures Arrangement(files, sorted)
  {
    ArrangementExists(files);
    sorted := Arranged(files, Before);
  }

  method ComputeCompositeHash(files: seq<ManifestFile>, sha256: string -> string)
    returns (hash: string)
    ensures files == [] ==> hash == ""
    ensures files != [] ==> exists order :: Arrangement(files, order) && hash == sha256(Text(order))
  {
    if |files| == 0 {
      return "";
    }
    var sorted := SortSlice(files);
    var written := "";
    for i := 0 to |sorted|
      invariant Text(sorted) == written + Text(sorted[i..])
    {
      assert sorted[i..][1..] == sorted[i + 1..];
      ConcatAssoc(written, Line(sorted[i]), Text(sorted[i + 1..]));
      written := written + (sorted[i].filename + ":" + sorted[i].hash + "\n");
    }
    assert sorted[|sorted|..] == [] && written + "" == written;
    hash := sha256(written);
  }

  // ---------- Input order ----------

  /** Files with one filename have one hash. */
  ghost predicate Consistent(files: seq<ManifestFile>) {
    forall f, g :: f in files && g in files && f.filename == g.filename ==> f == g
  }

  /** The sorted list of consistent files is unique. */
  lemma SortedFilesAreUnique(p: seq<ManifestFile>, q: seq<ManifestFile>)
    requires multiset(p) == multiset(q) && Sorted(p, Before) && Sorted(q, Before) && Consistent(p)
    ensures p == q
  {
    BeforeIsStrictOrder();
    forall f, g | f in multiset(p) && g in multiset(p) && !Before(f, g) && !Before(g, f)
      ensures f == g
    {
      AtMostIsTotalOrder(f.filename, g.filename, "");
      assert f in p && g in p;
    }
    ArrangementIsUnique(p, q, Before);
  }

  lemma SameElements(p: seq<ManifestFile>, q: seq<ManifestFile>)
    requires multiset(p) == multiset(q)
    ensures forall x :: x in p <==> x in q
    ensures |p| == |q|
  {
    forall x ensures x in p <==> x in q {
      assert x in multiset(p) <==> x in multiset(q);
    }
    assert |p| == |multiset(p)| && |q| == |multiset(q)|;
  }

  // ---------- Decoding ----------

  predicate Lacks(s: string, c: char) {
    forall i :: 0 <= i < |s| ==> s[i] != c
  }

  /** No newline in filenames and hashes, no colon in hashes. */
  predicate WellFormed(files: seq<ManifestFile>) {
    forall i :: 0 <= i < |files| ==>
      Lacks(files[i].filename, '\n') && Lacks(files[i].hash, '\n') && Lacks(files[i].hash, ':')
  }

  /** The first position of c, or the length. */
  function IndexOf(s: string, c: char): (i: nat)
    ensures i <= |s| && Lacks(s[..i], c) && (i < |s| ==> s[i] == c)
  {
    if s == "" || s[0] == c then 0 else IndexOf(s[1..], c) + 1
  }

  /** The position after the last c, or zero. */
  function AfterLast(s: string, c: char): (i: nat)
    ensures i <= |s| && Lacks(s[i..], c) && (i > 0 ==> s[i - 1] == c)
  {
    if s == "" then 0 else if s[|s| - 1] == c then |s| else AfterLast(s[..|s| - 1], c)
  }

  /** Reads the lines back: up to the newline, split at the last colon. */
  function Decode(text: string): Option<seq<ManifestFile>>
    decreases |text|
  {
    if text == "" then Some([])
    else
      var n := IndexOf(text, '\n');
      if n == |text| then None
      else
        var line := text[..n];
        var k := AfterLast(line, ':');
        if k == 0 then None
        else match Decode(text[n + 1..])
          case None => None
          case Some(rest) => Some([ManifestFile(line[..k - 1], line[k..])] + rest)
  }

  lemma {:induction false} FirstIndex(s: string, c: char, i: nat)
    requires i < |s| && s[i] == c && Lacks(s[..i], c)
    ensures IndexOf(s, c) == i
  {
    if i > 0 {
      assert s[..i][0] == s[0] && s[1..][..i - 1] == s[..i][1..];
      FirstIndex(s[1..], c, i - 1);
    }
  }

  lemma {:induction false} LastIndex(s: string, c: char, i: nat)
    requires 0 < i <= |s| && s[i - 1] == c && Lacks(s[i..], c)
    ensures AfterLast(s, c) == i
    decreases |s|
  {
    if i < |s| {
      assert s[i..][|s| - 1 - i] == s[|s| - 1] && s[..|s| - 1][i..] == s[i..][..|s| - 1 - i];
      LastIndex(s[..|s| - 1], c, i);
    }
  }

  lemma DecodeLine(f: ManifestFile, rest: string)
    requires Lacks(f.filename, '\n') && Lacks(f.hash, '\n') && Lacks(f.hash, ':')
    ensures var text := Line(f) + rest; var n := IndexOf(text, '\n');
      && n < |text| && text[n + 1..] == rest && text[..n] == f.filename + ":" + f.hash
      && AfterLast(text[..n], ':') == |f.filename| + 1
  {
    var line := f.filename + ":" + f.hash;
    var text := Line(f) + rest;
    assert text[|line|] == '\n' && text[..|line|] == line && text[|line| + 1..] == rest;
    FirstIndex(text, '\n', |line|);
    assert line[|f.filename| + 1..] == f.hash;
    LastIndex(line, ':', |f.filename| + 1);
  }

  lemma DecodeStep(text: string, rest: seq<ManifestFile>)
    requires var n := IndexOf(text, '\n'); n < |text| && Decode(text[n + 1..]) == Some(rest)
    requires AfterLast(text[..IndexOf(text, '\n')], ':') > 0
    ensures var line := text[..IndexOf(text, '\n')]; var k := AfterLast(line, ':');
      Decode(text) == Some([ManifestFile(line[..k - 1], line[k..])] + rest)
  {
    hide IndexOf, AfterLast, Lacks;
  }

  lemma FileOfLine(f: ManifestFile)
    ensures var line := f.filename + ":" + f.hash; var k := |f.filename| + 1;
      ManifestFile(line[..k - 1], line[k..]) == f
  {
    var line := f.filename + ":" + f.hash;
    assert line[..|f.filename|] == f.filename && line[|f.filename| + 1..] == f.hash;
  }

  /** The text that is hashed decodes to the files it was written from. */
  lemma {:induction false} DecodeText(files: seq<ManifestFile>)
    requires WellFormed(files)
    ensures Decode(Text(files)) == Some(files)
  {
    if files != [] {
      hide IndexOf, AfterLast, Line, Lacks;
      var f, rest := files[0], Text(files[1..]);
      var text := Line(f) + rest;
      assert Text(files) == text;
      DecodeText(files[1..]);
      hide Text, Decode;
      DecodeLine(f, rest);
      DecodeStep(text, files[1..]);
      FileOfLine(f);
      assert files == [f] + files[1..];
    }
  }

  /** Well-formed lists with the same text are the same list. */
  lemma TextIsInjective(p: seq<ManifestFile>, q: seq<ManifestFile>)
    requires WellFormed(p) && WellFormed(q) && Text(p) == Text(q)
    ensures p == q
  {
    DecodeText(p);
    DecodeText(q);
  }

  predicate OneLine(f: ManifestFile) {
    Lacks(f.filename, '\n') && Lacks(f.hash, '\n')
  }

  /** Another file has the same line. */
  ghost predicate Collides(f: ManifestFile) {
    exists g :: OneLine(g) && g != f && Line(g) == Line(f)
  }

  /** Of files without newlines, one shares its line with another exactly when a colon occurs in
      its filename or hash: the line does not tell which colon is the separator. */
  lemma CollidesIffColon(f: ManifestFile)
    requires OneLine(f)
    ensures Collides(f) <==> !Lacks(f.filename, ':') || !Lacks(f.hash, ':')
  {
    if i :| 0 <= i < |f.filename| && f.filename[i] == ':' {
      var g := ManifestFile(f.filename[..i], f.filename[i + 1..] + ":" + f.hash);
      assert f.filename == f.filename[..i] + ":" + f.filename[i + 1..];
      assert g.filename + ":" + g.hash == f.filename + ":" + f.hash;
      assert |g.filename| != |f.filename|;
      assert OneLine(g) && g != f && Line(g) == Line(f);
    } else if i :| 0 <= i < |f.hash| && f.hash[i] == ':' {
      var g := ManifestFile(f.filename + ":" + f.hash[..i], f.hash[i + 1..]);
      assert f.hash == f.hash[..i] + ":" + f.hash[i + 1..];
      assert g.filename + ":" + g.hash == f.filename + ":" + f.hash;
      assert |g.filename| != |f.filename|;
      assert OneLine(g) && g != f && Line(g) == Line(f);
    } else if Collides(f) {
      var g :| OneLine(g) && g != f && Line(g) == Line(f);
      OneColonOneFile(f, g);
    }
  }

  lemma OneColonOneFile(f: ManifestFile, g: ManifestFile)
    requires Lacks(f.filename, ':') && Lacks(f.hash, ':') && Line(g) == Line(f)
    ensures g == f
  {
    var line := Line(f);
    assert line[|f.filename|] == ':' && line[|g.filename|] == ':';
    assert forall i :: 0 <= i < |line| && i != |f.filename| ==> line[i] != ':';
    assert line[..|f.filename|] == f.filename && line[..|g.filename|] == g.filename;
    assert line[|f.filename| + 1..|line| - 1] == f.hash && line[|g.filename| + 1..|line| - 1] == g.hash;
  }

  /** For instance. */
  lemma ColonInHashCollides()
    ensures Text([ManifestFile("a", "b:c")]) == Text([ManifestFile("a:b", "c")]) == "a:b:c\n"
  {
    assert Line(ManifestFile("a", "b:c")) == "a:b:c\n" == Line(ManifestFile("a:b", "c"));
  }

  ghost predicate OrderIndependent(files: seq<ManifestFile>) {
    forall p, q :: Arrangement(files, p) && Arrangement(files, q) ==> Text(p) == Text(q)
  }

  /** The hashed text depends on the set of files alone, not on their order or on how the library
      breaks ties, if and only if no filename occurs with two hashes. */
  lemma OrderIndependentIffConsistent(files: seq<ManifestFile>)
    requires WellFormed(files)
    ensures OrderIndependent(files) <==> Consistent(files)
  {
    if Consistent(files) {
      forall p, q | Arrangement(files, p) && Arrangement(files, q) ensures Text(p) == Text(q) {
        SameProperties(files, p);
        SortedFilesAreUnique(p, q);
      }
    } else {
      var f, g :| f in files && g in files && f.filename == g.filename && f != g;
      TiesAreVisible(files, f, g);
    }
  }

  lemma SameProperties(p: seq<ManifestFile>, q: seq<ManifestFile>)
    requires multiset(p) == multiset(q)
    ensures WellFormed(p) <==> WellFormed(q)
    ensures Consistent(p) <==> Consistent(q)
  {
    SameElements(p, q);
    assert forall i :: 0 <= i < |p| ==> p[i] in q;
    assert forall i :: 0 <= i < |q| ==> q[i] in p;
  }

  lemma SwapTies(p: seq<ManifestFile>, i: nat, j: nat) returns (q: seq<ManifestFile>)
    requires i < |p| && j < |p| && p[i].filename == p[j].filename && p[i] != p[j] && Sorted(p, Before)
    ensures multiset(q) == multiset(p) && Sorted(q, Before) && q != p
  {
    q := p[i := p[j]][j := p[i]];
    assert q[i] == p[j];
    assert forall k :: 0 <= k < |p| ==> q[k].filename == p[k].filename;
  }

  lemma TiesAreVisible(files: seq<ManifestFile>, f: ManifestFile, g: ManifestFile)
    requires WellFormed(files) && f in files && g in files && f.filename == g.filename && f != g
    ensures !OrderIndependent(files)
  {
    ArrangementExists(files);
    var p := Arranged(files, Before);
    SameElements(files, p);
    SameProperties(files, p);
    var i :| 0 <= i < |p| && p[i] == f;
    var j :| 0 <= j < |p| && p[j] == g;
    var q := SwapTies(p, i, j);
    SameProperties(p, q);
    DecodeText(p);
    DecodeText(q);
    assert Arrangement(files, p) && Arrangement(files, q) && Text(p) != Text(q);
  }

  /** Two lists of well-formed, consistent files give the same text exactly when they hold the
      same files, in whatever order. */
  lemma SameTextIffSameFiles(files: seq<ManifestFile>, others: seq<ManifestFile>,
                             p: seq<ManifestFile>, q: seq<ManifestFile>)
    requires WellFormed(files) && WellFormed(others) && Consistent(files)
    requires Arrangement(files, p) && Arrangement(others, q)
    ensures Text(p) == Text(q) <==> multiset(files) == multiset(others)
  {
    SameProperties(files, p);
    SameProperties(others, q);
    if multiset(files) == multiset(others) {
      SortedFilesAreUnique(p, q);
    } else if Text(p) == Text(q) {
      TextIsInjective(p, q);
    }
  }
}
