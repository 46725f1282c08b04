/** Equality of posture checks by sorting, joining and sorting (client/internal/engine.go,
    isChecksEqual). */
module PostureChecks {
  import opened Text

  datatype Check = Check(files: seq<string>)

  // ---------- Sorting strings ----------

  predicate LexLe(a: string, b: string) {
    a == "" || (b != "" && (a[0] < b[0] || (a[0] == b[0] && LexLe(a[1..], b[1..]))))
  }

  lemma {:induction false} LexTotal(a: string, b: string)
    ensures LexLe(a, b) || LexLe(b, a)
  {
    if a != "" && b != "" && a[0] == b[0] {
      LexTotal(a[1..], b[1..]);
    }
  }

  lemma {:induction false} LexAntisymmetric(a: string, b: string)
    requires LexLe(a, b) && LexLe(b, a)
    ensures a == b
  {
    if a != "" {
      LexAntisymmetric(a[1..], b[1..]);
      assert a == [a[0]] + a[1..] && b == [b[0]] + b[1..];
    }
  }

  lemma {:induction false} LexTransitive(a: string, b: string, c: string)
    requires LexLe(a, b) && LexLe(b, c)
    ensures LexLe(a, c)
  {
    if a != "" && a[0] == b[0] && b[0] == c[0] {
      LexTransitive(a[1..], b[1..], c[1..]);
    }
  }

  predicate Sorted(s: seq<string>) {
    forall i, j :: 0 <= i < j < |s| ==> LexLe(s[i], s[j])
  }

  function Insert(x: string, s: seq<string>): seq<string> {
    if s == [] || LexLe(x, s[0]) then [x] + s else [s[0]] + Insert(x, s[1..])
  }

  /** The library sort: any sorting gives this result. */
  function Sort(s: seq<string>): seq<string> {
    if s == [] then [] else Insert(s[0], Sort(s[1..]))
  }

  lemma {:induction false} InsertElements(x: string, s: seq<string>)
    ensures multiset(Insert(x, s)) == multiset(s) + multiset{x}
  {
    if s != [] && !LexLe(x, s[0]) {
      InsertElements(x, s[1..]);
      assert s == [s[0]] + s[1..];
    }
  }

  lemma PrependSorted(x: string, s: seq<string>)
    requires Sorted(s) && forall y :: y in s ==> LexLe(x, y)
    ensures Sorted([x] + s)
  {
    var t := [x] + s;
    forall i, j | 0 <= i < j < |t| ensures LexLe(t[i], t[j]) {
      assert t[j] == s[j - 1];
    }
  }

  lemma {:induction false} InsertSorts(x: string, s: seq<string>)
    requires Sorted(s)
    ensures Sorted(Insert(x, s))
  {
    if s == [] {
    } else if LexLe(x, s[0]) {
      forall y | y in s ensures LexLe(x, y) {
        if y != s[0] {
          LexTransitive(x, s[0], y);
        }
      }
      PrependSorted(x, s);
    } else {
      var t := Insert(x, s[1..]);
      InsertSorts(x, s[1..]);
      InsertElements(x, s[1..]);
      LexTotal(x, s[0]);
      forall y | y in t ensures LexLe(s[0], y) {
        assert y in multiset(t);
        assert y == x || y in s[1..];
      }
      PrependSorted(s[0], t);
    }
  }

  lemma {:induction false} SortSorts(s: seq<string>)
    ensures Sorted(Sort(s)) && multiset(Sort(s)) == multiset(s)
  {
    if s != [] {
      SortSorts(s[1..]);
      InsertSorts(s[0], Sort(s[1..]));
      InsertElements(s[0], Sort(s[1..]));
      assert s == [s[0]] + s[1..];
    }
  }

  /** Two sorted lists with the same elements are the same list. */
  lemma {:induction false} SortedUnique(a: seq<string>, b: seq<string>)
    requires Sorted(a) && Sorted(b) && multiset(a) == multiset(b)
    ensures a == b
  {
    assert |a| == |multiset(a)| == |multiset(b)| == |b|;
    if a != [] {
      SmallestFirst(a, b);
      assert a == [a[0]] + a[1..] && b == [b[0]] + b[1..];
      assert multiset(a[1..]) == multiset(a) - multiset{a[0]} == multiset(b[1..]);
      SortedUnique(a[1..], b[1..]);
    }
  }

  lemma SmallestFirst(a: seq<string>, b: seq<string>)
    requires Sorted(a) && Sorted(b) && multiset(a) == multiset(b) && |a| > 0 && |b| > 0
    ensures a[0] == b[0]
  {
    assert a[0] in multiset(b) && b[0] in multiset(a);
    var i :| 0 <= i < |a| && a[i] == b[0];
    var j :| 0 <= j < |b| && b[j] == a[0];
    if i > 0 && j > 0 {
      LexAntisymmetric(a[0], b[0]);
    }
  }

  lemma SortDecidesMultiset(a: seq<string>, b: seq<string>)
    ensures Sort(a) == Sort(b) <==> multiset(a) == multiset(b)
  {
    SortSorts(a);
    SortSorts(b);
    if multiset(a) == multiset(b) {
      SortedUnique(Sort(a), Sort(b));
    }
  }

  // ---------- Normal forms ----------

  function CheckText(c: Check): string {
    Join(Sort(c.files), '|')
  }

  function Texts(checks: seq<Check>): seq<string> {
    seq(|checks|, i requires 0 <= i < |checks| => CheckText(checks[i]))
  }

  method Normalize(checks: seq<Check>) returns (n: seq<string>)
    ensures n == Sort(Texts(checks))
  {
    var normalized := new string[|checks|];
    for i := 0 to |checks|
      invariant forall j :: 0 <= j < i ==> normalized[j] == CheckText(checks[j])
    {
      normalized[i] := Join(Sort(checks[i].files), '|');
    }
    assert normalized[..] == Texts(checks);
    n := Sort(normalized[..]);
  }

  /** What isChecksEqual answers. */
  predicate SameNormalForm(a: seq<Check>, b: seq<Check>) {
    Sort(Texts(a)) == Sort(Texts(b))
  }

  method IsChecksEqual(a: seq<Check>, b: seq<Check>) returns (same: bool)
    ensures same <==> SameNormalForm(a, b)
  {
    var n1 := Normalize(a);
    var n2 := Normalize(b);
    same := n1 == n2;
  }

  // ---------- What the normal form forgets ----------

  ghost function FileSets(checks: seq<Check>): seq<multiset<string>> {
    seq(|checks|, i requires 0 <= i < |checks| => multiset(checks[i].files))
  }

  /** The two lists ask for the same files, counted with multiplicity at both levels. */
  ghost predicate SameChecks(a: seq<Check>, b: seq<Check>) {
    multiset(FileSets(a)) == multiset(FileSets(b))
  }

  /** No file name contains the separator, and the list is not the single empty name. */
  predicate Tidy(c: Check) {
    (forall f :: f in c.files ==> '|' !in f) && c.files != [""]
  }

  function RemoveAt<T>(s: seq<T>, j: nat): seq<T>
    requires j < |s|
  {
    s[..j] + s[j + 1..]
  }

  lemma RemoveAtMultiset<T>(s: seq<T>, j: nat)
    requires j < |s|
    ensures multiset(s) == multiset(RemoveAt(s, j)) + multiset{s[j]}
    ensures multiset(RemoveAt(s, j)) == multiset(s) - multiset{s[j]}
  {
    assert s == s[..j] + [s[j]] + s[j + 1..];
  }

  /** Equal elements of the first lists stand at places with equal elements of the second ones. */
  ghost predicate Carries<A, B>(a: seq<A>, a': seq<B>, b: seq<A>, b': seq<B>) {
    && |a| == |a'| && |b| == |b'|
    && forall i, j :: 0 <= i < |a| && 0 <= j < |b| && a[i] == b[j] ==> a'[i] == b'[j]
  }

  lemma CarriesRest<A, B>(a: seq<A>, a': seq<B>, b: seq<A>, b': seq<B>, j: nat)
    requires Carries(a, a', b, b') && |a| > 0 && j < |b|
    ensures Carries(a[1..], a'[1..], RemoveAt(b, j), RemoveAt(b', j))
  {
  }

  /** If equal elements on the left mean equal elements on the right, equal multisets on the left mean
      equal multisets on the right. */
  lemma {:induction false} Transfer<A, B>(a: seq<A>, a': seq<B>, b: seq<A>, b': seq<B>)
    requires Carries(a, a', b, b') && multiset(a) == multiset(b)
    ensures multiset(a') == multiset(b')
  {
    assert |multiset(a)| == |multiset(b)|;
    if a != [] {
      assert a[0] in multiset(b);
      var j :| 0 <= j < |b| && b[j] == a[0];
      CarriesRest(a, a', b, b', j);
      HeadMultiset(a);
      HeadMultiset(a');
      RemoveAtMultiset(b, j);
      RemoveAtMultiset(b', j);
      assert multiset(a[1..]) == multiset(RemoveAt(b, j));
      Transfer(a[1..], a'[1..], RemoveAt(b, j), RemoveAt(b', j));
    }
  }

  lemma HeadMultiset<T>(s: seq<T>)
    requires |s| > 0
    ensures multiset(s[1..]) == multiset(s) - multiset{s[0]} && multiset(s) == multiset(s[1..]) + multiset{s[0]}
  {
    assert s == [s[0]] + s[1..];
  }

  // ---------- What the comparison decides ----------

  /** The pieces between the separators of all parts, in order. */
  function SplitAll(parts: seq<string>): seq<string> {
    if parts == [] then [] else Split(parts[0], '|') + SplitAll(parts[1..])
  }

  /** What the text of a check keeps: the pieces of its sorted names, or one empty piece. */
  function Pieces(c: Check): seq<string> {
    if c.files == [] then [""] else SplitAll(Sort(c.files))
  }

  lemma {:induction false} SplitJoinAll(parts: seq<string>)
    requires parts != []
    ensures Split(Join(parts, '|'), '|') == SplitAll(parts)
  {
    if |parts| == 1 {
      assert SplitAll(parts[1..]) == [];
    } else {
      SplitJoinAll(parts[1..]);
      SplitAt(parts[0], Join(parts[1..], '|'), '|');
    }
  }

  /** Two checks have the same text exactly when they have the same pieces. */
  lemma TextIsPieces(c: Check, d: Check)
    ensures CheckText(c) == CheckText(d) <==> Pieces(c) == Pieces(d)
  {
    PiecesOfText(c);
    PiecesOfText(d);
    JoinSplit(CheckText(c), '|');
    JoinSplit(CheckText(d), '|');
  }

  lemma PiecesOfText(c: Check)
    ensures Split(CheckText(c), '|') == Pieces(c)
  {
    SortSorts(c.files);
    if c.files != [] {
      assert |Sort(c.files)| == |multiset(Sort(c.files))| == |multiset(c.files)| == |c.files|;
      SplitJoinAll(Sort(c.files));
    }
  }

  function AllPieces(checks: seq<Check>): seq<seq<string>> {
    seq(|checks|, i requires 0 <= i < |checks| => Pieces(checks[i]))
  }

  /** For all lists of checks: they compare equal exactly when they have the same pieces, counted with
      multiplicity. */
  lemma EqualExactlyByPieces(a: seq<Check>, b: seq<Check>)
    ensures SameNormalForm(a, b) <==> multiset(AllPieces(a)) == multiset(AllPieces(b))
  {
    SortDecidesMultiset(Texts(a), Texts(b));
    forall i, j | 0 <= i < |a| && 0 <= j < |b| ensures Texts(a)[i] == Texts(b)[j] <==> AllPieces(a)[i] == AllPieces(b)[j] {
      TextIsPieces(a[i], b[j]);
    }
    if SameNormalForm(a, b) {
      Transfer(Texts(a), AllPieces(a), Texts(b), AllPieces(b));
    } else if multiset(AllPieces(a)) == multiset(AllPieces(b)) {
      Transfer(AllPieces(a), Texts(a), AllPieces(b), Texts(b));
    }
  }

  ghost predicate Over(checks: seq<Check>, all: iset<Check>) {
    forall c :: c in checks ==> c in all
  }

  /** No two of these checks have the same pieces without having the same files. */
  ghost predicate ToldApart(all: iset<Check>) {
    forall c, d :: c in all && d in all && Pieces(c) == Pieces(d) ==> multiset(c.files) == multiset(d.files)
  }

  lemma ToldApartCompare(all: iset<Check>, a: seq<Check>, b: seq<Check>)
    requires ToldApart(all) && Over(a, all) && Over(b, all)
    ensures SameNormalForm(a, b) <==> SameChecks(a, b)
  {
    if SameNormalForm(a, b) {
      EqualExactlyByPieces(a, b);
      Transfer(AllPieces(a), FileSets(a), AllPieces(b), FileSets(b));
    } else if SameChecks(a, b) {
      SameChecksCompareEqual(a, b);
    }
  }

  lemma OneOfEach(c: Check, d: Check)
    ensures SameNormalForm([c], [d]) <==> Pieces(c) == Pieces(d)
    ensures SameChecks([c], [d]) <==> multiset(c.files) == multiset(d.files)
  {
    EqualExactlyByPieces([c], [d]);
    assert AllPieces([c]) == [Pieces(c)] && AllPieces([d]) == [Pieces(d)];
    assert Pieces(c) in multiset([Pieces(c)]);
    assert FileSets([c]) == [multiset(c.files)] && FileSets([d]) == [multiset(d.files)];
    assert multiset(c.files) in multiset([multiset(c.files)]);
  }

  /** The checks for which the comparison can be trusted: all lists over a set of checks compare equal
      exactly when they are the same, if and only if the pieces tell the checks of the set apart. */
  lemma TrustedExactly(all: iset<Check>)
    ensures (forall a, b :: Over(a, all) && Over(b, all) ==> (SameNormalForm(a, b) <==> SameChecks(a, b))) <==>
            ToldApart(all)
  {
    if ToldApart(all) {
      forall a, b | Over(a, all) && Over(b, all) ensures SameNormalForm(a, b) <==> SameChecks(a, b) {
        ToldApartCompare(all, a, b);
      }
    } else {
      var c, d :| c in all && d in all && Pieces(c) == Pieces(d) && multiset(c.files) != multiset(d.files);
      OneOfEach(c, d);
      assert Over([c], all) && Over([d], all);
    }
  }

  // ---------- Tidy checks ----------

  lemma {:induction false} SplitAllWhole(parts: seq<string>)
    requires forall p :: p in parts ==> '|' !in p
    ensures SplitAll(parts) == parts
  {
    if parts != [] {
      SplitWhole(parts[0], '|');
      SplitAllWhole(parts[1..]);
    }
  }

  /** The pieces of a tidy check are its sorted names. */
  lemma TidyPieces(c: Check)
    requires Tidy(c)
    ensures Pieces(c) == if c.files == [] then [""] else Sort(c.files)
    ensures Sort(c.files) != [""]
  {
    SortedTidy(c);
    SplitAllWhole(Sort(c.files));
  }

  lemma TidyToldApart()
    ensures ToldApart(iset c | Tidy(c))
  {
    forall c, d | Tidy(c) && Tidy(d) && Pieces(c) == Pieces(d) ensures multiset(c.files) == multiset(d.files) {
      TidyPieces(c);
      TidyPieces(d);
      SortDecidesMultiset(c.files, d.files);
    }
  }

  lemma SortedTidy(c: Check)
    requires Tidy(c)
    ensures Tidy(Check(Sort(c.files)))
  {
    SortSorts(c.files);
    var s := Sort(c.files);
    forall f | f in s ensures '|' !in f {
      assert f in multiset(s);
    }
    if s == [""] {
      OnlyElement(c.files, "");
    }
  }

  lemma OnlyElement(s: seq<string>, x: string)
    requires multiset(s) == multiset{x}
    ensures s == [x]
  {
    assert |s| == |multiset(s)|;
    assert s[0] in multiset(s);
  }

  /** The same checks always compare equal. */
  lemma SameChecksCompareEqual(a: seq<Check>, b: seq<Check>)
    requires SameChecks(a, b)
    ensures SameNormalForm(a, b)
  {
    forall i, j | 0 <= i < |a| && 0 <= j < |b| && FileSets(a)[i] == FileSets(b)[j] ensures Texts(a)[i] == Texts(b)[j] {
      SortDecidesMultiset(a[i].files, b[j].files);
    }
    Transfer(FileSets(a), Texts(a), FileSets(b), Texts(b));
    SortDecidesMultiset(Texts(a), Texts(b));
  }

  /** Names without a separator, and no single empty name, are told apart. */
  lemma EqualExactlyWhenSame(a: seq<Check>, b: seq<Check>)
    requires forall c :: c in a || c in b ==> Tidy(c)
    ensures SameNormalForm(a, b) <==> SameChecks(a, b)
  {
    TidyToldApart();
    ToldApartCompare((iset c | Tidy(c)), a, b);
  }

  /** A name with a separator may compare equal to its pieces, and a single empty name to no name. */
  lemma UntidyChecksCollide()
    ensures SameNormalForm([Check(["a|b"])], [Check(["a", "b"])])
    ensures !SameChecks([Check(["a|b"])], [Check(["a", "b"])])
    ensures SameNormalForm([Check([])], [Check([""])])
    ensures !SameChecks([Check([])], [Check([""])])
  {
    assert Sort(["a|b"]) == ["a|b"] && Sort(["b"]) == ["b"] && Sort(["a", "b"]) == ["a", "b"] && Sort([""]) == [""];
    assert Join(["a", "b"], '|') == "a|b";
    TextIsPieces(Check(["a|b"]), Check(["a", "b"]));
    TextIsPieces(Check([]), Check([""]));
    OneOfEach(Check(["a|b"]), Check(["a", "b"]));
    OneOfEach(Check([]), Check([""]));
    assert |multiset(["a|b"])| == 1 && |multiset(["a", "b"])| == 2;
    assert |multiset([""])| == 1;
  }

  /** Two pieces come from one name or from two. */
  lemma TwoPieces(s: seq<string>, x: string, y: string)
    requires SplitAll(s) == [x, y]
    ensures |s| == 1 || s == [x, y]
  {
    if |s| >= 2 {
      var rest := SplitAll(s[1..][1..]);
      assert SplitAll(s) == Split(s[0], '|') + (Split(s[1], '|') + rest);
      assert |rest| == 0;
      assert |s| > 2 ==> |Split(s[1..][1..][0], '|')| > 0;
      JoinSplit(s[0], '|');
      JoinSplit(s[1], '|');
    }
  }

  /** ... but a separator alone does no harm: nothing else has the text of this one, because its pieces
      are out of order. */
  lemma SeparatorOutOfOrder(d: Check)
    ensures CheckText(d) == "b|a" <==> multiset(d.files) == multiset{"b|a"}
  {
    var s := Sort(d.files);
    SortSorts(d.files);
    if multiset(d.files) == multiset{"b|a"} {
      OnlyElement(s, "b|a");
    } else if CheckText(d) == "b|a" {
      SplitOutOfOrder();
      SplitJoinAll(s);
      TwoPieces(s, "b", "a");
    }
  }

  lemma SplitOutOfOrder()
    ensures Split("b|a", '|') == ["b", "a"] && !LexLe("b", "a")
  {
    SplitAt("b", "a", '|');
    assert "b" + ['|'] + "a" == "b|a";
    SplitWhole("b", '|');
    SplitWhole("a", '|');
  }
}
