/**
 * A two-page document, worked through: page 1 reads `xx`, page 2 reads `yyy`.
 */
module SessionExamples {
  import opened Units
  import opened Extraction
  import opened Ranking
  import opened Filtering
  import opened Session

  const X2: seq<Unit> := [0x78, 0x78]
  const Y3: seq<Unit> := [0x79, 0x79, 0x79]
  const XX: Run := Run(0x78, X2, 2)
  const YYY: Run := Run(0x79, Y3, 3)

  /** Each page yields its one run, and the document yields them in page order. */
  lemma TwoPagesFound()
    ensures DocumentRuns([Loaded(X2), Loaded(Y3)]) == [XX, YYY]
  {
    RepeatedUnitPage(0x78, 2);
    RepeatedUnitPage(0x79, 3);
    assert seq(2, _ => 0x78 as Unit) == X2;
    assert seq(3, _ => 0x79 as Unit) == Y3;
    assert PageRuns(X2) == [XX] && PageRuns(Y3) == [YYY];
    var pages := [Loaded(X2), Loaded(Y3)];
    var first := pages[..1];
    assert first == [Loaded(X2)] && first[..0] == [];
    assert DocumentRuns(first) == DocumentRuns([]) + PageRuns(X2) == [XX];
    assert pages[..|pages| - 1] == first;
    assert DocumentRuns(pages) == DocumentRuns(first) + PageRuns(Y3);
  }

  /** Ranking puts `yyy` before `xx`. */
  lemma TwoPagesRanked()
    ensures SortByLength(DocumentRuns([Loaded(X2), Loaded(Y3)])) == [YYY, XX]
  {
    TwoPagesFound();
    var d := [XX, YYY];
    assert d[1..] == [YYY] && [YYY][1..] == [];
    assert SortByLength([YYY]) == Insert(YYY, []) == [YYY];
    assert Insert(XX, [YYY]) == [YYY] + Insert(XX, []);
    assert SortByLength(d) == Insert(XX, SortByLength([YYY]));
  }

  /** A text made of one unit does not contain any other unit. */
  lemma LacksOtherUnit(text: seq<Unit>, c: Unit, u: Unit)
    requires forall k :: 0 <= k < |text| ==> text[k] == c
    requires u != c
    ensures !Contains(text, [u])
  {
    forall k | 0 <= k < |text| ensures !OccursAt(text, [u], k) {
      assert text[k..k + 1][0] == text[k];
    }
  }

  /** Filtering the ranked data by `y` keeps only `yyy`. */
  lemma FilterByY()
    ensures Filtered([YYY, XX], [0x79]) == [YYY]
  {
    var y: seq<Unit> := [0x79];
    assert !IsTrimmable(y[0]);
    assert TrimStart(y) == y && TrimEnd(y) == y;
    assert Keep(YYY, y);
    LacksOtherUnit(X2, 0x78, 0x79);
    assert !Keep(XX, y);
    assert [YYY, XX][1..] == [XX] && [XX][1..] == [];
    assert FilterRuns([XX], y) == [];
    assert FilterRuns([YYY, XX], y) == [YYY];
  }

  /** Filtering the ranked data by `z` keeps nothing: the "no matches" view. */
  lemma FilterByZ()
    ensures RenderedView([YYY, XX], [0x7A]) == NoMatches
  {
    var z: seq<Unit> := [0x7A];
    assert !IsTrimmable(z[0]);
    assert TrimStart(z) == z && TrimEnd(z) == z;
    LacksOtherUnit(Y3, 0x79, 0x7A);
    LacksOtherUnit(X2, 0x78, 0x7A);
    assert !Keep(YYY, z) && !Keep(XX, z);
    assert [YYY, XX][1..] == [XX] && [XX][1..] == [];
    assert FilterRuns([XX], z) == [];
    assert FilterRuns([YYY, XX], z) == [];
    assert Filtered([YYY, XX], z) == [];
  }
}
