/**
 * Run extraction: the `while ((match = regex.exec(pageText)) !== null)` loop of
 * processPDF over the global regex `/(.)\1+/g`.
 *
 * The pattern is `(.)` followed by a greedy `\1+`, with neither the `s` nor the
 * `u` flag: `.` is any UTF-16 code unit but a line terminator, and each match is
 * a unit followed by as many copies of it as there are. A match reported from
 * `lastIndex` is the leftmost one that starts at or after it; `exec` then sets
 * `lastIndex` to the end of the match.
 */
module Extraction {
  import opened Units
  import opened Options

  /** The record pushed for each match: `{char: match[0][0], text: match[0], length: match[0].length}`. */
  datatype Run = Run(ch: Unit, text: seq<Unit>, length: nat)

  /** What every record satisfies: two or more copies of `ch`, and `length` is the length of `text`. */
  predicate WellFormed(r: Run)
  {
    r.length >= 2 && |r.text| == r.length && forall k :: 0 <= k < |r.text| ==> r.text[k] == r.ch
  }

  /** The position of a match in the page: units `start` up to, not including, `end`. */
  datatype Span = Span(start: nat, end: nat)

  /** `(.)\1+` can match at `p`: a unit other than a line terminator, followed by the same unit. */
  predicate MatchesAt(s: seq<Unit>, p: nat)
  {
    p + 1 < |s| && !IsLineTerminator(s[p]) && s[p + 1] == s[p]
  }

  /** Where the greedy `\1+` of a match at `p` stops, once it has got as far as `q`:
      the first position at or after `q` that does not hold `s[p]`. */
  function RunEnd(s: seq<Unit>, p: nat, q: nat): (e: nat)
    requires p < q <= |s|
    requires forall k :: p <= k < q ==> s[k] == s[p]
    ensures q <= e <= |s|
    ensures forall k :: p <= k < e ==> s[k] == s[p]
    ensures e < |s| ==> s[e] != s[p]
    decreases |s| - q
  {
    if q < |s| && s[q] == s[p] then RunEnd(s, p, q + 1) else q
  }

  /** A maximal block of two or more copies of one unit that is not a line terminator:
      the unit before it and the unit after it, where they exist, are different. */
  ghost predicate IsMaximalRun(s: seq<Unit>, sp: Span)
  {
    && sp.start + 2 <= sp.end <= |s|
    && !IsLineTerminator(s[sp.start])
    && (forall k :: sp.start <= k < sp.end ==> s[k] == s[sp.start])
    && (sp.end < |s| ==> s[sp.end] != s[sp.start])
    && (sp.start > 0 ==> s[sp.start - 1] != s[sp.start])
  }

  /** `regex.exec(s)` with `regex.lastIndex == from`: the leftmost match starting at or after `from`,
      extended greedily, or nothing when no position from `from` on can start one. */
  function NextMatch(s: seq<Unit>, from: nat): (m: Option<Span>)
    ensures m.None? <==> forall p :: from <= p < |s| ==> !MatchesAt(s, p)
    ensures m.Some? ==>
      && from <= m.value.start
      && MatchesAt(s, m.value.start)
      && (forall p :: from <= p < m.value.start ==> !MatchesAt(s, p))
      && m.value.start + 2 <= m.value.end <= |s|
      && (forall k :: m.value.start <= k < m.value.end ==> s[k] == s[m.value.start])
      && (m.value.end < |s| ==> s[m.value.end] != s[m.value.start])
      && (m.value.start > from ==> s[m.value.start - 1] != s[m.value.start])
    decreases |s| - from
  {
    if from + 1 >= |s| then None
    else if MatchesAt(s, from) then Some(Span(from, RunEnd(s, from, from + 2)))
    else NextMatch(s, from + 1)
  }

  /** The spans of the matches the exec loop reports once `lastIndex` is `from`, in the order reported. */
  function Spans(s: seq<Unit>, from: nat): (sps: seq<Span>)
    requires from <= |s|
    ensures forall k :: 0 <= k < |sps| ==> from <= sps[k].start && sps[k].start + 2 <= sps[k].end <= |s|
    decreases |s| - from
  {
    match NextMatch(s, from)
    case None => []
    case Some(sp) => [sp] + Spans(s, sp.end)
  }

  /** The record built from one match. */
  function RunOf(s: seq<Unit>, sp: Span): (r: Run)
    requires sp.start < sp.end <= |s|
    ensures r.text == s[sp.start..sp.end] && r.length == |r.text| && r.ch == r.text[0]
    ensures IsMaximalRun(s, sp) ==> WellFormed(r) && !IsLineTerminator(r.ch)
  {
    Run(s[sp.start], s[sp.start..sp.end], sp.end - sp.start)
  }

  /** The records built from a list of matches, in the same order. */
  function Records(s: seq<Unit>, sps: seq<Span>): (rs: seq<Run>)
    requires forall k :: 0 <= k < |sps| ==> sps[k].start < sps[k].end <= |s|
    ensures |rs| == |sps|
    ensures forall k :: 0 <= k < |sps| ==> rs[k] == RunOf(s, sps[k])
  {
    if sps == [] then []
    else
      var rest := Records(s, sps[1..]);
      assert forall k :: 1 <= k < |sps| ==> rest[k - 1] == RunOf(s, sps[k]);
      [RunOf(s, sps[0])] + rest
  }

  /** The records one page contributes to `masterData`, in the order they are pushed. */
  function PageRuns(s: seq<Unit>): (rs: seq<Run>)
    ensures forall k :: 0 <= k < |rs| ==> WellFormed(rs[k]) && !IsLineTerminator(rs[k].ch)
  {
    SpansAreMaximalRuns(s);
    Records(s, Spans(s, 0))
  }

  /** The total of the `length` fields of a list of records. */
  function SumLengths(rs: seq<Run>): nat
  {
    if rs == [] then 0 else rs[0].length + SumLengths(rs[1..])
  }

  /** One call of `regex.exec(s)` with `regex.lastIndex == lastIndex`: scan for a start position,
      then extend the greedy `\1+`. */
  method Exec(s: seq<Unit>, lastIndex: nat) returns (m: Option<Span>)
    ensures m == NextMatch(s, lastIndex)
  {
    var p := lastIndex;
    while p < |s| && !MatchesAt(s, p)
      invariant lastIndex <= p
      invariant NextMatch(s, p) == NextMatch(s, lastIndex)
      decreases |s| - p
    {
      p := p + 1;
    }
    if p >= |s| {
      return None;
    }
    var q := p + 2;
    while q < |s| && s[q] == s[p]
      invariant p + 2 <= q <= |s|
      invariant forall k :: p <= k < q ==> s[k] == s[p]
      invariant RunEnd(s, p, q) == RunEnd(s, p, p + 2)
      decreases |s| - q
    {
      q := q + 1;
    }
    m := Some(Span(p, q));
  }

  // ---------------------------------------------------------------------------
  // Properties of the reported matches

  /** Boundary condition on `lastIndex`: it does not split a block of equal units. */
  ghost predicate AtBoundary(s: seq<Unit>, from: nat)
  {
    from == 0 || from >= |s| || s[from - 1] != s[from]
  }

  /** From a boundary on, every reported match is a maximal block. */
  lemma {:induction false} SpansFromAreMaximal(s: seq<Unit>, from: nat)
    requires from <= |s| && AtBoundary(s, from)
    ensures forall k :: 0 <= k < |Spans(s, from)| ==> IsMaximalRun(s, Spans(s, from)[k])
    decreases |s| - from
  {
    match NextMatch(s, from)
    case None =>
    case Some(sp) =>
      assert IsMaximalRun(s, sp);
      SpansFromAreMaximal(s, sp.end);
  }

  /** Every match reported on a page is a maximal block of two or more copies of one unit,
      and that unit is not a line terminator. */
  lemma SpansAreMaximalRuns(s: seq<Unit>)
    ensures forall k :: 0 <= k < |Spans(s, 0)| ==> IsMaximalRun(s, Spans(s, 0)[k])
  {
    SpansFromAreMaximal(s, 0);
  }

  /** Matches are reported left to right and do not overlap. */
  lemma {:induction false} SpansOrdered(s: seq<Unit>, from: nat)
    requires from <= |s|
    ensures forall i, j :: 0 <= i < j < |Spans(s, from)| ==> Spans(s, from)[i].end <= Spans(s, from)[j].start
    decreases |s| - from
  {
    match NextMatch(s, from)
    case None =>
    case Some(sp) =>
      SpansOrdered(s, sp.end);
      var sps := Spans(s, from);
      assert sps == [sp] + Spans(s, sp.end);
      forall i, j | 0 <= i < j < |sps| ensures sps[i].end <= sps[j].start {
        if i > 0 {
          assert sps[i] == Spans(s, sp.end)[i - 1] && sps[j] == Spans(s, sp.end)[j - 1];
        } else {
          assert sps[j] == Spans(s, sp.end)[j - 1];
        }
      }
  }

  /** Completeness: every pair of adjacent equal units other than line terminators at or after
      `from` lies inside one reported match. */
  lemma {:induction false} SpansCover(s: seq<Unit>, from: nat, p: nat)
    requires from <= p && p + 1 < |s| && s[p + 1] == s[p] && !IsLineTerminator(s[p])
    ensures exists k :: 0 <= k < |Spans(s, from)| && Spans(s, from)[k].start <= p && p + 1 < Spans(s, from)[k].end
    decreases |s| - from
  {
    assert MatchesAt(s, p);
    var sp := NextMatch(s, from).value;
    var sps := Spans(s, from);
    assert sps == [sp] + Spans(s, sp.end);
    if p < sp.end {
      assert sps[0].start <= p && p + 1 < sps[0].end;
    } else {
      SpansCover(s, sp.end, p);
      var k :| 0 <= k < |Spans(s, sp.end)| && Spans(s, sp.end)[k].start <= p && p + 1 < Spans(s, sp.end)[k].end;
      assert sps[k + 1] == Spans(s, sp.end)[k];
    }
  }

  /** The records reported from `from` on fit in the rest of the page. */
  lemma {:induction false} SumLengthsFrom(s: seq<Unit>, from: nat)
    requires from <= |s|
    ensures SumLengths(Records(s, Spans(s, from))) <= |s| - from
    decreases |s| - from
  {
    match NextMatch(s, from)
    case None =>
    case Some(sp) =>
      SumLengthsFrom(s, sp.end);
      var sps := Spans(s, from);
      assert sps[1..] == Spans(s, sp.end);
  }

  /** The records of a page fit in it: their lengths add up to at most the page length,
      and an empty page yields no records. */
  lemma PageRunsFit(s: seq<Unit>)
    ensures SumLengths(PageRuns(s)) <= |s|
    ensures |s| == 0 ==> PageRuns(s) == []
  {
    SumLengthsFrom(s, 0);
  }

  /** Every record of a page is well formed, never made of a line terminator, and is the text
      of a maximal block of the page. A page with no two adjacent equal non-terminator units
      yields no records, and one that has such a pair yields at least one. */
  lemma PageRunsWellFormed(s: seq<Unit>)
    ensures forall r :: r in PageRuns(s) ==> WellFormed(r) && !IsLineTerminator(r.ch)
    ensures PageRuns(s) == [] <==> forall p :: 0 <= p < |s| ==> !MatchesAt(s, p)
  {
    SpansAreMaximalRuns(s);
    var sps := Spans(s, 0);
    forall r | r in PageRuns(s) ensures WellFormed(r) && !IsLineTerminator(r.ch) {
      var k :| 0 <= k < |sps| && PageRuns(s)[k] == r;
      assert IsMaximalRun(s, sps[k]);
    }
  }

  /** A page made of `n >= 2` copies of one unit yields a single record of the whole page,
      unless the unit is a line terminator, in which case it yields none: every other unit,
      spaces, digits and punctuation included, can form a run. */
  lemma RepeatedUnitPage(u: Unit, n: nat)
    requires n >= 2
    ensures PageRuns(seq(n, _ => u)) == if IsLineTerminator(u) then [] else [Run(u, seq(n, _ => u), n)]
  {
    var s := seq(n, _ => u);
    if !IsLineTerminator(u) {
      assert MatchesAt(s, 0);
      var sp := NextMatch(s, 0).value;
      assert sp == Span(0, n);
      assert Spans(s, n) == [];
      assert Spans(s, 0) == [sp];
      assert s[0..n] == s;
    }
  }
}
