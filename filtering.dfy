/**
 * Filtering, the pure part of renderTable: the filter box's value is trimmed;
 * an empty filter shows every record, otherwise
 * `data.filter((item) => item.char === filterText || item.text.includes(filterText))`.
 * An empty result is rendered as the "no matches" message instead of a table.
 */
module Filtering {
  import opened Units
  import opened Extraction

  /** The predicate passed to `data.filter`. */
  predicate Keep(item: Run, f: seq<Unit>)
    ensures [item.ch] == f ==> Keep(item, f)
    ensures f <= item.text ==> Keep(item, f)
    ensures Keep(item, f) ==> [item.ch] == f || |f| <= |item.text|
  {
    assert f <= item.text ==> OccursAt(item.text, f, 0);
    [item.ch] == f || Contains(item.text, f)
  }

  /** `data.filter(item => Keep(item, f))`: the kept records, in their order in `data`. */
  function FilterRuns(data: seq<Run>, f: seq<Unit>): (r: seq<Run>)
    ensures |r| <= |data|
    ensures forall k :: 0 <= k < |r| ==> Keep(r[k], f)
  {
    if data == [] then []
    else (if Keep(data[0], f) then [data[0]] else []) + FilterRuns(data[1..], f)
  }

  /** `filteredData` for the raw value of the filter box. */
  function Filtered(data: seq<Run>, raw: seq<Unit>): (r: seq<Run>)
    ensures |r| <= |data|
    ensures Trim(raw) != [] ==> forall k :: 0 <= k < |r| ==> Keep(r[k], Trim(raw))
    ensures Trim(raw) == [] ==> r == data
  {
    var f := Trim(raw);
    if f == [] then data else FilterRuns(data, f)
  }

  /** What renderTable leaves in the result area. `Blank` is the area cleared by processPDF. */
  datatype View = Blank | NoMatches | Rows(rows: seq<Run>)

  /** The result area after `renderTable(data)`: the table of the filtered records, or the
      "no matches" message when there are none. */
  function RenderedView(data: seq<Run>, raw: seq<Unit>): (v: View)
    ensures v != Blank
    ensures v == NoMatches <==> Filtered(data, raw) == []
    ensures v.Rows? ==> v.rows == Filtered(data, raw) && |v.rows| > 0
  {
    var rows := Filtered(data, raw);
    if |rows| == 0 then NoMatches else Rows(rows)
  }

  /** `r` is obtained from `d` by deleting elements, keeping the order of the rest. */
  ghost predicate IsSubsequence(r: seq<Run>, d: seq<Run>)
    decreases |d|
  {
    if r == [] then true
    else if d == [] then false
    else (r[0] == d[0] && IsSubsequence(r[1..], d[1..])) || IsSubsequence(r, d[1..])
  }

  /** Filtering keeps the order: it is an order-preserving subsequence. */
  lemma {:induction false} FilterIsSubsequence(data: seq<Run>, f: seq<Unit>)
    ensures IsSubsequence(FilterRuns(data, f), data)
  {
    if data != [] {
      FilterIsSubsequence(data[1..], f);
      var r := FilterRuns(data, f);
      if Keep(data[0], f) {
        assert r[0] == data[0] && r[1..] == FilterRuns(data[1..], f);
      } else {
        assert r == FilterRuns(data[1..], f);
      }
    }
  }

  /** The kept records are exactly those the predicate accepts, each as often as in `data`. */
  lemma {:induction false} FilterCounts(data: seq<Run>, f: seq<Unit>, x: Run)
    ensures multiset(FilterRuns(data, f))[x] == if Keep(x, f) then multiset(data)[x] else 0
  {
    if data != [] {
      FilterCounts(data[1..], f, x);
      assert data == [data[0]] + data[1..];
    }
  }

  /** Filtering distributes over concatenation: the kept records of `a` precede those of `b`. */
  lemma {:induction false} FilterAppend(a: seq<Run>, b: seq<Run>, f: seq<Unit>)
    ensures FilterRuns(a + b, f) == FilterRuns(a, f) + FilterRuns(b, f)
  {
    if a != [] {
      FilterAppend(a[1..], b, f);
      var head := if Keep(a[0], f) then [a[0]] else [];
      assert (a + b)[0] == a[0] && (a + b)[1..] == a[1..] + b;
      assert FilterRuns(a + b, f) == head + FilterRuns(a[1..] + b, f);
      assert FilterRuns(a, f) == head + FilterRuns(a[1..], f);
    } else {
      assert a + b == b;
    }
  }

  /** Filtering a filtered list again with the same filter changes nothing. */
  lemma {:induction false} FilterIdempotent(data: seq<Run>, f: seq<Unit>)
    ensures FilterRuns(FilterRuns(data, f), f) == FilterRuns(data, f)
  {
    if data != [] {
      FilterIdempotent(data[1..], f);
      var r := FilterRuns(data, f);
      if Keep(data[0], f) {
        assert r[0] == data[0] && r[1..] == FilterRuns(data[1..], f);
        assert FilterRuns(r, f) == [r[0]] + FilterRuns(r[1..], f);
      } else {
        assert r == FilterRuns(data[1..], f);
      }
    }
  }

  /** Since a record's text starts with its char, the `item.char === filterText` test adds
      nothing: for a non-empty filter, a well-formed record is kept exactly when its text
      contains the filter. */
  lemma KeepIsContainment(item: Run, f: seq<Unit>)
    requires WellFormed(item) && f != []
    ensures Keep(item, f) <==> Contains(item.text, f)
  {
    if [item.ch] == f {
      assert item.text[0..1] == f;
      assert OccursAt(item.text, f, 0);
    }
  }

  /** What the user sees: with a blank filter, the data unchanged; otherwise exactly the
      records kept by the trimmed filter, each as often as in the data, and in their order. */
  lemma FilteredMeaning(data: seq<Run>, raw: seq<Unit>)
    ensures Trim(raw) == [] ==> Filtered(data, raw) == data
    ensures Trim(raw) != [] ==>
      && IsSubsequence(Filtered(data, raw), data)
      && forall x :: multiset(Filtered(data, raw))[x] == if Keep(x, Trim(raw)) then multiset(data)[x] else 0
    ensures (forall k :: 0 <= k < |raw| ==> IsTrimmable(raw[k])) ==> Filtered(data, raw) == data
  {
    TrimEmptyIff(raw);
    FilterIsSubsequence(data, Trim(raw));
    forall x ensures multiset(Filtered(data, raw))[x] == if Keep(x, Trim(raw)) then multiset(data)[x] else 0 {
      if Trim(raw) != [] {
        FilterCounts(data, Trim(raw), x);
      }
    }
  }

  /** Applying the same filter to its own output gives the same rows. */
  lemma FilteredIdempotent(data: seq<Run>, raw: seq<Unit>)
    ensures Filtered(Filtered(data, raw), raw) == Filtered(data, raw)
  {
    FilterIdempotent(data, Trim(raw));
  }
}
