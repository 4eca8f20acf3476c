/**
 * Ranking: `masterData.sort((a, b) => b.length - a.length)`.
 *
 * ECMA-262 requires `Array.prototype.sort` to be stable, so the comparator
 * fixes the result completely: longest runs first, and runs of equal length
 * in the order they were found. The model is a stable insertion sort;
 * `StableSortIsUnique` shows that any stable sort yields the same sequence.
 */
module Ranking {
  import opened Extraction

  /** Places `r` in front of the first element of `t` that is not longer than it. */
  function Insert(r: Run, t: seq<Run>): (u: seq<Run>)
    ensures multiset(u) == multiset(t) + multiset{r}
  {
    if t == [] || t[0].length <= r.length then [r] + t
    else
      assert t == [t[0]] + t[1..];
      [t[0]] + Insert(r, t[1..])
  }

  /** The array after the in-place sort with comparator `b.length - a.length`. */
  function SortByLength(s: seq<Run>): (t: seq<Run>)
    ensures multiset(t) == multiset(s)
  {
    if s == [] then []
    else
      assert s == [s[0]] + s[1..];
      Insert(s[0], SortByLength(s[1..]))
  }

  /** Lengths never increase from left to right. */
  ghost predicate NonIncreasing(t: seq<Run>)
  {
    forall i, j :: 0 <= i < j < |t| ==> t[i].length >= t[j].length
  }

  /** The records of length `n`, in their order in `t`. */
  function OfLength(t: seq<Run>, n: nat): seq<Run>
  {
    if t == [] then [] else (if t[0].length == n then [t[0]] else []) + OfLength(t[1..], n)
  }

  /** Inserting into a non-increasing sequence keeps it non-increasing. */
  lemma {:induction false} InsertNonIncreasing(r: Run, t: seq<Run>)
    requires NonIncreasing(t)
    ensures NonIncreasing(Insert(r, t))
    decreases |t|
  {
    if t != [] && t[0].length > r.length {
      InsertNonIncreasing(r, t[1..]);
      var u := Insert(r, t);
      assert u == [t[0]] + Insert(r, t[1..]);
      forall j | 1 <= j < |u| ensures u[0].length >= u[j].length {
        assert u[j] in multiset(Insert(r, t[1..]));
        assert u[j] in multiset(t[1..]) + multiset{r};
      }
    }
  }

  /** The records of length `n` in `[x] + u`: `x` if it has that length, then those of `u`. */
  lemma OfLengthCons(x: Run, u: seq<Run>, n: nat)
    ensures OfLength([x] + u, n) == (if x.length == n then [x] else []) + OfLength(u, n)
  {
    assert ([x] + u)[1..] == u;
  }

  /** Inserting `r` puts it in front of the records of its own length. */
  lemma {:induction false} InsertOfLength(r: Run, t: seq<Run>, n: nat)
    ensures OfLength(Insert(r, t), n) == if r.length == n then [r] + OfLength(t, n) else OfLength(t, n)
    decreases |t|
  {
    if t != [] && t[0].length > r.length {
      InsertOfLength(r, t[1..], n);
      OfLengthCons(t[0], Insert(r, t[1..]), n);
      OfLengthCons(t[0], t[1..], n);
      assert t == [t[0]] + t[1..];
    } else {
      OfLengthCons(r, t, n);
    }
  }

  /** After the sort, lengths are non-increasing. */
  lemma {:induction false} SortIsNonIncreasing(s: seq<Run>)
    ensures NonIncreasing(SortByLength(s))
  {
    if s != [] {
      SortIsNonIncreasing(s[1..]);
      InsertNonIncreasing(s[0], SortByLength(s[1..]));
    }
  }

  /** The sort is stable: for every length, the records of that length keep their relative order. */
  lemma {:induction false} SortIsStable(s: seq<Run>, n: nat)
    ensures OfLength(SortByLength(s), n) == OfLength(s, n)
  {
    if s != [] {
      SortIsStable(s[1..], n);
      InsertOfLength(s[0], SortByLength(s[1..]), n);
    }
  }

  /** The records of length `n` are the members of `t` of that length. */
  lemma {:induction false} OfLengthMember(t: seq<Run>, n: nat, x: Run)
    ensures x in OfLength(t, n) <==> x in t && x.length == n
  {
    if t != [] {
      OfLengthMember(t[1..], n, x);
    }
  }

  /** A non-increasing sequence whose records of each length are those of `s`, in the same
      order, is the sorted `s`: every stable sort with this comparator gives the same result. */
  lemma {:induction false} StableSortIsUnique(s: seq<Run>, t: seq<Run>)
    requires NonIncreasing(t)
    requires forall n: nat :: OfLength(t, n) == OfLength(s, n)
    ensures t == SortByLength(s)
  {
    var u := SortByLength(s);
    SortIsNonIncreasing(s);
    forall n: nat ensures OfLength(t, n) == OfLength(u, n) {
      SortIsStable(s, n);
    }
    SameKeysEqual(t, u);
  }

  /** Two non-increasing sequences with the same records of each length, in the same order, are equal. */
  lemma {:induction false} SameKeysEqual(t: seq<Run>, u: seq<Run>)
    requires NonIncreasing(t) && NonIncreasing(u)
    requires forall n: nat :: OfLength(t, n) == OfLength(u, n)
    ensures t == u
    decreases |t|
  {
    if t != [] {
      assert OfLength(u, t[0].length) == OfLength(t, t[0].length) != [];
    }
    if u != [] {
      assert OfLength(t, u[0].length) == OfLength(u, u[0].length) != [];
    }
    if t != [] {
      var a, b := t[0].length, u[0].length;
      assert t[0] in OfLength(t, a);
      OfLengthMember(u, a, t[0]);
      assert u[0] in OfLength(u, b);
      OfLengthMember(t, b, u[0]);
      var i :| 0 <= i < |u| && u[i] == t[0];
      var j :| 0 <= j < |t| && t[j] == u[0];
      assert a == b;
      assert OfLength(t, a)[0] == t[0] && OfLength(u, a)[0] == u[0];
      forall n: nat ensures OfLength(t[1..], n) == OfLength(u[1..], n) {
        assert OfLength(t, n) == OfLength(u, n);
        if n == a {
          assert OfLength(t, n) == [t[0]] + OfLength(t[1..], n);
          assert OfLength(u, n) == [u[0]] + OfLength(u[1..], n);
          assert OfLength(t[1..], n) == OfLength(t, n)[1..];
          assert OfLength(u[1..], n) == OfLength(u, n)[1..];
        } else {
          assert OfLength(t, n) == OfLength(t[1..], n);
          assert OfLength(u, n) == OfLength(u[1..], n);
        }
      }
      SameKeysEqual(t[1..], u[1..]);
      assert t == [t[0]] + t[1..] && u == [u[0]] + u[1..];
    }
  }
}
