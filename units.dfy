/**
 * JavaScript strings as the script sees them: sequences of UTF-16 code units.
 * The module also holds the two string operations the filter relies on,
 * `String.prototype.trim` and `String.prototype.includes`.
 */
module Units {

  /** One UTF-16 code unit: what `s[i]`, `s.length` and a regex without the `u` flag see. */
  newtype Unit = x: int | 0 <= x < 0x1_0000

  /** The ECMAScript LineTerminator code points: LF, CR, LINE SEPARATOR and PARAGRAPH SEPARATOR.
      A regex `.` without the `s` flag matches every unit except these. */
  predicate IsLineTerminator(u: Unit)
  {
    u == 0x000A || u == 0x000D || u == 0x2028 || u == 0x2029
  }

  /** The ECMAScript WhiteSpace code points: TAB, VT, FF, ZWNBSP and the space separators (category Zs). */
  predicate IsWhiteSpace(u: Unit)
  {
    || u == 0x0009 || u == 0x000B || u == 0x000C || u == 0xFEFF
    || u == 0x0020 || u == 0x00A0 || u == 0x1680 || (0x2000 <= u <= 0x200A)
    || u == 0x202F || u == 0x205F || u == 0x3000
  }

  /** What `trim` strips from both ends: WhiteSpace and LineTerminator. */
  predicate IsTrimmable(u: Unit)
  {
    IsWhiteSpace(u) || IsLineTerminator(u)
  }

  /** `s` without its leading trimmable units: a suffix of `s` that does not start with one. */
  function TrimStart(s: seq<Unit>): (r: seq<Unit>)
    ensures |r| <= |s| && r == s[|s| - |r|..]
    ensures forall k :: 0 <= k < |s| - |r| ==> IsTrimmable(s[k])
    ensures |r| > 0 ==> !IsTrimmable(r[0])
  {
    if |s| > 0 && IsTrimmable(s[0]) then TrimStart(s[1..]) else s
  }

  /** `s` without its trailing trimmable units: a prefix of `s` that does not end with one. */
  function TrimEnd(s: seq<Unit>): (r: seq<Unit>)
    ensures |r| <= |s| && r == s[..|r|]
    ensures forall k :: |r| <= k < |s| ==> IsTrimmable(s[k])
    ensures |r| > 0 ==> !IsTrimmable(r[|r| - 1])
  {
    if |s| > 0 && IsTrimmable(s[|s| - 1]) then TrimEnd(s[..|s| - 1]) else s
  }

  /** `String.prototype.trim`: a part of `s` that neither starts nor ends with a trimmable unit. */
  function Trim(s: seq<Unit>): (r: seq<Unit>)
    ensures |r| <= |s|
    ensures |r| > 0 ==> !IsTrimmable(r[0]) && !IsTrimmable(r[|r| - 1])
  {
    TrimEnd(TrimStart(s))
  }

  /** `Trim(s)` is the slice `s[a..b]`, everything outside it is trimmable, and its ends are not. */
  lemma TrimIsSlice(s: seq<Unit>) returns (a: nat, b: nat)
    ensures a <= b <= |s| && Trim(s) == s[a..b]
    ensures forall k :: 0 <= k < a ==> IsTrimmable(s[k])
    ensures forall k :: b <= k < |s| ==> IsTrimmable(s[k])
    ensures a < b ==> !IsTrimmable(s[a]) && !IsTrimmable(s[b - 1])
  {
    var t := TrimStart(s);
    a := |s| - |t|;
    b := a + |TrimEnd(t)|;
    assert t == s[a..];
    forall k | b <= k < |s| ensures IsTrimmable(s[k]) {
      assert s[k] == t[k - a];
    }
  }

  /** The trimmed filter is empty exactly when every unit of the input is trimmable. */
  lemma TrimEmptyIff(s: seq<Unit>)
    ensures Trim(s) == [] <==> forall k :: 0 <= k < |s| ==> IsTrimmable(s[k])
  {
    var a, b := TrimIsSlice(s);
    if Trim(s) != [] {
      assert !IsTrimmable(s[a]);
    }
  }

  /** Trimming twice is trimming once. */
  lemma TrimIdempotent(s: seq<Unit>)
    ensures Trim(Trim(s)) == Trim(s)
  {
    var t := Trim(s);
    if t != [] {
      var a, b := TrimIsSlice(s);
      assert !IsTrimmable(t[0]) && !IsTrimmable(t[|t| - 1]);
    }
  }

  /** `sub` occurs in `text` at offset `k`. */
  ghost predicate OccursAt(text: seq<Unit>, sub: seq<Unit>, k: int)
  {
    0 <= k && k + |sub| <= |text| && text[k..k + |sub|] == sub
  }

  /** `text.includes(sub)`: `sub` occurs somewhere in `text` (the empty string occurs everywhere). */
  function Contains(text: seq<Unit>, sub: seq<Unit>): (r: bool)
    ensures r <==> exists k :: OccursAt(text, sub, k)
    decreases |text|
  {
    if |sub| <= |text| && text[..|sub|] == sub then
      assert OccursAt(text, sub, 0);
      true
    else if |text| <= |sub| then
      assert forall k :: !OccursAt(text, sub, k);
      false
    else
      var rest := Contains(text[1..], sub);
      assert forall k :: 1 <= k ==> (OccursAt(text, sub, k) <==> OccursAt(text[1..], sub, k - 1)) by {
        forall k | 1 <= k ensures OccursAt(text, sub, k) <==> OccursAt(text[1..], sub, k - 1) {
          OccursShift(text, sub, k);
        }
      }
      assert !OccursAt(text, sub, 0);
      if rest then
        assert exists k :: OccursAt(text, sub, k) by {
          var j :| OccursAt(text[1..], sub, j);
          assert OccursAt(text, sub, j + 1);
        }
        true
      else
        false
  }

  /** An occurrence at `k >= 1` in `text` is an occurrence at `k - 1` in its tail. */
  lemma OccursShift(text: seq<Unit>, sub: seq<Unit>, k: int)
    requires 1 <= k && |text| > 0
    ensures OccursAt(text, sub, k) <==> OccursAt(text[1..], sub, k - 1)
  {
    if k + |sub| <= |text| {
      assert text[k..k + |sub|] == text[1..][k - 1..k - 1 + |sub|];
    }
  }
}
