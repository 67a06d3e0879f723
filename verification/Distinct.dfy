/** The final-row distinctness checks: sort, then look for equal neighbours. */
module DistinctCheck {
  import opened Equihash
  import opened Words

  ghost predicate Ascending(s: seq<nat>) {
    forall i, j :: 0 <= i < j < |s| ==> s[i] <= s[j]
  }

  /** Equal neighbours in a sorted list betray any duplicate of the list it was sorted from. */
  lemma NeighboursDecide(s: seq<nat>, sorted: seq<nat>)
    requires multiset(sorted) == multiset(s) && Ascending(sorted)
    ensures (forall i :: 0 < i < |sorted| ==> sorted[i - 1] != sorted[i]) <==> Distinct(s)
  {
    DistinctIffOnce(s);
    DistinctIffOnce(sorted);
    if forall i :: 0 < i < |sorted| ==> sorted[i - 1] != sorted[i] {
      forall i, j | 0 <= i < j < |sorted| ensures sorted[i] != sorted[j] {
        assert sorted[j - 1] != sorted[j];
      }
    }
  }

  lemma {:induction false} DistinctIffOnce(s: seq<nat>)
    ensures Distinct(s) <==> forall x :: multiset(s)[x] <= 1
  {
    if s != [] {
      var rest := s[1..];
      DistinctIffOnce(rest);
      assert s == [s[0]] + rest;
      assert multiset(s) == multiset{s[0]} + multiset(rest);
      if Distinct(s) {
        forall i, j | 0 <= i < j < |rest| ensures rest[i] != rest[j] {
          assert s[i + 1] != s[j + 1];
        }
        forall j | 0 <= j < |rest| ensures rest[j] != s[0] {
          assert s[0] != s[j + 1];
        }
      }
      if forall x :: multiset(s)[x] <= 1 {
        forall x ensures multiset(rest)[x] <= 1 {
          assert multiset(s)[x] <= 1;
        }
        assert multiset(s)[s[0]] <= 1;
        assert s[0] !in rest;
        forall i, j | 0 <= i < j < |s| ensures s[i] != s[j] {
          assert s[j] == rest[j - 1];
          if i > 0 {
            assert s[i] == rest[i - 1];
          }
        }
      }
    }
  }

  const FINAL_INDICES: nat := 32

  /** Insertion sort in place: the kernel's own sort, standing for `sort_unstable` on the CPU. */
  method InsertionSort(a: array<u32>)
    requires a.Length == FINAL_INDICES
    modifies a
    ensures multiset(a[..]) == old(multiset(a[..]))
    ensures Ascending(a[..])
  {
    for i := 1 to FINAL_INDICES
      invariant multiset(a[..]) == old(multiset(a[..]))
      invariant Ascending(a[..i])
    {
      InsertBack(a, i);
    }
    assert a[..FINAL_INDICES] == a[..];
  }

  /** The inner loop: lift `a[i]` out, shift the larger ones up, drop it into the gap. */
  method InsertBack(a: array<u32>, i: nat)
    requires 0 < i < a.Length && Ascending(a[..i])
    modifies a
    ensures multiset(a[..]) == old(multiset(a[..]))
    ensures Ascending(a[..i + 1])
  {
    ghost var s := a[..];
    var key := a[i];
    var at := ShiftUp(a, i);
    a[at] := key;
    Shifted(s, i, at, a[..]);
    Inserted(s, i, at, a[..]);
  }

  method ShiftUp(a: array<u32>, i: nat) returns (at: nat)
    requires 0 < i < a.Length
    modifies a
    ensures at <= i
    ensures forall m :: 0 <= m < at ==> a[m] == old(a[m])
    ensures forall m :: at + 1 <= m <= i ==> a[m] == old(a[m - 1])
    ensures forall m :: i < m < a.Length ==> a[m] == old(a[m])
    ensures forall m :: at <= m < i ==> old(a[m]) > old(a[i])
    ensures at > 0 ==> old(a[at - 1]) <= old(a[i])
  {
    var key := a[i];
    var j: int := i - 1;
    while j >= 0 && a[j] > key
      invariant -1 <= j < i
      invariant forall m :: 0 <= m <= j ==> a[m] == old(a[m])
      invariant forall m :: j + 2 <= m <= i ==> a[m] == old(a[m - 1])
      invariant forall m :: i < m < a.Length ==> a[m] == old(a[m])
      invariant forall m :: j < m < i ==> old(a[m]) > key
    {
      a[j + 1] := a[j];
      j := j - 1;
    }
    at := j + 1;
  }

  lemma Shifted(s: seq<u32>, i: nat, at: nat, t: seq<u32>)
    requires at <= i < |s| == |t| && t[at] == s[i]
    requires forall m :: 0 <= m < at ==> t[m] == s[m]
    requires forall m :: at + 1 <= m <= i ==> t[m] == s[m - 1]
    requires forall m :: i < m < |s| ==> t[m] == s[m]
    ensures t == s[..at] + [s[i]] + s[at..i] + s[i + 1..]
  {}

  /** Moving element `i` down to position `at`, below the larger ones, keeps the elements and the order. */
  lemma Inserted(s: seq<u32>, i: nat, at: nat, t: seq<u32>)
    requires at <= i < |s| == |t| && Ascending(s[..i])
    requires t == s[..at] + [s[i]] + s[at..i] + s[i + 1..]
    requires at > 0 ==> s[at - 1] <= s[i]
    requires forall m :: at <= m < i ==> s[m] > s[i]
    ensures multiset(t) == multiset(s)
    ensures Ascending(t[..i + 1])
  {
    MovedDown(s, i, at, t);
    forall m | 0 <= m < at ensures s[m] <= s[i] {
      assert m < at - 1 ==> s[..i][m] <= s[..i][at - 1];
    }
    forall x, y | 0 <= x < y <= i ensures t[x] <= t[y] {
      if x != at && y != at {
        var x', y' := if x < at then x else x - 1, if y < at then y else y - 1;
        assert s[..i][x'] <= s[..i][y'];
        assert t[x] == s[x'] && t[y] == s[y'];
      } else if x == at {
        assert t[y] == s[y - 1];
      } else {
        assert t[x] == s[x];
      }
    }
  }

  lemma MovedDown(s: seq<u32>, i: nat, at: nat, t: seq<u32>)
    requires at <= i < |s| == |t|
    requires t == s[..at] + [s[i]] + s[at..i] + s[i + 1..]
    ensures multiset(t) == multiset(s)
  {
    assert s == s[..at] + s[at..i] + [s[i]] + s[i + 1..];
  }

  /** `globally_distinct`: all 32 indices of a final row differ. */
  method GloballyDistinct(indices: seq<u32>) returns (distinct: bool)
    requires |indices| == FINAL_INDICES
    ensures distinct <==> Distinct(indices)
  {
    var sorted := new u32[FINAL_INDICES](i requires 0 <= i < FINAL_INDICES => indices[i]);
    assert sorted[..] == indices;
    InsertionSort(sorted);
    NeighboursDecide(indices, sorted[..]);
    for i := 1 to FINAL_INDICES
      invariant forall m :: 0 < m < i ==> sorted[m - 1] != sorted[m]
    {
      if sorted[i] == sorted[i - 1] {
        return false;
      }
    }
    return true;
  }
}
