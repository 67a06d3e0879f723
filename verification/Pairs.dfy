/** One round of Wagner's algorithm as a specification: every unordered pair of rows that collides
    and shares no index is merged once. Both CPU rounds and the CUDA round are measured against it. */
module Pairs {
  import opened Bytes
  import opened Equihash
  import opened PairLoops
  import opened Words

  type Indices = s: seq<nat> | s != [] witness [0]

  /** A partial solution: what is left of its XOR, and its leaves in tree order. */
  datatype Row = Row(hash: Hash, indices: Indices)

  /** The two rows collide on `cbits` bits and may be merged. */
  ghost predicate Joins(cbits: nat, a: Row, b: Row) {
    SameLead(a.hash, b.hash, cbits) && Disjoint(a.indices, b.indices)
  }

  /** The list with the smaller first index goes first (solver.rs:413-423). */
  function ConcatCanonical(a: Indices, b: Indices): Indices {
    if a[0] < b[0] then a + b else b + a
  }

  function Merge(cbits: nat, a: Row, b: Row): Row {
    Row(Drop(Xor(a.hash, b.hash), CeilDiv8(cbits)), ConcatCanonical(a.indices, b.indices))
  }

  /** The merge of two rows, if they may be merged. */
  ghost function MergeIfJoins(cbits: nat, a: Row, b: Row): seq<Row> {
    if Joins(cbits, a, b) then [Merge(cbits, a, b)] else []
  }

  ghost function Merger(cbits: nat): Combine<Row> {
    (a: Row, b: Row) => MergeIfJoins(cbits, a, b)
  }

  /** A round: the merges of all pairs of `rows`, in the order of the double loop over i < j. */
  ghost function AllMerges(cbits: nat, rows: seq<Row>): seq<Row> {
    AllPairs(Merger(cbits), rows)
  }

  /** `f` merges what collides on `cbits` bits. The definition is used only where `At` asks for it. */
  ghost predicate Merges(f: Combine<Row>, cbits: nat) {
    forall a, b {:trigger At(a, b)} :: f(a, b) == MergeIfJoins(cbits, a, b)
  }

  ghost predicate At(a: Row, b: Row) { true }

  lemma MergesAt(f: Combine<Row>, cbits: nat, a: Row, b: Row)
    requires Merges(f, cbits)
    ensures f(a, b) == MergeIfJoins(cbits, a, b)
  {
    assert At(a, b);
  }

  lemma MergerMerges(cbits: nat)
    ensures Merges(Merger(cbits), cbits)
  {}

  // ---- Symmetry ----------------------------------------------------------------------------

  lemma JoinsSymmetric(cbits: nat, a: Row, b: Row)
    ensures Joins(cbits, a, b) == Joins(cbits, b, a)
    ensures Joins(cbits, a, b) ==> Merge(cbits, a, b) == Merge(cbits, b, a)
    ensures MergeIfJoins(cbits, a, b) == MergeIfJoins(cbits, b, a)
  {
    XorComm(a.hash, b.hash);
  }

  lemma MergesSymmetric(f: Combine<Row>, cbits: nat)
    requires Merges(f, cbits)
    ensures Symmetric(f)
  {
    forall a, b ensures f(a, b) == f(b, a) {
      MergesAt(f, cbits, a, b);
      MergesAt(f, cbits, b, a);
      JoinsSymmetric(cbits, a, b);
    }
  }

  /** A round is blind to the order of its rows. */
  lemma AllMergesPermuted(cbits: nat, x: seq<Row>, y: seq<Row>)
    requires multiset(x) == multiset(y)
    ensures multiset(AllMerges(cbits, x)) == multiset(AllMerges(cbits, y))
  {
    MergerMerges(cbits);
    MergesSymmetric(Merger(cbits), cbits);
    AllPairsPermuted(Merger(cbits), x, y);
  }

  // ---- Which rows come out, and how often --------------------------------------------------

  lemma AllMergesSound(cbits: nat, rows: seq<Row>, x: Row) returns (i: nat, j: nat)
    requires x in AllMerges(cbits, rows)
    ensures i < j < |rows| && Joins(cbits, rows[i], rows[j]) && x == Merge(cbits, rows[i], rows[j])
  {
    i, j := AllPairsSound(Merger(cbits), rows, x);
  }

  lemma AllMergesComplete(cbits: nat, rows: seq<Row>, i: nat, j: nat)
    requires i < j < |rows| && Joins(cbits, rows[i], rows[j])
    ensures Merge(cbits, rows[i], rows[j]) in AllMerges(cbits, rows)
  {
    AllPairsComplete(Merger(cbits), rows, i, j, Merge(cbits, rows[i], rows[j]));
  }

  /** No two rows carry the same index list; all lists are equally long. */
  ghost predicate DistinctRows(rows: seq<Row>, len: nat) {
    && (forall i :: 0 <= i < |rows| ==> |rows[i].indices| == len)
    && (forall i, j :: 0 <= i < j < |rows| ==> rows[i].indices != rows[j].indices)
  }

  ghost predicate NoRepeats(rows: seq<Row>) {
    forall i, j :: 0 <= i < j < |rows| ==> rows[i].indices != rows[j].indices
  }

  /** A merged list determines the two lists it was made of. */
  lemma MergeDetermines(a: Indices, b: Indices, c: Indices, d: Indices)
    requires |a| == |b| == |c| == |d| && ConcatCanonical(a, b) == ConcatCanonical(c, d)
    requires Disjoint(a, b) && Disjoint(c, d)
    ensures (a == c && b == d) || (a == d && b == c)
  {
    var n := |a|;
    var x, y := ConcatCanonical(a, b), ConcatCanonical(c, d);
    assert (x[..n] == a && x[n..] == b) || (x[..n] == b && x[n..] == a);
    assert (y[..n] == c && y[n..] == d) || (y[..n] == d && y[n..] == c);
  }

  /** Two merges with the same list have the same parents. */
  lemma SameListSameParents(f: Combine<Row>, cbits: nat, a: Row, b: Row, c: Row, d: Row, x: Row, y: Row)
    requires Merges(f, cbits) && x in f(a, b) && y in f(c, d)
    requires |a.indices| == |b.indices| == |c.indices| == |d.indices|
    ensures x.indices == y.indices ==> (a.indices == c.indices && b.indices == d.indices)
                                       || (a.indices == d.indices && b.indices == c.indices)
  {
    MergesAt(f, cbits, a, b);
    MergesAt(f, cbits, c, d);
    if x.indices == y.indices {
      MergeDetermines(a.indices, b.indices, c.indices, d.indices);
    }
  }

  lemma NoRepeatsConcat(x: seq<Row>, y: seq<Row>)
    requires NoRepeats(x) && NoRepeats(y)
    requires forall i, j :: 0 <= i < |x| && 0 <= j < |y| ==> x[i].indices != y[j].indices
    ensures NoRepeats(x + y)
  {}

  lemma OneMerge(f: Combine<Row>, cbits: nat, a: Row, b: Row)
    requires Merges(f, cbits)
    ensures NoRepeats(f(a, b))
  {
    MergesAt(f, cbits, a, b);
  }

  lemma {:induction false} PairsWithNoRepeats(f: Combine<Row>, cbits: nat, a: Row, rest: seq<Row>, len: nat)
    requires Merges(f, cbits) && |a.indices| == len && DistinctRows(rest, len)
    ensures NoRepeats(PairsWith(f, a, rest))
  {
    if rest != [] {
      var b, tail := rest[0], rest[1..];
      var x, y := f(a, b), PairsWith(f, a, tail);
      PairsWithNoRepeats(f, cbits, a, tail, len);
      OneMerge(f, cbits, a, b);
      forall i, k | 0 <= i < |x| && 0 <= k < |y| ensures x[i].indices != y[k].indices {
        var j := PairsWithSound(f, a, tail, y[k]);
        SameListSameParents(f, cbits, a, b, a, tail[j], x[i], y[k]);
        assert tail[j] == rest[j + 1];
      }
      NoRepeatsConcat(x, y);
    }
  }

  /** Distinct rows have pairwise distinct merges: each index list is built once. */
  lemma {:induction false} AllPairsNoRepeats(f: Combine<Row>, cbits: nat, rows: seq<Row>, len: nat)
    requires Merges(f, cbits) && DistinctRows(rows, len)
    ensures NoRepeats(AllPairs(f, rows))
  {
    if rows != [] {
      var a, rest := rows[0], rows[1..];
      var x, y := PairsWith(f, a, rest), AllPairs(f, rest);
      PairsWithNoRepeats(f, cbits, a, rest, len);
      AllPairsNoRepeats(f, cbits, rest, len);
      forall i, j | 0 <= i < |x| && 0 <= j < |y| ensures x[i].indices != y[j].indices {
        var b := PairsWithSound(f, a, rest, x[i]);
        var c, d := AllPairsSound(f, rest, y[j]);
        SameListSameParents(f, cbits, a, rest[b], rest[c], rest[d], x[i], y[j]);
        assert rest[b] == rows[b + 1] && rest[c] == rows[c + 1] && rest[d] == rows[d + 1];
      }
      NoRepeatsConcat(x, y);
    }
  }

  lemma AllMergesNoRepeats(cbits: nat, rows: seq<Row>, len: nat)
    requires DistinctRows(rows, len)
    ensures NoRepeats(AllMerges(cbits, rows))
  {
    MergerMerges(cbits);
    AllPairsNoRepeats(Merger(cbits), cbits, rows, len);
  }
}
