/** The level invariant: after r rounds the rows are exactly the depth-r trees, each once. */
module Levels {
  import opened Bytes
  import opened Equihash
  import opened Pairs
  import opened Words

  function CollisionBits(p: Puzzle): nat { 8 * p.cbytes }

  /** What is left of a tree's XOR after r rounds of trimming. */
  function TreeHash(p: Puzzle, r: nat, s: seq<nat>): Hash {
    Drop(XorOf(p, s), r * p.cbytes)
  }

  ghost predicate RowOk(p: Puzzle, r: nat, row: Row) {
    ValidTree(p, r, row.indices) && row.hash == TreeHash(p, r, row.indices)
  }

  ghost predicate Sound(p: Puzzle, r: nat, rows: seq<Row>) {
    forall i :: 0 <= i < |rows| ==> RowOk(p, r, rows[i])
  }

  ghost predicate Once(rows: seq<Row>) {
    forall row :: multiset(rows)[row] <= 1
  }

  ghost predicate Complete(p: Puzzle, r: nat, rows: seq<Row>) {
    forall s: Indices :: ValidTree(p, r, s) ==> Row(TreeHash(p, r, s), s) in rows
  }

  ghost predicate Level(p: Puzzle, r: nat, rows: seq<Row>) {
    Sound(p, r, rows) && Once(rows) && Complete(p, r, rows)
  }

  /** The rows before any round: one per leaf. */
  function LeafRows(p: Puzzle): seq<Row> {
    seq(p.leaves, i requires i >= 0 => Row(p.leaf(i), [i]))
  }

  lemma XorOfLeaf(p: Puzzle, i: nat)
    ensures XorOf(p, [i]) == p.leaf(i)
  {
    var h := p.leaf(i);
    assert XorOf(p, [i]) == Xor(h, Zeros(p.width));
    XorComm(h, Zeros(p.width));
    XorZeros(h);
  }

  lemma LeafLevel(p: Puzzle)
    ensures Level(p, 0, LeafRows(p))
  {
    var rows := LeafRows(p);
    forall i: nat ensures XorOf(p, [i]) == p.leaf(i) { XorOfLeaf(p, i); }
    forall s: Indices {:trigger TreeHash(p, 0, s)} | ValidTree(p, 0, s)
      ensures Row(TreeHash(p, 0, s), s) in rows
    {
      assert s == [s[0]];
      assert rows[s[0]] == Row(TreeHash(p, 0, s), s);
    }
    NoRepeatsOnce(rows);
  }

  // ---- Multiplicities ---------------------------------------------------------------------

  lemma {:induction false} NoRepeatsOnce(rows: seq<Row>)
    requires NoRepeats(rows)
    ensures Once(rows)
  {
    if rows != [] {
      NoRepeatsOnce(rows[1..]);
      assert rows == [rows[0]] + rows[1..];
      assert rows[0] !in rows[1..];
    }
  }

  lemma TwoCopies(rows: seq<Row>, i: nat, j: nat)
    requires i < j < |rows|
    ensures rows[i] == rows[j] ==> multiset(rows)[rows[i]] >= 2
  {
    assert rows == rows[..i] + [rows[i]] + rows[i + 1..j] + [rows[j]] + rows[j + 1..];
  }

  lemma OnceNoRepeats(p: Puzzle, r: nat, rows: seq<Row>)
    requires Sound(p, r, rows) && Once(rows)
    ensures DistinctRows(rows, Pow2(r))
  {
    forall i, j | 0 <= i < j < |rows| ensures rows[i].indices != rows[j].indices {
      TwoCopies(rows, i, j);
      assert multiset(rows)[rows[i]] <= 1;
    }
    forall i | 0 <= i < |rows| ensures |rows[i].indices| == Pow2(r) {
      assert RowOk(p, r, rows[i]);
    }
  }

  // ---- One round --------------------------------------------------------------------------

  lemma TreeOfHalves(p: Puzzle, r: nat, l: seq<nat>, h: seq<nat>)
    requires ValidTree(p, r, l) && ValidTree(p, r, h)
    ensures ValidTree(p, r + 1, l + h) <==>
            (Disjoint(l, h) && l[0] < h[0] && ZeroTo(XorOf(p, l + h), (r + 1) * p.cbytes))
  {
    var s := l + h;
    assert s[..Pow2(r)] == l && s[Pow2(r)..] == h;
  }

  /** Two trees join into the tree above them exactly when their rows collide. */
  lemma JoinIffTree(p: Puzzle, r: nat, a: Row, b: Row)
    requires RowOk(p, r, a) && RowOk(p, r, b)
    ensures ValidTree(p, r + 1, a.indices + b.indices) <==>
            (Joins(CollisionBits(p), a, b) && a.indices[0] < b.indices[0])
  {
    var x, y, c := XorOf(p, a.indices), XorOf(p, b.indices), p.cbytes;
    TreeOfHalves(p, r, a.indices, b.indices);
    XorOfConcat(p, a.indices, b.indices);
    TreeIndices(p, r, a.indices);
    TreeIndices(p, r, b.indices);
    CollisionExtendsZeros(x, y, r * c, CollisionBits(p));
    assert (r + 1) * c == r * c + c;
  }

  lemma MergedHash(p: Puzzle, r: nat, a: Row, b: Row)
    requires RowOk(p, r, a) && RowOk(p, r, b)
    ensures Merge(CollisionBits(p), a, b).hash == TreeHash(p, r + 1, a.indices + b.indices)
  {
    var x, y := XorOf(p, a.indices), XorOf(p, b.indices);
    XorOfConcat(p, a.indices, b.indices);
    TrimmedXor(x, y, r, p.cbytes);
    assert CeilDiv8(CollisionBits(p)) == p.cbytes;
  }

  lemma TrimmedXor(x: Hash, y: Hash, r: nat, c: nat)
    requires |x| == |y|
    ensures Drop(Xor(Drop(x, r * c), Drop(y, r * c)), c) == Drop(Xor(x, y), (r + 1) * c)
  {
    DropXor(x, y, r * c);
    DropDrop(Xor(x, y), r * c, c);
    assert (r + 1) * c == r * c + c;
  }

  /** Joined rows are sound whichever of the two comes first. */
  lemma JoinSound(p: Puzzle, r: nat, a: Row, b: Row)
    requires RowOk(p, r, a) && RowOk(p, r, b) && Joins(CollisionBits(p), a, b)
    ensures RowOk(p, r + 1, Merge(CollisionBits(p), a, b))
  {
    JoinsSymmetric(CollisionBits(p), a, b);
    assert a.indices[0] != b.indices[0];
    if a.indices[0] < b.indices[0] {
      JoinIffTree(p, r, a, b);
      MergedHash(p, r, a, b);
    } else {
      JoinIffTree(p, r, b, a);
      MergedHash(p, r, b, a);
    }
  }

  lemma MergesSound(p: Puzzle, r: nat, rows: seq<Row>)
    requires Sound(p, r, rows)
    ensures Sound(p, r + 1, AllMerges(CollisionBits(p), rows))
  {
    var out := AllMerges(CollisionBits(p), rows);
    forall k | 0 <= k < |out| ensures RowOk(p, r + 1, out[k]) {
      var i, j := AllMergesSound(CollisionBits(p), rows, out[k]);
      JoinSound(p, r, rows[i], rows[j]);
    }
  }

  /** Rows that are trees, each once, merge into rows that are trees, each once. */
  lemma SoundStep(p: Puzzle, r: nat, rows: seq<Row>, out: seq<Row>)
    requires Sound(p, r, rows) && Once(rows)
    requires multiset(out) == multiset(AllMerges(CollisionBits(p), rows))
    ensures Sound(p, r + 1, out) && Once(out)
  {
    var merges := AllMerges(CollisionBits(p), rows);
    MergesSound(p, r, rows);
    OnceNoRepeats(p, r, rows);
    AllMergesNoRepeats(CollisionBits(p), rows, Pow2(r));
    NoRepeatsOnce(merges);
    forall i | 0 <= i < |out| ensures RowOk(p, r + 1, out[i]) {
      assert out[i] in multiset(merges);
    }
  }

  /** A tree of depth r + 1 comes from the rows of its two halves. */
  lemma MergesContain(p: Puzzle, r: nat, rows: seq<Row>, s: Indices)
    requires Complete(p, r, rows) && Sound(p, r, rows) && ValidTree(p, r + 1, s)
    ensures Row(TreeHash(p, r + 1, s), s) in AllMerges(CollisionBits(p), rows)
  {
    var cb, l, h := CollisionBits(p), s[..Pow2(r)], s[Pow2(r)..];
    var a, b := Row(TreeHash(p, r, l), l), Row(TreeHash(p, r, h), h);
    assert a in rows && b in rows;
    var i :| 0 <= i < |rows| && rows[i] == a;
    var j :| 0 <= j < |rows| && rows[j] == b;
    assert s == l + h;
    JoinIffTree(p, r, a, b);
    MergedHash(p, r, a, b);
    assert i != j;
    JoinsSymmetric(cb, a, b);
    if i < j { AllMergesComplete(cb, rows, i, j); } else { AllMergesComplete(cb, rows, j, i); }
    assert Merge(cb, a, b).indices == s;
  }

  /** One round takes the level invariant from r to r + 1, in whatever order its rows come out. */
  lemma LevelStep(p: Puzzle, r: nat, rows: seq<Row>, out: seq<Row>)
    requires Level(p, r, rows)
    requires multiset(out) == multiset(AllMerges(CollisionBits(p), rows))
    ensures Level(p, r + 1, out)
  {
    SoundStep(p, r, rows, out);
    forall s: Indices {:trigger TreeHash(p, r + 1, s)} | ValidTree(p, r + 1, s)
      ensures Row(TreeHash(p, r + 1, s), s) in out
    {
      MergesContain(p, r, rows, s);
      assert Row(TreeHash(p, r + 1, s), s) in multiset(AllMerges(CollisionBits(p), rows));
    }
  }

  // ---- After the last round ---------------------------------------------------------------

  lemma ZeroRowIffSolution(p: Puzzle, row: Row)
    requires RowOk(p, p.k, row)
    ensures AllZero(row.hash) <==> ValidSolution(p, row.indices)
  {
    var x, m := XorOf(p, row.indices), p.k * p.cbytes;
    TreeIndices(p, p.k, row.indices);
    SolutionIffTree(p, row.indices);
    forall i | 0 <= i < |x| ensures x[i] == ByteAt(x, i) && (i >= m ==> x[i] == row.hash[i - m]) {}
    if AllZero(x) {
      forall i | 0 <= i < |row.hash| ensures row.hash[i] == 0 { assert row.hash[i] == x[m + i]; }
    }
  }

  /** The rows left after k rounds whose hash is zero are exactly the Equihash solutions. */
  lemma SolutionsAreZeroRows(p: Puzzle, rows: seq<Row>, s: seq<nat>)
    requires Level(p, p.k, rows)
    ensures ValidSolution(p, s) <==> exists row :: row in rows && row.indices == s && AllZero(row.hash)
  {
    if ValidSolution(p, s) {
      SolutionIffTree(p, s);
      var row := Row(TreeHash(p, p.k, s), s);
      assert row in rows;
      ZeroRowIffSolution(p, row);
    }
    forall row | row in rows && row.indices == s && AllZero(row.hash) ensures ValidSolution(p, s) {
      ZeroRowIffSolution(p, row);
    }
  }
}
