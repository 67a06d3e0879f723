/** Searches as repeated rounds, whatever order a round leaves its rows in. */
module Generations {
  import opened Equihash
  import opened Levels
  import opened PairLoops
  import opened Pairs

  type Step = seq<Row> -> seq<Row>

  /** The rows after `r` rounds. */
  ghost function Generation(step: Step, leaves: seq<Row>, r: nat): seq<Row> {
    if r == 0 then leaves else step(Generation(step, leaves, r - 1))
  }

  /** `step` builds the rows of a round, in some order. Used only where `On` asks for it. */
  ghost predicate IsRound(step: Step, cbits: nat) {
    forall rows {:trigger On(rows)} :: multiset(step(rows)) == multiset(AllMerges(cbits, rows))
  }

  ghost predicate On(rows: seq<Row>) { true }

  lemma RoundOn(step: Step, cbits: nat, rows: seq<Row>)
    requires IsRound(step, cbits)
    ensures multiset(step(rows)) == multiset(AllMerges(cbits, rows))
  {
    assert On(rows);
  }

  lemma RoundKeepsLevel(p: Puzzle, step: Step, r: nat, rows: seq<Row>)
    requires IsRound(step, CollisionBits(p)) && Level(p, r, rows)
    ensures Level(p, r + 1, step(rows))
  {
    RoundOn(step, CollisionBits(p), rows);
    LevelStep(p, r, rows, step(rows));
  }

  /** After r rounds, the depth-r trees, each once. */
  lemma {:induction false} GenerationLevel(p: Puzzle, step: Step, r: nat)
    requires IsRound(step, CollisionBits(p))
    ensures Level(p, r, Generation(step, LeafRows(p), r))
  {
    if r == 0 {
      LeafLevel(p);
    } else {
      var q := r - 1;
      GenerationLevel(p, step, q);
      RoundKeepsLevel(p, step, q, Generation(step, LeafRows(p), q));
    }
  }

  lemma RoundsAgree(step: Step, step': Step, cbits: nat, rows: seq<Row>, rows': seq<Row>)
    requires IsRound(step, cbits) && IsRound(step', cbits) && multiset(rows) == multiset(rows')
    ensures multiset(step(rows)) == multiset(step'(rows'))
  {
    RoundOn(step, cbits, rows);
    RoundOn(step', cbits, rows');
    AllMergesPermuted(cbits, rows, rows');
  }

  /** Two searches that differ in the order of their rows only hold the same rows after every round. */
  lemma {:induction false} GenerationsAgree(step: Step, step': Step, cbits: nat, leaves: seq<Row>, r: nat)
    requires IsRound(step, cbits) && IsRound(step', cbits)
    ensures multiset(Generation(step, leaves, r)) == multiset(Generation(step', leaves, r))
  {
    if r > 0 {
      var q := r - 1;
      GenerationsAgree(step, step', cbits, leaves, q);
      RoundsAgree(step, step', cbits, Generation(step, leaves, q), Generation(step', leaves, q));
    }
  }

  lemma EmptyRound(step: Step, cbits: nat)
    requires IsRound(step, cbits)
    ensures step([]) == []
  {
    RoundOn(step, cbits, []);
    ShortList(Merger(cbits), []);
    assert |multiset(step([]))| == 0;
  }

  lemma {:induction false} EmptyStaysEmpty(step: Step, cbits: nat, leaves: seq<Row>, r: nat, m: nat)
    requires IsRound(step, cbits) && r <= m && Generation(step, leaves, r) == []
    ensures Generation(step, leaves, m) == []
  {
    if r < m {
      EmptyStaysEmpty(step, cbits, leaves, r, m - 1);
      EmptyRound(step, cbits);
    }
  }
}
