/** The miner's CPU race: worker threads, a stop flag, a shared counter and a channel for one winner. */
module Race {
  import opened Words

  type Nonce = seq<u8>

  datatype Winner = Winner(nonce: Nonce, solution: seq<u8>)

  /** `try_nonce` and the target test as the workers call them, and the budget of each worker. */
  datatype Race = Race(tryNonce: Nonce -> Option<seq<u8>>, underTarget: seq<u8> -> bool, maxPerThread: u64)

  ghost predicate Genuine(r: Race, w: Winner) {
    r.tryNonce(w.nonce) == Some(w.solution) && r.underTarget(w.solution)
  }

  // ---- States ------------------------------------------------------------------------------

  /** Where a worker is between two accesses to shared memory. */
  datatype Pc =
    | Looping
    | Drawing
    | Solving(nonce: Nonce)
    | Reporting(found: Winner)
    | Sending(found: Winner)
    | Stopping
    | Flushing(won: bool)
    | Done(won: bool)

  datatype Worker = Worker(pc: Pc, tried: nat, since: nat)

  datatype Reception = Waiting | Got(winner: Winner) | TimedOut | Disconnected

  datatype MainPc = Receiving | Halting | Joining(next: nat) | Returned(nonces: nat)

  /** Everything the threads share, and where each of them is. */
  datatype State = State(workers: seq<Worker>, stop: bool, total: nat, channel: Option<Winner>,
                         main: MainPc, reception: Reception)

  function Start(threads: nat): State {
    State(seq(threads, _ => Worker(Looping, 0, 0)), false, 0, None, Receiving, Waiting)
  }

  /** `fetch_add` on the 64-bit counter. */
  function FetchAdd(total: nat, n: nat): (t: nat)
    ensures t < U64_LIMIT
  {
    Wrapped(total + n)
  }

  /** `n` in 64 bits; see `WrappedIsModulo`. */
  function Wrapped(n: nat): (t: nat)
    ensures t < U64_LIMIT
  {
    if n < U64_LIMIT then n else Wrapped(n - U64_LIMIT)
  }

  // ---- Steps -------------------------------------------------------------------------------

  /** `Work(i, nonce)` lets worker `i` go on, drawing `nonce` if it is about to draw one. */
  datatype Action = Work(worker: nat, nonce: Nonce) | Receive | TimeOut | Disconnect | Halt | Join

  predicate Enabled(s: State, a: Action) {
    match a
    case Work(i, _) => i < |s.workers| && !s.workers[i].pc.Done? && (s.workers[i].pc.Sending? ==> s.channel.None?)
    case Receive => s.main.Receiving? && s.channel.Some?
    case TimeOut => s.main.Receiving? && s.channel.None?
    case Disconnect => s.main.Receiving? && s.channel.None? && AllDone(s.workers)
    case Halt => s.main.Halting?
    case Join => s.main.Joining? && (s.main.next < |s.workers| ==> s.workers[s.main.next].pc.Done?)
  }

  predicate AllDone(workers: seq<Worker>) {
    forall i :: 0 <= i < |workers| ==> workers[i].pc.Done?
  }

  /** One step of a worker: its own new state, the counter, the channel and the flag. */
  function Worked(r: Race, s: State, w: Worker, nonce: Nonce): (Worker, State)
    requires !w.pc.Done?
  {
    match w.pc
    case Looping =>
      (w.(pc := if w.tried < r.maxPerThread && !s.stop then Drawing else Flushing(false)), s)
    case Drawing =>
      if w.since + 1 >= 64 then
        (Worker(Solving(nonce), w.tried + 1, 0), s.(total := FetchAdd(s.total, w.since + 1)))
      else
        (Worker(Solving(nonce), w.tried + 1, w.since + 1), s)
    case Solving(drawn) =>
      var solution := r.tryNonce(drawn);
      (w.(pc := if solution.Some? && r.underTarget(solution.value) then Reporting(Winner(drawn, solution.value))
                else Looping), s)
    case Reporting(found) => (w.(pc := Sending(found)), s.(total := FetchAdd(s.total, w.since)))
    case Sending(found) => (w.(pc := Stopping), s.(channel := Some(found)))
    case Stopping => (w.(pc := Flushing(true)), s.(stop := true))
    case Flushing(won) => (w.(pc := Done(won)), s.(total := FetchAdd(s.total, w.since)))
  }

  function Next(r: Race, s: State, a: Action): State
    requires Enabled(s, a)
  {
    match a
    case Work(i, nonce) =>
      var (w, t) := Worked(r, s, s.workers[i], nonce);
      t.(workers := s.workers[i := w])
    case Receive => s.(main := Halting, reception := Got(s.channel.value), channel := None)
    case TimeOut => s.(main := Halting, reception := TimedOut)
    case Disconnect => s.(main := Halting, reception := Disconnected)
    case Halt => s.(main := Joining(0), stop := true)
    case Join => s.(main := if s.main.next < |s.workers| then Joining(s.main.next + 1) else Returned(s.total))
  }

  /** The state after the actions, provided each was enabled when its turn came. */
  function Run(r: Race, s: State, actions: seq<Action>): Option<State> {
    if actions == [] then
      Some(s)
    else
      var before := Run(r, s, actions[..|actions| - 1]);
      var a := actions[|actions| - 1];
      if before.Some? && Enabled(before.value, a) then Some(Next(r, before.value, a)) else None
  }

  /** No thread can move. */
  ghost predicate Stuck(s: State) {
    forall a :: !Enabled(s, a)
  }

  /** What the function returns: the winner received, with the counter read after the joins. */
  function Outcome(s: State): Option<(Winner, nat)>
    requires s.main.Returned?
  {
    if s.reception.Got? then Some((s.reception.winner, s.main.nonces)) else None
  }

  // ---- Sums over the workers ---------------------------------------------------------------

  function Sum(f: Worker -> int, workers: seq<Worker>): int {
    if workers == [] then 0 else Sum(f, workers[..|workers| - 1]) + f(workers[|workers| - 1])
  }

  /** Nonces tried in all. */
  function Tried(w: Worker): int {
    w.tried
  }

  // ---- A measure that every step lowers ------------------------------------------------------

  function PcRank(pc: Pc): nat {
    match pc
    case Looping => 6
    case Drawing => 5
    case Solving(_) => 7
    case Reporting(_) => 4
    case Sending(_) => 3
    case Stopping => 2
    case Flushing(_) => 1
    case Done(_) => 0
  }

  function WorkerRank(r: Race, w: Worker): int {
    8 * (r.maxPerThread - w.tried) + PcRank(w.pc)
  }

  function RankOf(r: Race): Worker -> int {
    w => WorkerRank(r, w)
  }

  function MainRank(s: State): int {
    match s.main
    case Receiving => |s.workers| + 3
    case Halting => |s.workers| + 2
    case Joining(i) => |s.workers| + 1 - i
    case Returned(_) => 0
  }

  function Rank(r: Race, s: State): int {
    Sum(RankOf(r), s.workers) + MainRank(s)
  }

  /** What holds of one worker on its own, whatever the others do. */
  ghost predicate WorkerOk(r: Race, stop: bool, w: Worker) {
    && w.tried <= r.maxPerThread
    && (w.pc.Drawing? ==> w.tried < r.maxPerThread)
    && (w.pc.Solving? || w.pc.Reporting? || w.pc.Sending? ==> w.tried >= 1)
    && w.since == w.tried % 64
    && (w.pc.Reporting? || w.pc.Sending? ==> Genuine(r, w.pc.found))
    && ((w.pc.Flushing? || w.pc.Done?) && !w.pc.won ==> w.tried == r.maxPerThread || stop)
    && ((w.pc.Flushing? || w.pc.Done?) && w.pc.won ==> stop)
  }

  // ---- The counter -------------------------------------------------------------------------

  /** What worker `w` has added to the counter so far: a winner adds its remainder twice. */
  function Added(w: Worker): int {
    match w.pc
    case Looping => Multiple(w)
    case Drawing => Multiple(w)
    case Solving(_) => Multiple(w)
    case Reporting(_) => Multiple(w)
    case Sending(_) => w.tried
    case Stopping => w.tried
    case Flushing(won) => if won then w.tried else Multiple(w)
    case Done(won) => if won then w.tried + w.tried % 64 else w.tried
  }

  function Multiple(w: Worker): nat {
    w.tried - w.tried % 64
  }

  /** The remainder that a winner has added a second time once it is done. */
  function AddedTwice(w: Worker): int {
    if Found(w) then w.tried % 64 else 0
  }

  // ---- Winners -----------------------------------------------------------------------------

  /** A worker that has found a solution below the target. */
  predicate Found(w: Worker) {
    w.pc.Reporting? || w.pc.Sending? || w.pc.Stopping? || ((w.pc.Flushing? || w.pc.Done?) && w.pc.won)
  }

  function FoundOne(w: Worker): int {
    if Found(w) then 1 else 0
  }

  /** A winner not yet in the channel. */
  function UnsentOne(w: Worker): int {
    if w.pc.Reporting? || w.pc.Sending? then 1 else 0
  }

  function Winners(s: State): int {
    Sum(FoundOne, s.workers)
  }

  /** A winner that has reached the channel. */
  function SentOne(w: Worker): int {
    FoundOne(w) - UnsentOne(w)
  }

  function Held(s: State): int {
    if s.channel.Some? then 1 else 0
  }

  function Received(s: State): nat {
    if s.reception.Got? then 1 else 0
  }

  // ---- The stop flag -----------------------------------------------------------------------

  /** A worker that has passed the test at the head of its loop and not drawn yet. */
  function DrawsOne(w: Worker): int {
    if w.pc.Drawing? then 1 else 0
  }

  /** Between `s` and `n` no worker has drawn more than the nonce it was about to draw. */
  ghost predicate DrawsNoMore(s: State, n: State) {
    && |n.workers| == |s.workers|
    && forall i :: 0 <= i < |s.workers| ==>
         n.workers[i].tried + DrawsOne(n.workers[i]) <= s.workers[i].tried + DrawsOne(s.workers[i])
  }

  /** Steps a worker can still take once the flag is up. */
  function StepsLeft(w: Worker): int {
    match w.pc
    case Drawing => 6
    case Solving(_) => 5
    case Reporting(_) => 4
    case Sending(_) => 3
    case Stopping => 2
    case Looping => 2
    case Flushing(_) => 1
    case Done(_) => 0
  }

  // ---- The invariant -----------------------------------------------------------------------

  ghost predicate WorkersOk(r: Race, s: State) {
    forall i :: 0 <= i < |s.workers| ==> WorkerOk(r, s.stop, s.workers[i])
  }

  ghost predicate MainOk(r: Race, s: State) {
    && (s.main.Receiving? <==> s.reception.Waiting?)
    && (s.main.Joining? || s.main.Returned? ==> s.stop)
    && (s.main.Joining? ==> s.main.next <= |s.workers| && AllDone(s.workers[..s.main.next]))
    && (s.main.Returned? ==> AllDone(s.workers) && s.main.nonces == s.total)
    && (s.channel.Some? ==> Genuine(r, s.channel.value))
    && (s.reception.Got? ==> Genuine(r, s.reception.winner))
    && (s.reception.Disconnected? ==> Winners(s) == 0 && Exhausted(r, s))
    && (s.stop && (s.main.Receiving? || s.main.Halting?) ==> Received(s) + Held(s) > 0)
  }

  /** Every worker has used up its budget without success. */
  ghost predicate Exhausted(r: Race, s: State) {
    AllDone(s.workers) && forall i :: 0 <= i < |s.workers| ==> s.workers[i].tried == r.maxPerThread
  }

  ghost predicate TotalCounted(s: State) {
    Sum(Added, s.workers) >= 0 && s.total == Wrapped(Sum(Added, s.workers))
  }

  ghost predicate WinnersCounted(s: State) {
    Winners(s) == Sum(UnsentOne, s.workers) + Received(s) + Held(s)
  }

  ghost predicate Sound(r: Race, s: State) {
    WorkersOk(r, s) && MainOk(r, s) && TotalCounted(s) && WinnersCounted(s)
  }
}
