/** Over all interleavings: what the race returns, that it stops, and exactly when it gets stuck. */
module RaceResults {
  import opened Race
  import opened Words

  // ---- Sums over the workers ---------------------------------------------------------------

  lemma {:induction false} SumUpdate(f: Worker -> int, ws: seq<Worker>, i: nat, w: Worker)
    requires i < |ws|
    ensures Sum(f, ws[i := w]) == Sum(f, ws) - f(ws[i]) + f(w)
  {
    var n := |ws| - 1;
    if i == n {
      assert ws[i := w][..n] == ws[..n];
    } else {
      SumUpdate(f, ws[..n], i, w);
      assert ws[i := w][..n] == ws[..n][i := w];
    }
  }

  lemma {:induction false} SumAtLeast(f: Worker -> int, ws: seq<Worker>)
    requires forall i :: 0 <= i < |ws| ==> f(ws[i]) >= 0
    ensures Sum(f, ws) >= 0
    ensures forall i :: 0 <= i < |ws| ==> Sum(f, ws) >= f(ws[i])
  {
    if ws != [] {
      SumAtLeast(f, ws[..|ws| - 1]);
      assert forall i :: 0 <= i < |ws| - 1 ==> ws[..|ws| - 1][i] == ws[i];
    }
  }

  lemma {:induction false} SumAgrees(f: Worker -> int, g: Worker -> int, h: Worker -> int, ws: seq<Worker>)
    requires forall i :: 0 <= i < |ws| ==> f(ws[i]) == g(ws[i]) + h(ws[i])
    ensures Sum(f, ws) == Sum(g, ws) + Sum(h, ws)
  {
    if ws != [] {
      SumAgrees(f, g, h, ws[..|ws| - 1]);
    }
  }

  lemma {:induction false} SumZero(f: Worker -> int, ws: seq<Worker>)
    requires forall i :: 0 <= i < |ws| ==> f(ws[i]) == 0
    ensures Sum(f, ws) == 0
  {
    if ws != [] {
      SumZero(f, ws[..|ws| - 1]);
    }
  }

  lemma {:induction false} SumRepeated(f: Worker -> int, ws: seq<Worker>, w: Worker)
    requires forall i :: 0 <= i < |ws| ==> ws[i] == w
    ensures Sum(f, ws) == |ws| * f(w)
  {
    if ws != [] {
      SumRepeated(f, ws[..|ws| - 1], w);
      Once(|ws|, f(w));
    }
  }

  lemma Once(n: nat, x: int)
    ensures n * x == (n - 1) * x + x
  {}

  // ---- The invariant is kept ---------------------------------------------------------------

  lemma StartSound(r: Race, threads: nat)
    ensures Sound(r, Start(threads))
  {
    var s := Start(threads);
    assert forall i :: 0 <= i < |s.workers| ==> s.workers[i] == Worker(Looping, 0, 0);
    FreshSound(r, s.workers);
  }

  lemma FreshSound(r: Race, workers: seq<Worker>)
    requires forall i :: 0 <= i < |workers| ==> workers[i] == Worker(Looping, 0, 0)
    ensures Sound(r, State(workers, false, 0, None, Receiving, Waiting))
  {
    FreshTotal(workers);
    FreshWinners(workers);
    FreshWorkers(r, workers);
    FreshMain(r, workers);
  }

  lemma FreshWorkers(r: Race, workers: seq<Worker>)
    requires forall i :: 0 <= i < |workers| ==> workers[i] == Worker(Looping, 0, 0)
    ensures WorkersOk(r, State(workers, false, 0, None, Receiving, Waiting))
  {}

  lemma FreshMain(r: Race, workers: seq<Worker>)
    ensures MainOk(r, State(workers, false, 0, None, Receiving, Waiting))
  {}

  lemma FreshTotal(workers: seq<Worker>)
    requires forall i :: 0 <= i < |workers| ==> workers[i] == Worker(Looping, 0, 0)
    ensures TotalCounted(State(workers, false, 0, None, Receiving, Waiting))
  {
    SumZero(Added, workers);
  }

  lemma FreshWinners(workers: seq<Worker>)
    requires forall i :: 0 <= i < |workers| ==> workers[i] == Worker(Looping, 0, 0)
    ensures WinnersCounted(State(workers, false, 0, None, Receiving, Waiting))
  {
    SumZero(FoundOne, workers);
    SumZero(UnsentOne, workers);
  }

  /** A worker's step, in terms of its own state and of the shared variables before it. */
  lemma WorkerStep(r: Race, s: State, w: Worker, nonce: Nonce)
    requires !w.pc.Done? && (w.pc.Sending? ==> s.channel.None?) && WorkerOk(r, s.stop, w)
    ensures var (v, t) := Worked(r, s, w, nonce);
      && WorkerOk(r, t.stop, v)
      && WorkerRank(r, v) < WorkerRank(r, w)
      && FoundOne(v) >= FoundOne(w)
      && FoundOne(v) - UnsentOne(v) - Held(t) == FoundOne(w) - UnsentOne(w) - Held(s)
      && (t.channel.Some? ==> t.channel == s.channel || Genuine(r, t.channel.value))
      && (s.channel.Some? ==> t.channel.Some?)
      && (s.stop ==> t.stop) && (t.stop && !s.stop ==> SentOne(v) == 1)
  {}

  /** With the flag up a worker draws at most the nonce it was about to draw, and has fewer steps left. */
  lemma StoppedWorkerStep(r: Race, s: State, w: Worker, nonce: Nonce)
    requires !w.pc.Done? && s.stop
    ensures var (v, _) := Worked(r, s, w, nonce);
      v.tried + DrawsOne(v) <= w.tried + DrawsOne(w) && StepsLeft(v) < StepsLeft(w)
  {}

  lemma WorkerStepAdds(r: Race, s: State, w: Worker, nonce: Nonce)
    requires !w.pc.Done? && WorkerOk(r, s.stop, w) && s.total == Wrapped(s.total)
    ensures var (v, t) := Worked(r, s, w, nonce);
      Added(v) >= Added(w) && t.total == Wrapped(s.total + (Added(v) - Added(w)))
  {
    if w.pc.Drawing? {
      DrawAdds(r, s, w, nonce);
    } else {
      OthersAdd(r, s, w, nonce);
    }
  }

  lemma DrawAdds(r: Race, s: State, w: Worker, nonce: Nonce)
    requires w.pc.Drawing? && WorkerOk(r, s.stop, w) && s.total == Wrapped(s.total)
    ensures var (v, t) := Worked(r, s, w, nonce);
      Added(v) >= Added(w) && t.total == Wrapped(s.total + (Added(v) - Added(w)))
  {
    NextRemainder(w.tried);
  }

  lemma OthersAdd(r: Race, s: State, w: Worker, nonce: Nonce)
    requires !w.pc.Done? && !w.pc.Drawing? && WorkerOk(r, s.stop, w) && s.total == Wrapped(s.total)
    ensures var (v, t) := Worked(r, s, w, nonce);
      Added(v) >= Added(w) && t.total == Wrapped(s.total + (Added(v) - Added(w)))
  {}

  lemma NextRemainder(n: nat)
    ensures (n + 1) % 64 == if n % 64 + 1 == 64 then 0 else n % 64 + 1
  {}

  lemma WorkKeepsWorkers(r: Race, s: State, i: nat, nonce: Nonce)
    requires WorkersOk(r, s) && Enabled(s, Work(i, nonce))
    ensures WorkersOk(r, Next(r, s, Work(i, nonce)))
  {
    WorkerStep(r, s, s.workers[i], nonce);
    var n := Next(r, s, Work(i, nonce));
    forall j | 0 <= j < |n.workers|
      ensures WorkerOk(r, n.stop, n.workers[j])
    {
      assert WorkerOk(r, s.stop, s.workers[j]);
    }
  }

  lemma WorkKeepsTotal(r: Race, s: State, i: nat, nonce: Nonce)
    requires WorkersOk(r, s) && TotalCounted(s) && Enabled(s, Work(i, nonce))
    ensures TotalCounted(Next(r, s, Work(i, nonce)))
  {
    var (v, t) := Worked(r, s, s.workers[i], nonce);
    WrappedSum(Sum(Added, s.workers), 0);
    WorkerStepAdds(r, s, s.workers[i], nonce);
    TotalGrows(Added, s, i, v, t.total);
  }

  lemma TotalGrows(added: Worker -> int, s: State, i: nat, v: Worker, total: nat)
    requires i < |s.workers| && added(v) >= added(s.workers[i])
    requires Sum(added, s.workers) >= 0 && s.total == Wrapped(Sum(added, s.workers))
    requires total == Wrapped(s.total + (added(v) - added(s.workers[i])))
    ensures Sum(added, s.workers[i := v]) >= 0 && total == Wrapped(Sum(added, s.workers[i := v]))
  {
    SumUpdate(added, s.workers, i, v);
    WrappedSum(Sum(added, s.workers), added(v) - added(s.workers[i]));
  }

  lemma {:induction false} WrappedSum(x: nat, y: nat)
    ensures Wrapped(Wrapped(x) + y) == Wrapped(x + y)
  {
    if x >= U64_LIMIT {
      WrappedSum(x - U64_LIMIT, y);
    }
  }

  lemma {:induction false} WrappedIsModulo(n: nat)
    ensures Wrapped(n) == n % U64_LIMIT
  {
    if n >= U64_LIMIT {
      WrappedIsModulo(n - U64_LIMIT);
    }
  }

  lemma WorkKeepsWinners(r: Race, s: State, i: nat, nonce: Nonce)
    requires WorkersOk(r, s) && WinnersCounted(s) && Enabled(s, Work(i, nonce))
    ensures WinnersCounted(Next(r, s, Work(i, nonce)))
    ensures Winners(Next(r, s, Work(i, nonce))) >= Winners(s)
  {
    var (v, _) := Worked(r, s, s.workers[i], nonce);
    WorkerStep(r, s, s.workers[i], nonce);
    SumUpdate(FoundOne, s.workers, i, v);
    SumUpdate(UnsentOne, s.workers, i, v);
  }

  lemma JoinedStay(ws: seq<Worker>, joined: nat, i: nat, w: Worker)
    requires joined <= |ws| && i < |ws| && AllDone(ws[..joined]) && !ws[i].pc.Done?
    ensures AllDone(ws[i := w][..joined])
  {
    var before, after := ws[..joined], ws[i := w][..joined];
    forall k | 0 <= k < joined
      ensures after[k].pc.Done?
    {
      assert before[k] == ws[k];
    }
  }

  lemma WorkKeepsMain(r: Race, s: State, i: nat, nonce: Nonce)
    requires Sound(r, s) && Enabled(s, Work(i, nonce))
    ensures MainOk(r, Next(r, s, Work(i, nonce)))
  {
    var n := Next(r, s, Work(i, nonce));
    WorkKeepsWinners(r, s, i, nonce);
    WorkerStep(r, s, s.workers[i], nonce);
    assert !AllDone(s.workers);
    if s.main.Joining? {
      JoinedStay(s.workers, s.main.next, i, n.workers[i]);
    }
    if n.stop && !s.stop {
      SumAtLeast(SentOne, n.workers);
      assert SentOne(n.workers[i]) == 1;
      SumAgrees(FoundOne, SentOne, UnsentOne, n.workers);
    }
  }

  /** With every worker done, nothing sent and nothing received, nobody has won. */
  lemma DisconnectedMeansExhausted(r: Race, s: State)
    requires Sound(r, s) && s.main.Receiving? && s.channel.None? && AllDone(s.workers)
    ensures Winners(s) == 0 && Exhausted(r, s)
  {
    assert forall i :: 0 <= i < |s.workers| ==> UnsentOne(s.workers[i]) == 0;
    SumZero(UnsentOne, s.workers);
    SumAtLeast(FoundOne, s.workers);
    forall i | 0 <= i < |s.workers|
      ensures s.workers[i].tried == r.maxPerThread
    {
      assert FoundOne(s.workers[i]) == 0 && WorkerOk(r, s.stop, s.workers[i]);
    }
  }

  lemma JoinsKeep(r: Race, s: State)
    requires Sound(r, s) && Enabled(s, Join)
    ensures MainOk(r, Next(r, s, Join))
  {
    var i := s.main.next;
    if i < |s.workers| {
      assert s.workers[..i + 1] == s.workers[..i] + [s.workers[i]];
    } else {
      assert s.workers[..i] == s.workers;
    }
  }

  lemma StepSound(r: Race, s: State, a: Action)
    requires Sound(r, s) && Enabled(s, a)
    ensures Sound(r, Next(r, s, a))
    ensures s.stop ==> Next(r, s, a).stop && DrawsNoMore(s, Next(r, s, a))
  {
    match a
    case Work(i, nonce) =>
      WorkKeepsWorkers(r, s, i, nonce);
      WorkKeepsTotal(r, s, i, nonce);
      WorkKeepsWinners(r, s, i, nonce);
      WorkKeepsMain(r, s, i, nonce);
      if s.stop {
        StoppedWorkerStep(r, s, s.workers[i], nonce);
      }
    case Join => JoinsKeep(r, s);
    case Disconnect => DisconnectedMeansExhausted(r, s);
    case Halt => HaltSound(r, s);
    case Receive =>
    case TimeOut =>
  }

  lemma HaltSound(r: Race, s: State)
    requires Sound(r, s) && Enabled(s, Halt)
    ensures Sound(r, Next(r, s, Halt))
  {
    var n := Next(r, s, Halt);
    forall i | 0 <= i < |n.workers|
      ensures WorkerOk(r, n.stop, n.workers[i])
    {
      assert WorkerOk(r, s.stop, s.workers[i]);
    }
  }

  // ---- Every step lowers the rank ----------------------------------------------------------

  lemma RankNotNegative(r: Race, s: State)
    requires WorkersOk(r, s) && MainOk(r, s)
    ensures Rank(r, s) >= 0
  {
    forall i | 0 <= i < |s.workers|
      ensures RankOf(r)(s.workers[i]) >= 0
    {
      assert WorkerOk(r, s.stop, s.workers[i]);
    }
    SumAtLeast(RankOf(r), s.workers);
  }

  lemma StepLowersRank(r: Race, s: State, a: Action)
    requires Sound(r, s) && Enabled(s, a)
    ensures Rank(r, Next(r, s, a)) < Rank(r, s)
  {
    if a.Work? {
      var (v, _) := Worked(r, s, s.workers[a.worker], a.nonce);
      WorkerStep(r, s, s.workers[a.worker], a.nonce);
      SumUpdate(RankOf(r), s.workers, a.worker, v);
    }
  }

  /** Soundness of every reachable state, and a bound on how many steps led there. */
  lemma {:induction false} RunSound(r: Race, threads: nat, actions: seq<Action>)
    requires Run(r, Start(threads), actions).Some?
    ensures var s := Run(r, Start(threads), actions).value;
      Sound(r, s) && |s.workers| == threads && |actions| + Rank(r, s) <= Rank(r, Start(threads))
  {
    if actions == [] {
      StartSound(r, threads);
    } else {
      var init, a := actions[..|actions| - 1], actions[|actions| - 1];
      RunSound(r, threads, init);
      var before := Run(r, Start(threads), init).value;
      StepSound(r, before, a);
      StepLowersRank(r, before, a);
    }
  }

  // ---- Main results ------------------------------------------------------------------------

  /** No run goes on for ever: this many steps and no more, whatever the interleaving. */
  lemma RunsAreFinite(r: Race, threads: nat, actions: seq<Action>)
    requires Run(r, Start(threads), actions).Some?
    ensures |actions| <= threads * (8 * r.maxPerThread + 6) + threads + 3
  {
    RunSound(r, threads, actions);
    RankNotNegative(r, Run(r, Start(threads), actions).value);
    SumRepeated(RankOf(r), Start(threads).workers, Worker(Looping, 0, 0));
  }

  /** A winner that is returned passed both tests. */
  lemma ReturnedWinnerIsGenuine(r: Race, threads: nat, actions: seq<Action>)
    requires Run(r, Start(threads), actions).Some? && Run(r, Start(threads), actions).value.main.Returned?
    ensures var result := Outcome(Run(r, Start(threads), actions).value);
      result.Some? ==> Genuine(r, result.value.0)
  {
    RunSound(r, threads, actions);
  }

  lemma DoneAdded(ws: seq<Worker>)
    requires AllDone(ws)
    ensures Sum(Added, ws) == Sum(Tried, ws) + Sum(AddedTwice, ws)
  {
    SumAgrees(Added, Tried, AddedTwice, ws);
  }

  /** The count returned is the number of nonces tried, plus each winner's remainder over 64 once more. */
  lemma ReturnedCount(r: Race, threads: nat, actions: seq<Action>)
    requires Run(r, Start(threads), actions).Some? && Run(r, Start(threads), actions).value.main.Returned?
    ensures var s := Run(r, Start(threads), actions).value;
      Outcome(s).Some? ==> Outcome(s).value.1 == (Sum(Tried, s.workers) + Sum(AddedTwice, s.workers)) % U64_LIMIT
  {
    RunSound(r, threads, actions);
    var s := Run(r, Start(threads), actions).value;
    DoneAdded(s.workers);
    WrappedIsModulo(Sum(Added, s.workers));
  }

  /** Nothing found before the timeout means that every worker used up its budget in vain. */
  lemma NothingFoundMeansExhausted(r: Race, threads: nat, actions: seq<Action>)
    requires Run(r, Start(threads), actions).Some? && Run(r, Start(threads), actions).value.main.Returned?
    ensures var s := Run(r, Start(threads), actions).value;
      Outcome(s).None? ==> s.reception.TimedOut? || (Winners(s) == 0 && Exhausted(r, s))
  {
    RunSound(r, threads, actions);
  }

  // ---- The stop flag is heeded -------------------------------------------------------------

  lemma {:induction false} StoppedSum(before: seq<Worker>, after: seq<Worker>)
    requires |before| == |after|
    requires forall i :: 0 <= i < |before| ==> after[i].tried + DrawsOne(after[i]) <= before[i].tried + DrawsOne(before[i])
    ensures Sum(Tried, after) <= Sum(Tried, before) + Sum(DrawsOne, before)
    ensures Sum(DrawsOne, before) <= |before|
  {
    if before != [] {
      var n := |before| - 1;
      var b, a := before[..n], after[..n];
      assert forall i :: 0 <= i < n ==> b[i] == before[i] && a[i] == after[i];
      StoppedSum(b, a);
    }
  }

  lemma {:induction false} StoppedSince(r: Race, threads: nat, actions: seq<Action>, j: nat)
    requires j <= |actions| && Run(r, Start(threads), actions).Some?
    requires Run(r, Start(threads), actions[..j]).Some? && Run(r, Start(threads), actions[..j]).value.stop
    ensures var t, e := Run(r, Start(threads), actions[..j]).value, Run(r, Start(threads), actions).value;
      && e.stop && DrawsNoMore(t, e)
      && |actions| - j + Sum(StepsLeft, e.workers) + MainRank(e) <= Sum(StepsLeft, t.workers) + MainRank(t)
  {
    if j == |actions| {
      assert actions[..j] == actions;
    } else {
      var init, a := actions[..|actions| - 1], actions[|actions| - 1];
      assert init[..j] == actions[..j];
      StoppedSince(r, threads, init, j);
      RunSound(r, threads, init);
      StepSound(r, Run(r, Start(threads), init).value, a);
      StoppedStep(r, Run(r, Start(threads), init).value, a);
    }
  }

  lemma StoppedStep(r: Race, s: State, a: Action)
    requires Sound(r, s) && Enabled(s, a) && s.stop
    ensures Sum(StepsLeft, Next(r, s, a).workers) + MainRank(Next(r, s, a)) < Sum(StepsLeft, s.workers) + MainRank(s)
  {
    if a.Work? {
      var (v, _) := Worked(r, s, s.workers[a.worker], a.nonce);
      StoppedWorkerStep(r, s, s.workers[a.worker], a.nonce);
      SumUpdate(StepsLeft, s.workers, a.worker, v);
    }
  }

  /**
   * From the moment the flag is up, whatever the interleaving, a worker tries at most the one nonce
   * it was about to draw, and a worker at the head of its loop or beyond its draw tries none.
   */
  lemma StopIsHeeded(r: Race, threads: nat, actions: seq<Action>, j: nat)
    requires j <= |actions| && Run(r, Start(threads), actions).Some?
    requires Run(r, Start(threads), actions[..j]).Some? && Run(r, Start(threads), actions[..j]).value.stop
    ensures var t, e := Run(r, Start(threads), actions[..j]).value, Run(r, Start(threads), actions).value;
      && |t.workers| == |e.workers| == threads
      && (forall i :: 0 <= i < threads ==>
            e.workers[i].tried <= t.workers[i].tried + if t.workers[i].pc.Drawing? then 1 else 0)
      && Sum(Tried, e.workers) <= Sum(Tried, t.workers) + threads
  {
    StoppedSince(r, threads, actions, j);
    RunSound(r, threads, actions);
    StoppedSum(Run(r, Start(threads), actions[..j]).value.workers, Run(r, Start(threads), actions).value.workers);
  }

  /** And the race is soon over: what is left does not depend on the budget. */
  lemma StopIsPrompt(r: Race, threads: nat, actions: seq<Action>, j: nat)
    requires j <= |actions| && Run(r, Start(threads), actions).Some?
    requires Run(r, Start(threads), actions[..j]).Some? && Run(r, Start(threads), actions[..j]).value.stop
    ensures |actions| - j <= 7 * threads + 3
  {
    StoppedSince(r, threads, actions, j);
    RunSound(r, threads, actions);
    var t, e := Run(r, Start(threads), actions[..j]).value, Run(r, Start(threads), actions).value;
    SumAtLeast(StepsLeft, e.workers);
    StepsLeftAtMost(t.workers);
  }

  lemma {:induction false} StepsLeftAtMost(ws: seq<Worker>)
    ensures Sum(StepsLeft, ws) <= 6 * |ws|
  {
    if ws != [] {
      StepsLeftAtMost(ws[..|ws| - 1]);
    }
  }

  /** The flag goes up only behind a winner in the channel: raised while the race waits, it has a winner to return. */
  lemma {:induction false} WinnerIsNotLost(r: Race, threads: nat, actions: seq<Action>, j: nat)
    requires j <= |actions| && Run(r, Start(threads), actions).Some?
    requires Run(r, Start(threads), actions[..j]).Some?
    requires var t := Run(r, Start(threads), actions[..j]).value; t.stop && t.main.Receiving?
    ensures var e := Run(r, Start(threads), actions).value;
      && (e.main.Receiving? ==> e.channel.Some? && e.stop)
      && (!e.main.Receiving? ==> e.reception.Got?)
      && (e.main.Returned? ==> Outcome(e).Some?)
  {
    RunSound(r, threads, actions);
    if j == |actions| {
      assert actions[..j] == actions;
    } else {
      var init, a := actions[..|actions| - 1], actions[|actions| - 1];
      assert init[..j] == actions[..j];
      WinnerIsNotLost(r, threads, init, j);
      RunSound(r, threads, init);
      StepSound(r, Run(r, Start(threads), init).value, a);
      StepKeepsOutcome(r, Run(r, Start(threads), init).value, a);
    }
  }

  // ---- When the race has returned ----------------------------------------------------------

  /** When nothing can move, the race has returned exactly if winners exceed receives by at most one. */
  lemma ReturnsIff(r: Race, s: State)
    requires Sound(r, s) && Stuck(s)
    ensures s.main.Returned? <==> Winners(s) <= 1 + Received(s)
    ensures !s.main.Returned? ==> exists i :: 0 <= i < |s.workers| && s.workers[i].pc.Sending?
  {
    SumAtLeast(UnsentOne, s.workers);
    if s.main.Returned? {
      SumZero(UnsentOne, s.workers);
    } else {
      assert !Enabled(s, Receive) && !Enabled(s, TimeOut) && !Enabled(s, Halt) && !Enabled(s, Join);
      var i := s.main.next;
      assert !Enabled(s, Work(i, []));
      assert s.workers[i].pc.Sending?;
      assert UnsentOne(s.workers[i]) == 1;
    }
  }

  // ---- When the race can get stuck ---------------------------------------------------------

  lemma RunOn(r: Race, s: State, actions: seq<Action>, a: Action)
    requires Run(r, s, actions).Some? && Enabled(Run(r, s, actions).value, a)
    ensures Run(r, s, actions + [a]) == Some(Next(r, Run(r, s, actions).value, a))
  {
    assert (actions + [a])[..|actions|] == actions;
  }

  /** Winners are never lost and the one receive is never repeated. */
  lemma StepKeepsOutcome(r: Race, s: State, a: Action)
    requires Sound(r, s) && Enabled(s, a)
    ensures Winners(Next(r, s, a)) >= Winners(s)
    ensures !s.reception.Waiting? ==> Next(r, s, a).reception == s.reception
  {
    if a.Work? {
      WorkKeepsWinners(r, s, a.worker, a.nonce);
    }
  }

  /** Any run can be carried on until nothing moves. */
  lemma {:induction false} CarryOn(r: Race, threads: nat, actions: seq<Action>) returns (full: seq<Action>)
    requires Run(r, Start(threads), actions).Some?
    ensures Run(r, Start(threads), full).Some?
    ensures var s, e := Run(r, Start(threads), actions).value, Run(r, Start(threads), full).value;
      Stuck(e) && Winners(e) >= Winners(s) && (!s.reception.Waiting? ==> e.reception == s.reception)
    decreases Rank(r, Start(threads)) - |actions|
  {
    RunSound(r, threads, actions);
    var s := Run(r, Start(threads), actions).value;
    RankNotNegative(r, s);
    if Stuck(s) {
      full := actions;
    } else {
      var a :| Enabled(s, a);
      RunOn(r, Start(threads), actions, a);
      StepKeepsOutcome(r, s, a);
      RunSound(r, threads, actions + [a]);
      RankNotNegative(r, Next(r, s, a));
      full := CarryOn(r, threads, actions + [a]);
    }
  }

  /** Three steps take a worker that has not begun to a winning nonce. */
  lemma ThreeSteps(r: Race, t: State, i: nat, w: Winner)
    requires Genuine(r, w) && r.maxPerThread >= 1
    requires i < |t.workers| && !t.stop && t.workers[i] == Worker(Looping, 0, 0)
    ensures Next(r, t, Work(i, w.nonce)) == t.(workers := t.workers[i := Worker(Drawing, 0, 0)])
    ensures Next(r, t.(workers := t.workers[i := Worker(Drawing, 0, 0)]), Work(i, w.nonce))
         == t.(workers := t.workers[i := Worker(Solving(w.nonce), 1, 1)])
    ensures Next(r, t.(workers := t.workers[i := Worker(Solving(w.nonce), 1, 1)]), Work(i, w.nonce))
         == t.(workers := t.workers[i := Worker(Reporting(w), 1, 1)])
  {
    assert t.workers[i := Worker(Drawing, 0, 0)][i := Worker(Solving(w.nonce), 1, 1)]
        == t.workers[i := Worker(Solving(w.nonce), 1, 1)];
    assert t.workers[i := Worker(Solving(w.nonce), 1, 1)][i := Worker(Reporting(w), 1, 1)]
        == t.workers[i := Worker(Reporting(w), 1, 1)];
  }

  lemma FindWinner(r: Race, s: State, actions: seq<Action>, i: nat, w: Winner) returns (more: seq<Action>)
    requires Run(r, s, actions).Some? && Genuine(r, w) && r.maxPerThread >= 1
    requires var t := Run(r, s, actions).value; i < |t.workers| && !t.stop && t.workers[i] == Worker(Looping, 0, 0)
    ensures Run(r, s, more).Some?
    ensures var t := Run(r, s, actions).value;
      Run(r, s, more).value == t.(workers := t.workers[i := Worker(Reporting(w), 1, 1)])
  {
    var a := Work(i, w.nonce);
    ThreeSteps(r, Run(r, s, actions).value, i, w);
    RunOn(r, s, actions, a);
    RunOn(r, s, actions + [a], a);
    RunOn(r, s, actions + [a] + [a], a);
    more := actions + [a] + [a] + [a];
  }

  /** Two winners and a timeout. */
  lemma TwoWinnersTimeOut(r: Race, threads: nat, w: Winner) returns (actions: seq<Action>)
    requires threads >= 2 && r.maxPerThread >= 1 && Genuine(r, w)
    ensures Run(r, Start(threads), actions).Some?
    ensures var s := Run(r, Start(threads), actions).value; s.reception.TimedOut? && Winners(s) >= 2
  {
    var s := Start(threads);
    var found := Worker(Reporting(w), 1, 1);
    var one := FindWinner(r, s, [], 0, w);
    var two := FindWinner(r, s, one, 1, w);
    SumUpdate(FoundOne, s.workers, 0, found);
    SumUpdate(FoundOne, s.workers[0 := found], 1, found);
    SumAtLeast(FoundOne, s.workers);
    RunOn(r, s, two, TimeOut);
    actions := two + [TimeOut];
  }

  ghost predicate CanGetStuck(r: Race, threads: nat) {
    exists actions :: Run(r, Start(threads), actions).Some? && Stuck(Run(r, Start(threads), actions).value)
                      && !Run(r, Start(threads), actions).value.main.Returned?
  }

  /** The race can block for ever exactly if two workers may both win. */
  lemma StuckIff(r: Race, threads: nat)
    ensures CanGetStuck(r, threads) <==> threads >= 2 && r.maxPerThread >= 1 && exists w :: Genuine(r, w)
  {
    if CanGetStuck(r, threads) {
      var actions :| Run(r, Start(threads), actions).Some? && Stuck(Run(r, Start(threads), actions).value)
                     && !Run(r, Start(threads), actions).value.main.Returned?;
      StuckNeedsTwoWinners(r, threads, actions);
    }
    if threads >= 2 && r.maxPerThread >= 1 && exists w :: Genuine(r, w) {
      var w :| Genuine(r, w);
      var actions := TwoWinnersTimeOut(r, threads, w);
      var full := CarryOn(r, threads, actions);
      RunSound(r, threads, full);
      ReturnsIff(r, Run(r, Start(threads), full).value);
    }
  }

  lemma StuckNeedsTwoWinners(r: Race, threads: nat, actions: seq<Action>)
    requires Run(r, Start(threads), actions).Some?
    requires var s := Run(r, Start(threads), actions).value; Stuck(s) && !s.main.Returned?
    ensures threads >= 2 && r.maxPerThread >= 1 && exists w :: Genuine(r, w)
  {
    RunSound(r, threads, actions);
    var s := Run(r, Start(threads), actions).value;
    ReturnsIff(r, s);
    var i :| 0 <= i < |s.workers| && s.workers[i].pc.Sending?;
    assert WorkerOk(r, s.stop, s.workers[i]);
    WinnersAtMost(s.workers);
  }

  lemma {:induction false} WinnersAtMost(ws: seq<Worker>)
    ensures Sum(FoundOne, ws) <= |ws|
  {
    if ws != [] {
      WinnersAtMost(ws[..|ws| - 1]);
    }
  }
}
