/** Queued work can always be got to: without another packet and without a spurious wake-up,
    some continuation takes the head of the queue, exactly when there are two workers or more. */
module Progress {
  import opened Imsi
  import opened Sessions
  import opened Gateway
  import opened Handshake
  import opened EndToEnd
  import M = Machine
  import B = Blacklist

  predicate Quiet(st: Step) { !st.Receive? && !st.WakeSpuriously? }

  predicate AllQuiet(steps: seq<Step>) { forall i :: 0 <= i < |steps| ==> Quiet(steps[i]) }

  /** Between the two states the head of the queue was taken, unless the process ended on the way. */
  predicate Takes(g: Gateway, g': Gateway)
  {
    !g'.alive || (g.queue != [] && |g.taken| < |g'.taken| && g'.taken[|g.taken|] == g.queue[0])
  }

  ghost predicate CanTake(cfg: M.Config, g: Gateway)
  {
    exists steps :: Run(cfg, g, steps) && AllQuiet(steps) && Takes(g, End(cfg, g, steps))
  }

  /** What the argument needs of a state: all of it holds in reachable live states. */
  predicate Ready(g: Gateway)
  {
    g.alive && g.queue != [] && MutexOk(g) && VerdictsOk(g) && M.ScanOk(g.sm)
  }

  // ------------------------------------------------------------------ working back from the poll

  lemma AfterRun(cfg: M.Config, g: Gateway, first: seq<Step>)
    requires Run(cfg, g, first) && AllQuiet(first)
    requires End(cfg, g, first).queue == g.queue && End(cfg, g, first).taken == g.taken
    requires CanTake(cfg, End(cfg, g, first))
    ensures CanTake(cfg, g)
  {
    var g' := End(cfg, g, first);
    var rest :| Run(cfg, g', rest) && AllQuiet(rest) && Takes(g', End(cfg, g', rest));
    RunConcat(cfg, g, first, rest);
    assert AllQuiet(first + rest);
  }

  lemma AfterStep(cfg: M.Config, g: Gateway, st: Step)
    requires Allowed(cfg, g, st) && Quiet(st)
    requires Next(cfg, g, st).queue == g.queue && Next(cfg, g, st).taken == g.taken
    requires CanTake(cfg, Next(cfg, g, st))
    ensures CanTake(cfg, g)
  {
    assert Run(cfg, g, []) && [] + [st] == [st];
    RunSnoc(cfg, g, [], st);
    AfterRun(cfg, g, [st]);
  }

  lemma PollingTakes(cfg: M.Config, g: Gateway, w: nat)
    requires g.alive && g.queue != [] && At(g, w, Polling)
    ensures CanTake(cfg, g)
  {
    assert Run(cfg, g, []) && [] + [Poll(w)] == [Poll(w)];
    RunSnoc(cfg, g, [], Poll(w));
    assert AllQuiet([Poll(w)]) && Takes(g, End(cfg, g, [Poll(w)]));
  }

  lemma ClearingTakes(cfg: M.Config, g: Gateway, w: nat)
    requires g.alive && g.queue != [] && At(g, w, Clearing)
    ensures CanTake(cfg, g)
  {
    PollingTakes(cfg, Next(cfg, g, Clear(w)), w);
    AfterStep(cfg, g, Clear(w));
  }

  lemma ReplyingTakes(cfg: M.Config, g: Gateway, w: nat)
    requires g.alive && g.queue != [] && w < |g.workers| && g.workers[w].Replying?
    ensures CanTake(cfg, g)
  {
    PollingTakes(cfg, Next(cfg, g, Respond(w)), w);
    AfterStep(cfg, g, Respond(w));
  }

  lemma StoringTakes(cfg: M.Config, g: Gateway, w: nat)
    requires g.alive && g.queue != [] && w < |g.workers| && g.workers[w].Updating?
    requires w in g.sm.calls && !g.sm.cleaner.Scanning?
    ensures CanTake(cfg, g)
  {
    var st := Store(w, g.sm.clock, g.sm.clock, 0);
    ReplyingTakes(cfg, Next(cfg, g, st), w);
    AfterStep(cfg, g, st);
  }

  /** Steps of the cleanup thread alone, seen from the gateway. */
  lemma LiftScan(cfg: M.Config, g: Gateway, steps: seq<M.Step>)
    requires g.alive && M.Run(cfg, g.sm, steps) && forall i :: 0 <= i < |steps| ==> B.ScanAct(steps[i].act)
    ensures Run(cfg, g, Others(steps)) && AllQuiet(Others(steps))
    ensures End(cfg, g, Others(steps)) == g.(sm := M.End(cfg, g.sm, steps))
  {
    SessionsRunInGateway(cfg, g, steps);
  }

  /** A scan in progress holds the update up; it can be finished first. */
  lemma UpdatingTakes(cfg: M.Config, g: Gateway, w: nat)
    requires Ready(g) && w < |g.workers| && g.workers[w].Updating?
    ensures CanTake(cfg, g)
  {
    assert WorkerFits(g.sm.calls, w, g.workers[w]);
    if g.sm.cleaner.Scanning? {
      var scan := B.FinishScan(cfg, g.sm);
      LiftScan(cfg, g, scan);
      StoringTakes(cfg, End(cfg, g, Others(scan)), w);
      AfterRun(cfg, g, Others(scan));
    } else {
      StoringTakes(cfg, g, w);
    }
  }

  lemma HandlingTakes(cfg: M.Config, g: Gateway, w: nat)
    requires Ready(g) && w < |g.workers| && g.workers[w].Handling?
    ensures CanTake(cfg, g)
  {
    var st := Decode(w, g.sm.clock, 0);
    assert WorkerFits(g.sm.calls, w, g.workers[w]);
    assert Allowed(cfg, g, st);
    var g' := Next(cfg, g, st);
    if g'.alive {
      DecodeKeepsReady(cfg, g, st);
      if g'.workers[w].Updating? { UpdatingTakes(cfg, g', w); } else { ReplyingTakes(cfg, g', w); }
    } else {
      assert Run(cfg, g', []) && AllQuiet([]) && Takes(g', End(cfg, g', []));
    }
    AfterStep(cfg, g, st);
  }

  lemma DecodeKeepsReady(cfg: M.Config, g: Gateway, st: Step)
    requires Ready(g) && Allowed(cfg, g, st) && st.Decode? && Next(cfg, g, st).alive
    ensures Ready(Next(cfg, g, st))
    ensures var pc := Next(cfg, g, st).workers[st.w]; pc.Updating? || pc.Replying?
  {
    StepKeepsMutexOk(cfg, g, st);
    StepKeepsVerdicts(cfg, g, st);
    DecodeSurvivesIff(cfg, g, st.w, st.at, st.wall);
    DecoderAcceptsExactly(g.workers[st.w].d.bytes);
    M.StepKeepsScanOk(cfg, g.sm, SessionStep(g, st).value);
  }

  lemma BusyTakes(cfg: M.Config, g: Gateway, w: nat)
    requires Ready(g) && w < |g.workers| && Busy(g.workers[w])
    ensures CanTake(cfg, g)
  {
    match g.workers[w]
    case Polling => PollingTakes(cfg, g, w);
    case Clearing => ClearingTakes(cfg, g, w);
    case Handling(_) => HandlingTakes(cfg, g, w);
    case Updating(_, _, _) => UpdatingTakes(cfg, g, w);
    case Replying(_, _, _) => ReplyingTakes(cfg, g, w);
  }

  // --------------------------------------------------------- from the flag to a polling worker

  lemma TestingTakes(cfg: M.Config, g: Gateway, w: nat)
    requires g.alive && g.queue != [] && g.flag && At(g, w, Testing)
    ensures CanTake(cfg, g)
  {
    ClearingTakes(cfg, Next(cfg, g, Test(w)), w);
    AfterStep(cfg, g, Test(w));
  }

  lemma FreeLockTakes(cfg: M.Config, g: Gateway, w: nat)
    requires g.alive && g.queue != [] && g.flag && g.mutex == None && At(g, w, Locking)
    ensures CanTake(cfg, g)
  {
    TestingTakes(cfg, Next(cfg, g, Lock(w)), w);
    AfterStep(cfg, g, Lock(w));
  }

  /** A worker waiting for the mutex: whoever holds it tests the raised flag itself, clears it and
      polls, or blocks and so lets go. */
  lemma LockingTakes(cfg: M.Config, g: Gateway, w: nat)
    requires g.alive && g.queue != [] && g.flag && MutexOk(g) && At(g, w, Locking)
    ensures CanTake(cfg, g)
  {
    match g.mutex
    case None => FreeLockTakes(cfg, g, w);
    case Some(v) =>
      assert HoldsMutex(g.workers[v]);
      if g.workers[v].Testing? {
        TestingTakes(cfg, g, v);
      } else if g.workers[v].Clearing? {
        ClearingTakes(cfg, g, v);
      } else {
        FreeLockTakes(cfg, Next(cfg, g, Block(v)), w);
        AfterStep(cfg, g, Block(v));
      }
  }

  lemma StirringTakes(cfg: M.Config, g: Gateway, w: nat)
    requires g.alive && g.queue != [] && g.flag && MutexOk(g) && w < |g.workers| && Stirring(g.workers[w])
    ensures CanTake(cfg, g)
  {
    if g.workers[w].Testing? { TestingTakes(cfg, g, w); } else { LockingTakes(cfg, g, w); }
  }

  lemma SomeoneTakes(cfg: M.Config, g: Gateway)
    requires Ready(g) && (SomeBusy(g.workers) || (g.flag && SomeStirring(g.workers)))
    ensures CanTake(cfg, g)
  {
    if SomeBusy(g.workers) {
      var w :| 0 <= w < |g.workers| && Busy(g.workers[w]);
      BusyTakes(cfg, g, w);
    } else {
      var w :| 0 <= w < |g.workers| && Stirring(g.workers[w]);
      StirringTakes(cfg, g, w);
    }
  }

  lemma QuietStepKeepsReady(cfg: M.Config, g: Gateway, st: Step)
    requires Ready(g) && Allowed(cfg, g, st) && (st.RaiseFlag? || st.NotifyOne?)
    ensures Ready(Next(cfg, g, st)) && Next(cfg, g, st).queue == g.queue && Next(cfg, g, st).taken == g.taken
  {
    StepKeepsMutexOk(cfg, g, st);
    StepKeepsVerdicts(cfg, g, st);
  }

  lemma NotifyingTakes(cfg: M.Config, g: Gateway)
    requires Ready(g) && |g.workers| >= 2 && g.flag && g.producer == Notifying
    ensures CanTake(cfg, g)
  {
    var st := NotifyOne(None);
    if SomeBlocked(g.workers) {
      var w :| 0 <= w < |g.workers| && g.workers[w] == Blocked;
      st := NotifyOne(Some(w));
      assert Stirring(Next(cfg, g, st).workers[w]);
    } else {
      NobodyToNotify(g);
    }
    QuietStepKeepsReady(cfg, g, st);
    SomeoneTakes(cfg, Next(cfg, g, st));
    AfterStep(cfg, g, st);
  }

  lemma AttendedTakes(cfg: M.Config, g: Gateway)
    requires Ready(g) && |g.workers| >= 2 && Attended(g)
    ensures CanTake(cfg, g)
  {
    if SomeBusy(g.workers) || (g.flag && SomeStirring(g.workers)) {
      SomeoneTakes(cfg, g);
    } else if g.producer == Raising {
      QuietStepKeepsReady(cfg, g, RaiseFlag);
      NotifyingTakes(cfg, Next(cfg, g, RaiseFlag));
      AfterStep(cfg, g, RaiseFlag);
    } else {
      NotifyingTakes(cfg, g);
    }
  }

  // ------------------------------------------------------------------------- the theorem

  lemma ReachableIsReady(cfg: M.Config, start: int, blacklist: set<string>, n: nat, steps: seq<Step>)
    requires Run(cfg, Initial(start, blacklist, n), steps)
    ensures var g := End(cfg, Initial(start, blacklist, n), steps);
            MutexOk(g) && VerdictsOk(g) && M.ScanOk(g.sm) && |g.workers| == n
  {
    var g0 := Initial(start, blacklist, n);
    RunKeepsMutexOk(cfg, g0, steps);
    RunKeepsVerdicts(cfg, g0, steps);
    GatewayRunsSessions(cfg, g0, steps);
    M.RunKeepsScanOk(cfg, g0.sm, SessionSteps(cfg, g0, steps));
  }

  /** From every reachable live state with work queued, and two workers or more, the head of the
      queue can be taken with no further packet and no spurious wake-up, unless a datagram taken
      before it terminates the process. */
  lemma QueuedWorkCanBeTaken(cfg: M.Config, start: int, blacklist: set<string>, n: nat, steps: seq<Step>)
    requires n >= 2 && Run(cfg, Initial(start, blacklist, n), steps)
    requires var g := End(cfg, Initial(start, blacklist, n), steps); g.alive && g.queue != []
    ensures CanTake(cfg, End(cfg, Initial(start, blacklist, n), steps))
  {
    ReachableIsReady(cfg, start, blacklist, n, steps);
    WorkIsAttended(cfg, start, blacklist, n, steps);
    AttendedTakes(cfg, End(cfg, Initial(start, blacklist, n), steps));
  }

  /** Stranded work stays where it is under every quiet step. */
  lemma {:induction false} StrandedStays(cfg: M.Config, g: Gateway, steps: seq<Step>)
    requires Stranded(g) && Run(cfg, g, steps) && AllQuiet(steps)
    ensures Stranded(End(cfg, g, steps)) && End(cfg, g, steps).taken == g.taken
    decreases |steps|
  {
    if steps != [] {
      assert Quiet(steps[0]);
      assert steps[0].Other?;
      assert forall i :: 0 <= i < |steps[1..]| ==> steps[1..][i] == steps[i + 1];
      StrandedStays(cfg, Next(cfg, g, steps[0]), steps[1..]);
    }
  }

  predicate HasWork(g: Gateway) { g.alive && g.queue != [] }

  ghost predicate AlwaysServable(cfg: M.Config, n: nat)
  {
    forall start: int, blacklist: set<string>, steps: seq<Step> ::
      Run(cfg, Initial(start, blacklist, n), steps)
      && HasWork(End(cfg, Initial(start, blacklist, n), steps))
      ==> CanTake(cfg, End(cfg, Initial(start, blacklist, n), steps))
  }

  /** Queued work can be got to from every reachable live state if and only if there are at
      least two workers. */
  lemma ServableIffTwoWorkers(cfg: M.Config, n: nat)
    ensures AlwaysServable(cfg, n) <==> n >= 2
  {
    if n >= 2 {
      forall start: int, blacklist: set<string>, steps: seq<Step> |
        && Run(cfg, Initial(start, blacklist, n), steps)
        && HasWork(End(cfg, Initial(start, blacklist, n), steps))
        ensures CanTake(cfg, End(cfg, Initial(start, blacklist, n), steps))
      {
        QueuedWorkCanBeTaken(cfg, start, blacklist, n, steps);
      }
    } else {
      StrandsIffFewerThanTwoWorkers(cfg, n);
      var start: int, blacklist: set<string>, steps: seq<Step> :|
        Run(cfg, Initial(start, blacklist, n), steps) && Stranded(End(cfg, Initial(start, blacklist, n), steps));
      StrandedCannotBeTaken(cfg, End(cfg, Initial(start, blacklist, n), steps));
    }
  }

  lemma StrandedCannotBeTaken(cfg: M.Config, g: Gateway)
    requires Stranded(g)
    ensures !CanTake(cfg, g)
  {
    if CanTake(cfg, g) {
      var steps :| Run(cfg, g, steps) && AllQuiet(steps) && Takes(g, End(cfg, g, steps));
      StrandedStays(cfg, g, steps);
    }
  }
}
