/** The wake-up handshake between the UDP thread and any number of workers: when queued work
    can be left behind and when it cannot. */
module Handshake {
  import opened Sessions
  import opened Gateway
  import M = Machine

  /** The worker will look at the queue again without waiting for anything. */
  predicate Busy(pc: Worker)
  {
    pc.Polling? || pc.Clearing? || pc.Handling? || pc.Updating? || pc.Replying?
  }

  predicate SomeBusy(ws: seq<Worker>) { exists w :: 0 <= w < |ws| && Busy(ws[w]) }

  predicate HoldsMutex(pc: Worker) { pc.Testing? || pc.Dozing? || pc.Clearing? }

  /** The mutex is held by exactly the worker between taking it and blocking or releasing it. */
  predicate MutexOk(g: Gateway)
  {
    && (g.mutex.Some? ==> g.mutex.value < |g.workers|)
    && forall w :: 0 <= w < |g.workers| ==> (HoldsMutex(g.workers[w]) <==> g.mutex == Some(w))
  }

  // -------------------------------------------------------------------------- the flag

  /** Queued work is always announced: by the flag, by the UDP thread about to raise it, or by a
      worker that will poll. */
  predicate Announced(g: Gateway)
  {
    g.queue != [] ==> g.flag || g.producer == Raising || SomeBusy(g.workers)
  }

  /** Lifting a busy or a mutex-free move of one worker to the whole pool. */
  lemma BusyAfterMove(ws: seq<Worker>, w: nat, pc: Worker)
    requires w < |ws|
    ensures Busy(pc) ==> SomeBusy(ws[w := pc])
    ensures SomeBusy(ws) && !Busy(ws[w]) ==> SomeBusy(ws[w := pc])
    ensures SomeBusy(ws[w := pc]) && !Busy(pc) ==> SomeBusy(ws)
  {
    if Busy(pc) { assert Busy(ws[w := pc][w]); }
    if SomeBusy(ws) && !Busy(ws[w]) {
      var v :| 0 <= v < |ws| && Busy(ws[v]);
      assert Busy(ws[w := pc][v]);
    }
    if SomeBusy(ws[w := pc]) && !Busy(pc) {
      var v :| 0 <= v < |ws| && Busy(ws[w := pc][v]);
      assert Busy(ws[v]);
    }
  }

  /** The worker a step moves. */
  function MovedWorker(st: Step): Option<nat>
  {
    match st
    case NotifyOne(woken) => woken
    case Poll(w) => Some(w)
    case Lock(w) => Some(w)
    case Test(w) => Some(w)
    case Block(w) => Some(w)
    case WakeSpuriously(w) => Some(w)
    case Clear(w) => Some(w)
    case Decode(w, _, _) => Some(w)
    case Store(w, _, _, _) => Some(w)
    case Respond(w) => Some(w)
    case _ => None
  }

  lemma StepMovesOneWorker(cfg: M.Config, g: Gateway, st: Step)
    requires Allowed(cfg, g, st)
    ensures var m, g' := MovedWorker(st), Next(cfg, g, st);
            if m.Some? then m.value < |g.workers| && |g'.workers| == |g.workers|
                            && g'.workers == g.workers[m.value := g'.workers[m.value]]
            else g'.workers == g.workers
  {
  }

  /** Worker w moves; the mutex stays as it is, or w takes it when free, or lets it go. */
  lemma MoveKeepsMutexOk(g: Gateway, g': Gateway, w: nat)
    requires MutexOk(g) && w < |g.workers| == |g'.workers| && g'.workers == g.workers[w := g'.workers[w]]
    requires HoldsMutex(g'.workers[w]) <==> g'.mutex == Some(w)
    requires g'.mutex == g.mutex || g.mutex == None || g.mutex == Some(w)
    requires g'.mutex == g.mutex || g'.mutex == None || g'.mutex == Some(w)
    ensures MutexOk(g')
  {
    forall v | 0 <= v < |g.workers| && v != w
      ensures HoldsMutex(g'.workers[v]) <==> g'.mutex == Some(v)
    {
      assert g'.workers[v] == g.workers[v];
    }
  }

  lemma StepKeepsMutexOk(cfg: M.Config, g: Gateway, st: Step)
    requires MutexOk(g) && Allowed(cfg, g, st)
    ensures MutexOk(Next(cfg, g, st)) && |Next(cfg, g, st).workers| == |g.workers|
  {
    StepMovesOneWorker(cfg, g, st);
    var m, g' := MovedWorker(st), Next(cfg, g, st);
    if m.Some? { MoveKeepsMutexOk(g, g', m.value); }
  }

  lemma BusyAfterStep(cfg: M.Config, g: Gateway, st: Step)
    requires Allowed(cfg, g, st)
    ensures var m, g' := MovedWorker(st), Next(cfg, g, st);
            && (m.None? ==> SomeBusy(g'.workers) == SomeBusy(g.workers))
            && (m.Some? ==>
                  m.value < |g.workers| == |g'.workers|
                  && (Busy(g'.workers[m.value]) ==> SomeBusy(g'.workers))
                  && (SomeBusy(g.workers) && !Busy(g.workers[m.value]) ==> SomeBusy(g'.workers)))
  {
    StepMovesOneWorker(cfg, g, st);
    var m := MovedWorker(st);
    if m.Some? { BusyAfterMove(g.workers, m.value, Next(cfg, g, st).workers[m.value]); }
  }

  lemma StepKeepsAnnounced(cfg: M.Config, g: Gateway, st: Step)
    requires Announced(g) && Allowed(cfg, g, st)
    ensures Announced(Next(cfg, g, st))
  {
    BusyAfterStep(cfg, g, st);
  }

  lemma {:induction false} RunKeepsAnnounced(cfg: M.Config, g: Gateway, steps: seq<Step>)
    requires Announced(g) && Run(cfg, g, steps)
    ensures Announced(End(cfg, g, steps))
    decreases |steps|
  {
    if steps != [] {
      StepKeepsAnnounced(cfg, g, steps[0]);
      RunKeepsAnnounced(cfg, Next(cfg, g, steps[0]), steps[1..]);
    }
  }

  /** Clearing the flag never forgets work: for any number of workers, in every reachable state
      a non-empty queue is announced. */
  lemma WorkIsAnnounced(cfg: M.Config, start: int, blacklist: set<string>, n: nat, steps: seq<Step>)
    requires Run(cfg, Initial(start, blacklist, n), steps)
    ensures Announced(End(cfg, Initial(start, blacklist, n), steps))
  {
    RunKeepsAnnounced(cfg, Initial(start, blacklist, n), steps);
  }

  // -------------------------------------------------------------------------- stranded work

  /** Work is queued, the UDP thread waits for the next packet and every worker is blocked:
      only another packet or a spurious wake-up can get the work done. */
  predicate Stranded(g: Gateway)
  {
    g.alive && g.queue != [] && g.producer == Reading && forall w :: 0 <= w < |g.workers| ==> g.workers[w] == Blocked
  }

  predicate Stirring(pc: Worker) { pc.Locking? || pc.Testing? }

  predicate SomeStirring(ws: seq<Worker>) { exists w :: 0 <= w < |ws| && Stirring(ws[w]) }

  /** What two or more workers guarantee: while work is queued, some worker is busy, or the
      raised flag is about to be seen by a worker or announced by a notification. */
  predicate Attended(g: Gateway)
  {
    g.queue != [] ==>
      || g.producer == Raising
      || SomeBusy(g.workers)
      || (g.flag && (g.producer == Notifying || SomeStirring(g.workers)))
  }

  lemma StirringAfterMove(ws: seq<Worker>, w: nat, pc: Worker)
    requires w < |ws|
    ensures Stirring(pc) ==> SomeStirring(ws[w := pc])
    ensures SomeStirring(ws) && !Stirring(ws[w]) ==> SomeStirring(ws[w := pc])
  {
    if Stirring(pc) { assert Stirring(ws[w := pc][w]); }
    if SomeStirring(ws) && !Stirring(ws[w]) {
      var v :| 0 <= v < |ws| && Stirring(ws[v]);
      assert Stirring(ws[w := pc][v]);
    }
  }

  /** A notification that finds nobody blocked: of two workers, one is busy or stirring, since
      both cannot be dozing under one mutex. */
  lemma NobodyToNotify(g: Gateway)
    requires |g.workers| >= 2 && MutexOk(g) && !SomeBlocked(g.workers)
    ensures SomeBusy(g.workers) || SomeStirring(g.workers)
  {
    var p, q := g.workers[0], g.workers[1];
    assert p != Blocked && q != Blocked;
    assert !(HoldsMutex(p) && HoldsMutex(q));
    assert Busy(p) || Stirring(p) || Busy(q) || Stirring(q);
  }

  lemma StepKeepsAttended(cfg: M.Config, g: Gateway, st: Step)
    requires |g.workers| >= 2 && MutexOk(g) && Attended(g) && Allowed(cfg, g, st)
    ensures Attended(Next(cfg, g, st))
  {
    BusyAfterStep(cfg, g, st);
    StepMovesOneWorker(cfg, g, st);
    var m, g' := MovedWorker(st), Next(cfg, g, st);
    if m.Some? { StirringAfterMove(g.workers, m.value, g'.workers[m.value]); }
    if st == NotifyOne(None) { NobodyToNotify(g); }
  }

  lemma {:induction false} RunKeepsAttended(cfg: M.Config, g: Gateway, steps: seq<Step>)
    requires |g.workers| >= 2 && MutexOk(g) && Attended(g) && Run(cfg, g, steps)
    ensures Attended(End(cfg, g, steps)) && MutexOk(End(cfg, g, steps))
    ensures |End(cfg, g, steps).workers| == |g.workers|
    decreases |steps|
  {
    if steps != [] {
      StepKeepsAttended(cfg, g, steps[0]);
      StepKeepsMutexOk(cfg, g, steps[0]);
      RunKeepsAttended(cfg, Next(cfg, g, steps[0]), steps[1..]);
    }
  }

  /** With two or more workers queued work is attended in every reachable state. */
  lemma WorkIsAttended(cfg: M.Config, start: int, blacklist: set<string>, n: nat, steps: seq<Step>)
    requires n >= 2 && Run(cfg, Initial(start, blacklist, n), steps)
    ensures Attended(End(cfg, Initial(start, blacklist, n), steps))
  {
    RunKeepsAttended(cfg, Initial(start, blacklist, n), steps);
  }

  ghost predicate CanStrand(cfg: M.Config, n: nat)
  {
    exists start: int, blacklist: set<string>, steps: seq<Step> ::
      Run(cfg, Initial(start, blacklist, n), steps) && Stranded(End(cfg, Initial(start, blacklist, n), steps))
  }

  lemma TwoWorkersNeverStrand(cfg: M.Config, start: int, blacklist: set<string>, n: nat, steps: seq<Step>)
    requires n >= 2 && Run(cfg, Initial(start, blacklist, n), steps)
    ensures !Stranded(End(cfg, Initial(start, blacklist, n), steps))
  {
    WorkIsAttended(cfg, start, blacklist, n, steps);
    RunKeepsAttended(cfg, Initial(start, blacklist, n), steps);
  }

  /** A lone worker tests the flag, finds it down, and blocks only after the packet has been
      queued, the flag raised and the notification spent on nobody. */
  lemma OneWorkerStrands(cfg: M.Config)
    ensures CanStrand(cfg, 1)
  {
    var g0 := Initial(0, {}, 1);
    var steps := LoneWorkerDozes(cfg);
    var g1 := g0.(workers := [Dozing], mutex := Some(0));
    steps := PacketPasses(cfg, g0, steps, g1);
    RunSnoc(cfg, g0, steps, Block(0));
    steps := steps + [Block(0)];
    assert Stranded(End(cfg, g0, steps));
  }

  lemma LoneWorkerDozes(cfg: M.Config) returns (steps: seq<Step>)
    ensures Run(cfg, Initial(0, {}, 1), steps)
    ensures End(cfg, Initial(0, {}, 1), steps) == Initial(0, {}, 1).(workers := [Dozing], mutex := Some(0))
  {
    var g0 := Initial(0, {}, 1);
    assert g0.workers == [Polling];
    steps := [];
    RunSnoc(cfg, g0, steps, Poll(0));
    steps := steps + [Poll(0)];
    RunSnoc(cfg, g0, steps, Lock(0));
    steps := steps + [Lock(0)];
    RunSnoc(cfg, g0, steps, Test(0));
    steps := steps + [Test(0)];
    assert End(cfg, g0, steps).workers == [Dozing];
  }

  /** A packet arrives, is queued and announced while nobody is blocked. */
  lemma PacketPasses(cfg: M.Config, g0: Gateway, before: seq<Step>, g: Gateway) returns (steps: seq<Step>)
    requires Run(cfg, g0, before) && End(cfg, g0, before) == g
    requires g.alive && g.producer == Reading && g.received == [] && !SomeBlocked(g.workers)
    ensures Run(cfg, g0, steps)
    ensures var d := Datagram(0, [], 0);
            End(cfg, g0, steps)
            == g.(received := [d], queue := g.queue + [d], accepted := g.accepted + [d], flag := true)
  {
    steps := before;
    RunSnoc(cfg, g0, steps, Receive([], 0));
    steps := steps + [Receive([], 0)];
    RunSnoc(cfg, g0, steps, TryEnqueue(true));
    steps := steps + [TryEnqueue(true)];
    RunSnoc(cfg, g0, steps, RaiseFlag);
    steps := steps + [RaiseFlag];
    RunSnoc(cfg, g0, steps, NotifyOne(None));
    steps := steps + [NotifyOne(None)];
  }

  lemma NoWorkersStrand(cfg: M.Config)
    ensures CanStrand(cfg, 0)
  {
    var g0 := Initial(0, {}, 0);
    assert Run(cfg, g0, []);
    var steps := PacketPasses(cfg, g0, [], g0);
    assert Stranded(End(cfg, g0, steps));
  }

  /** Queued work can be stranded if and only if there are fewer than two workers. */
  lemma StrandsIffFewerThanTwoWorkers(cfg: M.Config, n: nat)
    ensures CanStrand(cfg, n) <==> n < 2
  {
    if n == 0 {
      NoWorkersStrand(cfg);
    } else if n == 1 {
      OneWorkerStrands(cfg);
    } else if CanStrand(cfg, n) {
      var start: int, blacklist: set<string>, steps: seq<Step> :|
        Run(cfg, Initial(start, blacklist, n), steps) && Stranded(End(cfg, Initial(start, blacklist, n), steps));
      TwoWorkersNeverStrand(cfg, start, blacklist, n, steps);
    }
  }

  lemma WokenSeesFlag(cfg: M.Config, g: Gateway, w: nat)
    requires g.alive && g.flag && g.mutex == None && At(g, w, Blocked)
    ensures var steps := [WakeSpuriously(w), Lock(w), Test(w)];
            Run(cfg, g, steps) && End(cfg, g, steps) == Moved(g, w, Clearing).(mutex := Some(w))
  {
    var steps := [WakeSpuriously(w)];
    assert Run(cfg, g, []) && [] + steps == steps;
    RunSnoc(cfg, g, [], WakeSpuriously(w));
    RunSnoc(cfg, g, steps, Lock(w));
    steps := steps + [Lock(w)];
    RunSnoc(cfg, g, steps, Test(w));
    assert End(cfg, g, steps + [Test(w)]).workers == g.workers[w := Clearing];
  }

  lemma ClearsAndTakes(cfg: M.Config, g: Gateway, w: nat)
    requires g.alive && g.queue != [] && At(g, w, Clearing)
    ensures var steps := [Clear(w), Poll(w)];
            Run(cfg, g, steps) && At(End(cfg, g, steps), w, Handling(g.queue[0]))
  {
    assert Run(cfg, g, []) && [] + [Clear(w)] == [Clear(w)] && [Clear(w)] + [Poll(w)] == [Clear(w), Poll(w)];
    RunSnoc(cfg, g, [], Clear(w));
    RunSnoc(cfg, g, [Clear(w)], Poll(w));
  }

  lemma {:induction false} RunKeepsMutexOk(cfg: M.Config, g: Gateway, steps: seq<Step>)
    requires MutexOk(g) && Run(cfg, g, steps)
    ensures MutexOk(End(cfg, g, steps)) && |End(cfg, g, steps).workers| == |g.workers|
    decreases |steps|
  {
    if steps != [] {
      StepKeepsMutexOk(cfg, g, steps[0]);
      RunKeepsMutexOk(cfg, Next(cfg, g, steps[0]), steps[1..]);
    }
  }

  /** Even then one wake-up, spurious or from the next packet, is enough: the flag is up and
      the mutex free, so the woken worker sees it, polls, and takes the head of the queue. */
  lemma WakeUpRecovers(cfg: M.Config, start: int, blacklist: set<string>, n: nat, run: seq<Step>,
                       w: nat) returns (steps: seq<Step>)
    requires Run(cfg, Initial(start, blacklist, n), run)
    requires var g := End(cfg, Initial(start, blacklist, n), run); g.alive && Stranded(g) && w < |g.workers|
    ensures steps == [WakeSpuriously(w), Lock(w), Test(w), Clear(w), Poll(w)]
    ensures var g := End(cfg, Initial(start, blacklist, n), run);
            g.flag && Run(cfg, g, steps) && At(End(cfg, g, steps), w, Handling(g.queue[0]))
  {
    var g := End(cfg, Initial(start, blacklist, n), run);
    WorkIsAnnounced(cfg, start, blacklist, n, run);
    RunKeepsMutexOk(cfg, Initial(start, blacklist, n), run);
    assert !SomeBusy(g.workers);
    assert forall v :: 0 <= v < |g.workers| ==> !HoldsMutex(g.workers[v]);
    WokenSeesFlag(cfg, g, w);
    var wake := [WakeSpuriously(w), Lock(w), Test(w)];
    ClearsAndTakes(cfg, End(cfg, g, wake), w);
    RunConcat(cfg, g, wake, [Clear(w), Poll(w)]);
    steps := wake + [Clear(w), Poll(w)];
  }
}
