/** Quiescence: the workers do not spin. Left alone by the network, the server comes to rest after a
    bounded number of steps, and can come to rest with every datagram answered. */
module Rest {
  import opened Imsi
  import opened Sessions
  import opened Gateway
  import opened Handshake
  import opened EndToEnd
  import D = Delivery
  import P = Progress
  import B = Blacklist
  import M = Machine

  // ------------------------------------------------------------------------- clearing the flag

  /** A worker that saw the flag up finds it still up when it clears it. */
  predicate ClearingOk(g: Gateway) { forall w :: 0 <= w < |g.workers| && g.workers[w].Clearing? ==> g.flag }

  lemma ClearKeepsClearingOk(cfg: M.Config, g: Gateway, w: nat)
    requires MutexOk(g) && Allowed(cfg, g, Clear(w))
    ensures ClearingOk(Next(cfg, g, Clear(w)))
  {
    forall v | 0 <= v < |g.workers| && v != w ensures !g.workers[v].Clearing? {
      assert HoldsMutex(g.workers[w]);
    }
  }

  lemma StepKeepsClearingOk(cfg: M.Config, g: Gateway, st: Step)
    requires MutexOk(g) && ClearingOk(g) && Allowed(cfg, g, st)
    ensures ClearingOk(Next(cfg, g, st))
  {
    if st.Clear? {
      ClearKeepsClearingOk(cfg, g, st.w);
    } else {
      StepMovesOneWorker(cfg, g, st);
    }
  }

  lemma {:induction false} RunKeepsClearingOk(cfg: M.Config, g: Gateway, steps: seq<Step>)
    requires MutexOk(g) && ClearingOk(g) && Run(cfg, g, steps)
    ensures MutexOk(End(cfg, g, steps)) && ClearingOk(End(cfg, g, steps))
    decreases |steps|
  {
    if steps != [] {
      StepKeepsMutexOk(cfg, g, steps[0]);
      StepKeepsClearingOk(cfg, g, steps[0]);
      RunKeepsClearingOk(cfg, Next(cfg, g, steps[0]), steps[1..]);
    }
  }

  function Up(flag: bool): nat { if flag then 1 else 0 }

  function Clears(steps: seq<Step>): nat
  {
    if steps == [] then 0 else Clears(steps[1..]) + if steps[0].Clear? then 1 else 0
  }

  function Raises(steps: seq<Step>): nat
  {
    if steps == [] then 0 else Raises(steps[1..]) + if steps[0].RaiseFlag? then 1 else 0
  }

  lemma FlagBudget(cfg: M.Config, g: Gateway, st: Step)
    requires ClearingOk(g) && Allowed(cfg, g, st)
    ensures Up(st.Clear?) + Up(Next(cfg, g, st).flag) <= Up(g.flag) + Up(st.RaiseFlag?)
  {
  }

  lemma {:induction false} ClearsAreBounded(cfg: M.Config, g: Gateway, steps: seq<Step>)
    requires MutexOk(g) && ClearingOk(g) && Run(cfg, g, steps)
    ensures Clears(steps) + Up(End(cfg, g, steps).flag) <= Up(g.flag) + Raises(steps)
    decreases |steps|
  {
    if steps != [] {
      FlagBudget(cfg, g, steps[0]);
      StepKeepsMutexOk(cfg, g, steps[0]);
      StepKeepsClearingOk(cfg, g, steps[0]);
      ClearsAreBounded(cfg, Next(cfg, g, steps[0]), steps[1..]);
    }
  }

  /** In every run the flag is cleared no more often than it is raised. */
  lemma ClearsMatchRaises(cfg: M.Config, start: int, blacklist: set<string>, n: nat, steps: seq<Step>)
    requires Run(cfg, Initial(start, blacklist, n), steps)
    ensures Clears(steps) <= Raises(steps)
  {
    ClearsAreBounded(cfg, Initial(start, blacklist, n), steps);
  }

  // ------------------------------------------------------------------------- work left to do

  /** At most this many steps, and what they set off, separate a worker from blocking. */
  function Effort(pc: Worker): nat
  {
    match pc
    case Blocked => 0
    case Dozing => 1
    case Clearing => 1
    case Testing => 2
    case Locking => 3
    case Polling => 4
    case Replying(_, _, _) => 5
    case Updating(_, _, _) => 6
    case Handling(_) => 7
  }

  function ProducerEffort(p: Producer): nat
  {
    match p
    case Reading => 0
    case Refusing(_) => 1
    case Notifying => 4
    case Raising => 9
    case Offering(_) => 14
  }

  function Efforts(ws: seq<Worker>): nat
  {
    if ws == [] then 0 else Efforts(ws[..|ws| - 1]) + Effort(ws[|ws| - 1])
  }

  /** The measure: a queued datagram costs as much as the raised flag, four steps. */
  function Work(g: Gateway): nat
  {
    Efforts(g.workers) + ProducerEffort(g.producer) + 4 * |g.queue| + 4 * Up(g.flag) + Up(g.alive)
  }

  lemma {:induction false} EffortsAfterMove(ws: seq<Worker>, w: nat, pc: Worker)
    requires w < |ws|
    ensures Efforts(ws[w := pc]) + Effort(ws[w]) == Efforts(ws) + Effort(pc)
  {
    var rest, moved := ws[..|ws| - 1], ws[w := pc];
    if w < |rest| {
      EffortsAfterMove(rest, w, pc);
      assert moved[..|ws| - 1] == rest[w := pc];
    } else {
      assert moved[..|ws| - 1] == rest;
    }
  }

  lemma {:induction false} EffortsAreBounded(ws: seq<Worker>)
    ensures Efforts(ws) <= 7 * |ws|
  {
    if ws != [] { EffortsAreBounded(ws[..|ws| - 1]); }
  }

  /** The server's own steps: all but a new packet, a spurious wake-up, and other users of the
      session manager. */
  predicate Inner(st: Step) { !st.Receive? && !st.WakeSpuriously? && !st.Other? }

  lemma EffortsAfterStep(cfg: M.Config, g: Gateway, st: Step)
    requires Allowed(cfg, g, st)
    ensures var m, g' := MovedWorker(st), Next(cfg, g, st);
            && (m.None? ==> Efforts(g'.workers) == Efforts(g.workers))
            && (m.Some? ==>
                  m.value < |g.workers| == |g'.workers|
                  && Efforts(g'.workers) + Effort(g.workers[m.value])
                     == Efforts(g.workers) + Effort(g'.workers[m.value]))
  {
    StepMovesOneWorker(cfg, g, st);
    var m := MovedWorker(st);
    if m.Some? { EffortsAfterMove(g.workers, m.value, Next(cfg, g, st).workers[m.value]); }
  }

  lemma ProducerStepWorks(cfg: M.Config, g: Gateway, st: Step)
    requires Allowed(cfg, g, st)
    requires st.TryEnqueue? || st.ReplyFull? || st.RaiseFlag? || st.NotifyOne?
    ensures Work(Next(cfg, g, st)) < Work(g)
  {
    EffortsAfterStep(cfg, g, st);
  }

  lemma DecodeWorks(cfg: M.Config, g: Gateway, st: Step)
    requires Allowed(cfg, g, st) && st.Decode?
    ensures Work(Next(cfg, g, st)) < Work(g)
  {
    EffortsAfterStep(cfg, g, st);
  }

  lemma HandlerStepWorks(cfg: M.Config, g: Gateway, st: Step)
    requires Allowed(cfg, g, st) && (st.Store? || st.Respond?)
    ensures Work(Next(cfg, g, st)) < Work(g)
  {
    EffortsAfterStep(cfg, g, st);
  }

  lemma WaitStepWorks(cfg: M.Config, g: Gateway, st: Step)
    requires ClearingOk(g) && Allowed(cfg, g, st)
    requires st.Poll? || st.Lock? || st.Test? || st.Block? || st.Clear?
    ensures Work(Next(cfg, g, st)) < Work(g)
  {
    EffortsAfterStep(cfg, g, st);
  }

  /** Every step of its own leaves the server with less to do. */
  lemma InnerStepWorks(cfg: M.Config, g: Gateway, st: Step)
    requires ClearingOk(g) && Allowed(cfg, g, st) && Inner(st)
    ensures Work(Next(cfg, g, st)) < Work(g)
  {
    if st.TryEnqueue? || st.ReplyFull? || st.RaiseFlag? || st.NotifyOne? {
      ProducerStepWorks(cfg, g, st);
    } else if st.Decode? {
      DecodeWorks(cfg, g, st);
    } else if st.Store? || st.Respond? {
      HandlerStepWorks(cfg, g, st);
    } else {
      WaitStepWorks(cfg, g, st);
    }
  }

  function InnerCount(steps: seq<Step>): nat
  {
    if steps == [] then 0 else InnerCount(steps[1..]) + if Inner(steps[0]) then 1 else 0
  }

  lemma {:induction false} WorkBounds(cfg: M.Config, g: Gateway, steps: seq<Step>)
    requires MutexOk(g) && ClearingOk(g) && Run(cfg, g, steps) && P.AllQuiet(steps)
    ensures InnerCount(steps) + Work(End(cfg, g, steps)) <= Work(g)
    decreases |steps|
  {
    if steps != [] {
      var g' := Next(cfg, g, steps[0]);
      assert P.Quiet(steps[0]);
      if Inner(steps[0]) { InnerStepWorks(cfg, g, steps[0]); } else { assert Work(g') == Work(g); }
      StepKeepsMutexOk(cfg, g, steps[0]);
      StepKeepsClearingOk(cfg, g, steps[0]);
      assert forall i :: 0 <= i < |steps[1..]| ==> steps[1..][i] == steps[i + 1];
      WorkBounds(cfg, g', steps[1..]);
    }
  }

  lemma ReachableIsClearingOk(cfg: M.Config, start: int, blacklist: set<string>, n: nat, before: seq<Step>)
    requires Run(cfg, Initial(start, blacklist, n), before)
    ensures var g := End(cfg, Initial(start, blacklist, n), before);
            MutexOk(g) && ClearingOk(g) && |g.workers| == n
  {
    RunKeepsClearingOk(cfg, Initial(start, blacklist, n), before);
    RunKeepsMutexOk(cfg, Initial(start, blacklist, n), before);
  }

  /** From any reachable state on, whatever the other users of the session manager do, a run
      without new packets and spurious wake-ups holds at most 7n + 4q + 19 steps of the server, for n
      workers and q queued datagrams: no worker polls for ever. */
  lemma ServerComesToRest(cfg: M.Config, start: int, blacklist: set<string>, n: nat, before: seq<Step>,
                          steps: seq<Step>)
    requires Run(cfg, Initial(start, blacklist, n), before)
    requires Run(cfg, End(cfg, Initial(start, blacklist, n), before), steps) && P.AllQuiet(steps)
    ensures InnerCount(steps) <= 7 * n + 4 * |End(cfg, Initial(start, blacklist, n), before).queue| + 19
  {
    var g := End(cfg, Initial(start, blacklist, n), before);
    ReachableIsClearingOk(cfg, start, blacklist, n, before);
    WorkBounds(cfg, g, steps);
    EffortsAreBounded(g.workers);
  }

  // ------------------------------------------------------------------------- how it can end

  /** Everyone waits for the next packet. */
  predicate AtRest(g: Gateway)
  {
    g.producer == Reading && forall w :: 0 <= w < |g.workers| ==> g.workers[w] == Blocked
  }

  /** Every datagram still to be decoded is acceptable. */
  predicate PendingOk(g: Gateway)
  {
    && (forall i :: 0 <= i < |g.queue| ==> Acceptable(g.queue[i].bytes))
    && (g.producer.Offering? ==> Acceptable(g.producer.d.bytes))
    && (forall w :: 0 <= w < |g.workers| && g.workers[w].Handling? ==> Acceptable(g.workers[w].d.bytes))
  }

  predicate Settling(g: Gateway)
  {
    && g.alive && !g.sm.cleaner.Scanning?
    && MutexOk(g) && ClearingOk(g) && VerdictsOk(g) && PendingOk(g)
  }

  lemma ProducerCanMove(cfg: M.Config, g: Gateway) returns (st: Step)
    requires Settling(g) && g.producer != Reading
    ensures Allowed(cfg, g, st) && Inner(st)
  {
    match g.producer
    case Offering(_) => st := TryEnqueue(true);
    case Refusing(_) => st := ReplyFull;
    case Raising => st := RaiseFlag;
    case Notifying =>
      st := NotifyOne(None);
      if w :| 0 <= w < |g.workers| && g.workers[w] == Blocked {
        st := NotifyOne(Some(w));
      }
  }

  lemma HolderCanMove(cfg: M.Config, g: Gateway) returns (st: Step)
    requires Settling(g) && g.mutex.Some?
    ensures Allowed(cfg, g, st) && Inner(st)
  {
    var w := g.mutex.value;
    assert HoldsMutex(g.workers[w]);
    st := if g.workers[w].Testing? then Test(w) else if g.workers[w].Dozing? then Block(w) else Clear(w);
  }

  lemma WorkerCanMove(cfg: M.Config, g: Gateway, w: nat) returns (st: Step)
    requires Settling(g) && g.mutex.None? && w < |g.workers| && g.workers[w] != Blocked
    ensures Allowed(cfg, g, st) && Inner(st)
  {
    var pc := g.workers[w];
    assert !HoldsMutex(pc) && WorkerFits(g.sm.calls, w, pc);
    if pc.Polling? {
      st := Poll(w);
    } else if pc.Locking? {
      st := Lock(w);
    } else if pc.Handling? {
      st := Decode(w, g.sm.clock, 0);
    } else if pc.Updating? {
      st := Store(w, g.sm.clock, g.sm.clock, 0);
    } else {
      st := Respond(w);
    }
  }

  /** Short of rest there is always a step to take. */
  lemma SomeoneCanMove(cfg: M.Config, g: Gateway) returns (st: Step)
    requires Settling(g) && !AtRest(g)
    ensures Allowed(cfg, g, st) && Inner(st)
  {
    if g.producer != Reading {
      st := ProducerCanMove(cfg, g);
    } else if g.mutex.Some? {
      st := HolderCanMove(cfg, g);
    } else {
      var w :| 0 <= w < |g.workers| && g.workers[w] != Blocked;
      st := WorkerCanMove(cfg, g, w);
    }
  }

  lemma PollKeepsPendingOk(cfg: M.Config, g: Gateway, st: Step)
    requires PendingOk(g) && Allowed(cfg, g, st) && st.Poll?
    ensures PendingOk(Next(cfg, g, st))
  {
    StepMovesOneWorker(cfg, g, st);
  }

  lemma EnqueueKeepsPendingOk(cfg: M.Config, g: Gateway, st: Step)
    requires PendingOk(g) && Allowed(cfg, g, st) && st.TryEnqueue?
    ensures PendingOk(Next(cfg, g, st))
  {
    StepMovesOneWorker(cfg, g, st);
  }

  lemma InnerKeepsPendingOk(cfg: M.Config, g: Gateway, st: Step)
    requires PendingOk(g) && Allowed(cfg, g, st) && Inner(st)
    ensures PendingOk(Next(cfg, g, st))
  {
    if st.Poll? {
      PollKeepsPendingOk(cfg, g, st);
    } else if st.TryEnqueue? {
      EnqueueKeepsPendingOk(cfg, g, st);
    } else {
      StepMovesOneWorker(cfg, g, st);
      assert Next(cfg, g, st).queue == g.queue;
    }
  }

  lemma InnerLeavesCleaner(cfg: M.Config, g: Gateway, st: Step)
    requires Allowed(cfg, g, st) && Inner(st)
    ensures Next(cfg, g, st).sm.cleaner == g.sm.cleaner && Next(cfg, g, st).received == g.received
  {
    assert Next(cfg, g, st).sm == AfterSession(cfg, g, st);
  }

  lemma InnerStaysAlive(cfg: M.Config, g: Gateway, st: Step)
    requires PendingOk(g) && Allowed(cfg, g, st) && Inner(st)
    ensures Next(cfg, g, st).alive
  {
    if st.Decode? { DecodeSurvivesIff(cfg, g, st.w, st.at, st.wall); }
  }

  lemma InnerKeepsSettling(cfg: M.Config, g: Gateway, st: Step)
    requires Settling(g) && Allowed(cfg, g, st) && Inner(st)
    ensures Settling(Next(cfg, g, st))
  {
    StepKeepsMutexOk(cfg, g, st);
    StepKeepsClearingOk(cfg, g, st);
    StepKeepsVerdicts(cfg, g, st);
    InnerKeepsPendingOk(cfg, g, st);
    InnerLeavesCleaner(cfg, g, st);
    InnerStaysAlive(cfg, g, st);
  }

  predicate AllInner(steps: seq<Step>) { forall i :: 0 <= i < |steps| ==> Inner(steps[i]) }

  lemma {:induction false} Settle(cfg: M.Config, g: Gateway) returns (steps: seq<Step>)
    requires Settling(g)
    ensures Run(cfg, g, steps) && AllInner(steps)
    ensures var g' := End(cfg, g, steps); g'.alive && AtRest(g') && g'.received == g.received
    decreases Work(g)
  {
    if AtRest(g) {
      steps := [];
    } else {
      var st := SomeoneCanMove(cfg, g);
      InnerStepWorks(cfg, g, st);
      InnerKeepsSettling(cfg, g, st);
      InnerLeavesCleaner(cfg, g, st);
      var rest := Settle(cfg, Next(cfg, g, st));
      steps := [st] + rest;
      assert steps[1..] == rest;
    }
  }

  /** An idle queue stays idle while no packet comes. */
  lemma {:induction false} IdleStaysIdle(cfg: M.Config, g: Gateway, steps: seq<Step>)
    requires g.queue == [] && g.producer == Reading && Run(cfg, g, steps) && P.AllQuiet(steps)
    ensures End(cfg, g, steps).queue == []
    decreases |steps|
  {
    if steps != [] {
      assert P.Quiet(steps[0]);
      assert forall i :: 0 <= i < |steps[1..]| ==> steps[1..][i] == steps[i + 1];
      IdleStaysIdle(cfg, Next(cfg, g, steps[0]), steps[1..]);
    }
  }

  lemma {:induction false} AnsweredIsInAnswers(answers: seq<Answer>, d: Datagram)
    requires D.AnsweredTimes(answers, d) > 0
    ensures exists a :: a in answers && a.to == d
  {
    var last := |answers| - 1;
    if answers[last].to == d {
      assert answers[last] in answers;
    } else {
      AnsweredIsInAnswers(answers[..last], d);
      var a :| a in answers[..last] && a.to == d;
      assert a in answers;
    }
  }

  lemma {:induction false} BlockedHoldNothing(ws: seq<Worker>, d: Datagram)
    requires forall w :: 0 <= w < |ws| ==> ws[w] == Blocked
    ensures D.HeldTimes(ws, d) == 0
  {
    if ws != [] { BlockedHoldNothing(ws[..|ws| - 1], d); }
  }

  /** At rest with an empty queue, everything received has been answered. */
  lemma AllAnswered(cfg: M.Config, start: int, blacklist: set<string>, n: nat, steps: seq<Step>, d: Datagram)
    requires Run(cfg, Initial(start, blacklist, n), steps)
    requires var g := End(cfg, Initial(start, blacklist, n), steps); AtRest(g) && g.queue == [] && d in g.received
    ensures exists a :: a in End(cfg, Initial(start, blacklist, n), steps).answers && a.to == d
  {
    var g := End(cfg, Initial(start, blacklist, n), steps);
    D.ExactlyOnce(cfg, start, blacklist, n, steps, d);
    BlockedHoldNothing(g.workers, d);
    AnsweredIsInAnswers(g.answers, d);
  }

  predicate Answered(g: Gateway) { forall d :: d in g.received ==> exists a :: a in g.answers && a.to == d }

  /** With two or more workers nothing is left in the queue; nor is it with fewer, if it was empty. */
  lemma NothingLeft(cfg: M.Config, start: int, blacklist: set<string>, n: nat, before: seq<Step>, steps: seq<Step>)
    requires Run(cfg, Initial(start, blacklist, n), before)
    requires var g := End(cfg, Initial(start, blacklist, n), before);
             && (n >= 2 || (g.queue == [] && g.producer == Reading))
             && Run(cfg, g, steps) && P.AllQuiet(steps) && AtRest(End(cfg, g, steps))
    ensures var g' := End(cfg, End(cfg, Initial(start, blacklist, n), before), steps);
            g'.queue == [] && Answered(g')
  {
    var g0 := Initial(start, blacklist, n);
    var g := End(cfg, g0, before);
    var g' := End(cfg, g, steps);
    RunConcat(cfg, g0, before, steps);
    if n >= 2 {
      WorkIsAttended(cfg, start, blacklist, n, before + steps);
    } else {
      IdleStaysIdle(cfg, g, steps);
    }
    forall d | d in g'.received ensures exists a :: a in g'.answers && a.to == d {
      AllAnswered(cfg, start, blacklist, n, before + steps, d);
    }
  }

  lemma QuietConcat(a: seq<Step>, b: seq<Step>)
    requires P.AllQuiet(a) && AllInner(b)
    ensures P.AllQuiet(a + b)
  {
    forall i | 0 <= i < |a + b| ensures P.Quiet((a + b)[i]) {
      if i >= |a| { assert Inner(b[i - |a|]); }
    }
  }

  lemma ScanThenSettle(cfg: M.Config, g: Gateway) returns (steps: seq<Step>)
    requires g.alive && MutexOk(g) && ClearingOk(g) && VerdictsOk(g) && PendingOk(g) && M.ScanOk(g.sm)
    ensures Run(cfg, g, steps) && P.AllQuiet(steps)
    ensures var g' := End(cfg, g, steps); g'.alive && AtRest(g') && g'.received == g.received
  {
    steps := [];
    if g.sm.cleaner.Scanning? {
      var scan := B.FinishScan(cfg, g.sm);
      P.LiftScan(cfg, g, scan);
      steps := Others(scan);
    }
    var rest := Settle(cfg, End(cfg, g, steps));
    RunConcat(cfg, g, steps, rest);
    QuietConcat(steps, rest);
    steps := steps + rest;
  }

  /** From every reachable live state in which all that is still to be decoded is acceptable, a run
      without new packets and spurious wake-ups brings the server to rest, alive: every worker
      blocked and, with two or more of them, or with nothing queued to begin with, the queue empty
      and every datagram received answered. */
  lemma CanComeToRest(cfg: M.Config, start: int, blacklist: set<string>, n: nat, before: seq<Step>)
    returns (steps: seq<Step>)
    requires Run(cfg, Initial(start, blacklist, n), before)
    requires var g := End(cfg, Initial(start, blacklist, n), before); g.alive && PendingOk(g)
    ensures var g := End(cfg, Initial(start, blacklist, n), before);
            && Run(cfg, g, steps) && P.AllQuiet(steps)
            && End(cfg, g, steps).alive && AtRest(End(cfg, g, steps)) && End(cfg, g, steps).received == g.received
            && (n >= 2 || (g.queue == [] && g.producer == Reading) ==>
                  End(cfg, g, steps).queue == [] && Answered(End(cfg, g, steps)))
  {
    var g := End(cfg, Initial(start, blacklist, n), before);
    P.ReachableIsReady(cfg, start, blacklist, n, before);
    ReachableIsClearingOk(cfg, start, blacklist, n, before);
    steps := ScanThenSettle(cfg, g);
    if n >= 2 || (g.queue == [] && g.producer == Reading) {
      NothingLeft(cfg, start, blacklist, n, before, steps);
    }
  }
}
