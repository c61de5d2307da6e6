/** Exactly-once accounting: every datagram is always in exactly one place, leaves the queue in
    arrival order, and is answered at most once, to its own sender. */
module Delivery {
  import opened Gateway
  import opened Handshake
  import M = Machine

  // ------------------------------------------------------------------------- the places

  function One(b: bool): nat { if b then 1 else 0 }

  predicate Holds(pc: Worker, d: Datagram)
  {
    match pc
    case Handling(x) => x == d
    case Updating(x, _, _) => x == d
    case Replying(x, _, _) => x == d
    case _ => false
  }

  /** The UDP thread has d in hand: awaiting try_enqueue, or awaiting its queue-full reply. */
  predicate InHand(p: Producer, d: Datagram)
  {
    match p
    case Offering(x) => x == d
    case Refusing(x) => x == d
    case _ => false
  }

  function Times(ds: seq<Datagram>, d: Datagram): nat
  {
    if ds == [] then 0 else Times(ds[..|ds| - 1], d) + One(ds[|ds| - 1] == d)
  }

  function HeldTimes(ws: seq<Worker>, d: Datagram): nat
  {
    if ws == [] then 0 else HeldTimes(ws[..|ws| - 1], d) + One(Holds(ws[|ws| - 1], d))
  }

  function AnsweredTimes(answers: seq<Answer>, d: Datagram): nat
  {
    if answers == [] then 0 else AnsweredTimes(answers[..|answers| - 1], d) + One(answers[|answers| - 1].to == d)
  }

  /** In how many places d is. */
  function Places(g: Gateway, d: Datagram): nat
  {
    One(InHand(g.producer, d)) + Times(g.queue, d) + HeldTimes(g.workers, d) + AnsweredTimes(g.answers, d)
  }

  lemma TimesSnoc(ds: seq<Datagram>, x: Datagram, d: Datagram)
    ensures Times(ds + [x], d) == Times(ds, d) + One(x == d)
  {
    assert (ds + [x])[..|ds + [x]| - 1] == ds;
  }

  lemma {:induction false} TimesHead(ds: seq<Datagram>, d: Datagram)
    requires ds != []
    ensures Times(ds, d) == One(ds[0] == d) + Times(ds[1..], d)
  {
    if |ds| > 1 {
      TimesHead(ds[..|ds| - 1], d);
      assert ds[..|ds| - 1][1..] == ds[1..][..|ds| - 2];
    }
  }

  lemma AnsweredSnoc(answers: seq<Answer>, a: Answer, d: Datagram)
    ensures AnsweredTimes(answers + [a], d) == AnsweredTimes(answers, d) + One(a.to == d)
  {
    assert (answers + [a])[..|answers + [a]| - 1] == answers;
  }

  lemma {:induction false} HeldAfterMove(ws: seq<Worker>, w: nat, pc: Worker, d: Datagram)
    requires w < |ws|
    ensures HeldTimes(ws[w := pc], d) + One(Holds(ws[w], d)) == HeldTimes(ws, d) + One(Holds(pc, d))
  {
    var rest, moved := ws[..|ws| - 1], ws[w := pc];
    if w < |rest| {
      HeldAfterMove(rest, w, pc, d);
      assert moved[..|ws| - 1] == rest[w := pc];
    } else {
      assert moved[..|ws| - 1] == rest;
    }
  }

  lemma HeldAfterStep(cfg: M.Config, g: Gateway, st: Step, d: Datagram)
    requires Allowed(cfg, g, st)
    ensures var m, g' := MovedWorker(st), Next(cfg, g, st);
            && (m.None? ==> HeldTimes(g'.workers, d) == HeldTimes(g.workers, d))
            && (m.Some? ==>
                  m.value < |g.workers| == |g'.workers|
                  && HeldTimes(g'.workers, d) + One(Holds(g.workers[m.value], d))
                     == HeldTimes(g.workers, d) + One(Holds(g'.workers[m.value], d)))
  {
    StepMovesOneWorker(cfg, g, st);
    var m := MovedWorker(st);
    if m.Some? { HeldAfterMove(g.workers, m.value, Next(cfg, g, st).workers[m.value], d); }
  }

  predicate Quiet(st: Step) { !st.Receive? && !st.TryEnqueue? && !st.ReplyFull? && !st.Respond? && !st.Poll? }

  lemma QuietStepFrame(cfg: M.Config, g: Gateway, st: Step, d: Datagram)
    requires Allowed(cfg, g, st) && Quiet(st)
    ensures var g' := Next(cfg, g, st);
            && g'.queue == g.queue && g'.answers == g.answers && g'.received == g.received
            && InHand(g'.producer, d) == InHand(g.producer, d)
  {
  }

  lemma QuietMoveHolds(cfg: M.Config, g: Gateway, st: Step, d: Datagram)
    requires Allowed(cfg, g, st) && Quiet(st) && MovedWorker(st).Some?
    ensures var w, g' := MovedWorker(st).value, Next(cfg, g, st);
            w < |g.workers| == |g'.workers| && Holds(g'.workers[w], d) == Holds(g.workers[w], d)
  {
    StepMovesOneWorker(cfg, g, st);
  }

  /** The session-side and hand-shake steps leave every datagram where it is. */
  lemma QuietStepConserves(cfg: M.Config, g: Gateway, st: Step, d: Datagram)
    requires Allowed(cfg, g, st) && Quiet(st)
    ensures Places(Next(cfg, g, st), d) == Places(g, d) && Next(cfg, g, st).received == g.received
  {
    HeldAfterStep(cfg, g, st, d);
    QuietStepFrame(cfg, g, st, d);
    if MovedWorker(st).Some? { QuietMoveHolds(cfg, g, st, d); }
  }

  lemma PollConserves(cfg: M.Config, g: Gateway, w: nat, d: Datagram)
    requires Allowed(cfg, g, Poll(w))
    ensures Places(Next(cfg, g, Poll(w)), d) == Places(g, d) && Next(cfg, g, Poll(w)).received == g.received
  {
    HeldAfterStep(cfg, g, Poll(w), d);
    if g.queue != [] { TimesHead(g.queue, d); }
  }

  lemma RespondConserves(cfg: M.Config, g: Gateway, w: nat, d: Datagram)
    requires Allowed(cfg, g, Respond(w))
    ensures Places(Next(cfg, g, Respond(w)), d) == Places(g, d) && Next(cfg, g, Respond(w)).received == g.received
  {
    HeldAfterStep(cfg, g, Respond(w), d);
    AnsweredSnoc(g.answers, Next(cfg, g, Respond(w)).answers[|g.answers|], d);
  }

  /** Only an arrival puts a datagram anywhere, and nothing takes one away. */
  lemma StepConservesPlaces(cfg: M.Config, g: Gateway, st: Step, d: Datagram)
    requires Allowed(cfg, g, st)
    ensures var g' := Next(cfg, g, st);
            Places(g', d) + Times(g.received, d) == Places(g, d) + Times(g'.received, d)
  {
    match st
    case Receive(bytes, sender) => TimesSnoc(g.received, Datagram(|g.received|, bytes, sender), d);
    case TryEnqueue(_) => TimesSnoc(g.queue, g.producer.d, d);
    case ReplyFull => AnsweredSnoc(g.answers, Next(cfg, g, st).answers[|g.answers|], d);
    case Respond(w) => RespondConserves(cfg, g, w, d);
    case Poll(w) => PollConserves(cfg, g, w, d);
    case _ => QuietStepConserves(cfg, g, st, d);
  }

  predicate Numbered(ds: seq<Datagram>) { forall i :: 0 <= i < |ds| ==> ds[i].id == i }

  lemma StepKeepsNumbered(cfg: M.Config, g: Gateway, st: Step)
    requires Allowed(cfg, g, st) && Numbered(g.received)
    ensures Numbered(Next(cfg, g, st).received) && g.received <= Next(cfg, g, st).received
  {
  }

  lemma {:induction false} RunConservesPlaces(cfg: M.Config, g: Gateway, steps: seq<Step>, d: Datagram)
    requires Places(g, d) == Times(g.received, d) && Numbered(g.received) && Run(cfg, g, steps)
    ensures Places(End(cfg, g, steps), d) == Times(End(cfg, g, steps).received, d)
    ensures Numbered(End(cfg, g, steps).received)
    decreases |steps|
  {
    if steps != [] {
      StepConservesPlaces(cfg, g, steps[0], d);
      StepKeepsNumbered(cfg, g, steps[0]);
      RunConservesPlaces(cfg, Next(cfg, g, steps[0]), steps[1..], d);
    }
  }

  lemma {:induction false} IdlePoolHoldsNothing(ws: seq<Worker>, d: Datagram)
    requires forall w :: 0 <= w < |ws| ==> ws[w] == Polling
    ensures HeldTimes(ws, d) == 0
  {
    if ws != [] { IdlePoolHoldsNothing(ws[..|ws| - 1], d); }
  }

  lemma {:induction false} NumberedOnce(ds: seq<Datagram>, d: Datagram)
    requires Numbered(ds)
    ensures Times(ds, d) == One(d in ds)
  {
    if ds != [] {
      var rest, last := ds[..|ds| - 1], ds[|ds| - 1];
      NumberedOnce(rest, d);
      assert ds == rest + [last];
    }
  }

  lemma {:induction false} HolderCounts(ws: seq<Worker>, w: nat, d: Datagram)
    requires w < |ws| && Holds(ws[w], d)
    ensures HeldTimes(ws, d) >= 1
  {
    if w < |ws| - 1 { HolderCounts(ws[..|ws| - 1], w, d); }
  }

  lemma TwoHolders(ws: seq<Worker>, v: nat, w: nat, d: Datagram)
    requires v < |ws| && w < |ws| && v != w && Holds(ws[v], d) && Holds(ws[w], d)
    ensures HeldTimes(ws, d) >= 2
  {
    HeldAfterMove(ws, w, Polling, d);
    HolderCounts(ws[w := Polling], v, d);
  }

  lemma {:induction false} AnswerCounts(answers: seq<Answer>, i: nat, j: nat)
    requires i < j < |answers| && answers[i].to == answers[j].to
    ensures AnsweredTimes(answers, answers[i].to) >= 2
  {
    if j < |answers| - 1 {
      AnswerCounts(answers[..|answers| - 1], i, j);
    } else {
      OneAnswerCounts(answers[..|answers| - 1], i);
    }
  }

  lemma {:induction false} OneAnswerCounts(answers: seq<Answer>, i: nat)
    requires i < |answers|
    ensures AnsweredTimes(answers, answers[i].to) >= 1
  {
    if i < |answers| - 1 { OneAnswerCounts(answers[..|answers| - 1], i); }
  }

  predicate ToSenders(answers: seq<Answer>)
  {
    forall i :: 0 <= i < |answers| ==> answers[i].addr == answers[i].to.sender
  }

  lemma {:induction false} RunKeepsToSenders(cfg: M.Config, g: Gateway, steps: seq<Step>)
    requires ToSenders(g.answers) && Run(cfg, g, steps)
    ensures ToSenders(End(cfg, g, steps).answers)
    decreases |steps|
  {
    if steps != [] {
      var g' := Next(cfg, g, steps[0]);
      assert g'.answers == g.answers || (g'.answers == g.answers + [g'.answers[|g.answers|]]);
      RunKeepsToSenders(cfg, g', steps[1..]);
    }
  }

  /** In every reachable state each received datagram is in exactly one place: awaiting its
      enqueue or its queue-full reply, queued, held by one worker, or answered; nothing else
      is anywhere. No two workers hold the same datagram, none is answered twice, and every
      answer goes to its datagram's own sender. */
  lemma ExactlyOnce(cfg: M.Config, start: int, blacklist: set<string>, n: nat, steps: seq<Step>, d: Datagram)
    requires Run(cfg, Initial(start, blacklist, n), steps)
    ensures var g := End(cfg, Initial(start, blacklist, n), steps);
            && Places(g, d) == One(d in g.received)
            && (forall v, w :: 0 <= v < w < |g.workers| ==> !(Holds(g.workers[v], d) && Holds(g.workers[w], d)))
            && (forall i, j :: 0 <= i < j < |g.answers| ==> !(g.answers[i].to == d && g.answers[j].to == d))
            && (forall i :: 0 <= i < |g.answers| ==> g.answers[i].addr == g.answers[i].to.sender)
  {
    var g0 := Initial(start, blacklist, n);
    var g := End(cfg, g0, steps);
    IdlePoolHoldsNothing(g0.workers, d);
    RunConservesPlaces(cfg, g0, steps, d);
    RunKeepsToSenders(cfg, g0, steps);
    NumberedOnce(g.received, d);
    forall v, w | 0 <= v < w < |g.workers|
      ensures !(Holds(g.workers[v], d) && Holds(g.workers[w], d))
    {
      if Holds(g.workers[v], d) && Holds(g.workers[w], d) { TwoHolders(g.workers, v, w, d); }
    }
    forall i, j | 0 <= i < j < |g.answers|
      ensures !(g.answers[i].to == d && g.answers[j].to == d)
    {
      if g.answers[i].to == d && g.answers[j].to == d { AnswerCounts(g.answers, i, j); }
    }
  }

  // ------------------------------------------------------------------------- the order

  predicate Ascending(ds: seq<Datagram>) { forall i, j :: 0 <= i < j < |ds| ==> ds[i].id < ds[j].id }

  /** What was enqueued is what was dequeued followed by what is queued, in arrival order; the
      datagram on offer is newer than all of it. */
  predicate OrderOk(g: Gateway)
  {
    && g.accepted == g.taken + g.queue
    && Ascending(g.accepted)
    && (forall d :: d in g.accepted ==> d.id < |g.received|)
    && (g.producer.Offering? ==>
          g.producer.d.id == |g.received| - 1 && forall d :: d in g.accepted ==> d.id < |g.received| - 1)
  }

  lemma EnqueueKeepsOrder(cfg: M.Config, g: Gateway, ok: bool)
    requires OrderOk(g) && Allowed(cfg, g, TryEnqueue(ok))
    ensures OrderOk(Next(cfg, g, TryEnqueue(ok)))
  {
    assert forall i :: 0 <= i < |g.accepted| ==> g.accepted[i] in g.accepted;
    assert g.taken + (g.queue + [g.producer.d]) == g.taken + g.queue + [g.producer.d];
  }

  lemma PollKeepsOrder(cfg: M.Config, g: Gateway, w: nat)
    requires OrderOk(g) && Allowed(cfg, g, Poll(w))
    ensures OrderOk(Next(cfg, g, Poll(w)))
  {
    if g.queue != [] { assert g.taken + [g.queue[0]] + g.queue[1..] == g.taken + g.queue; }
  }

  lemma StepKeepsOrder(cfg: M.Config, g: Gateway, st: Step)
    requires OrderOk(g) && Allowed(cfg, g, st)
    ensures OrderOk(Next(cfg, g, st))
  {
    match st
    case Poll(w) => PollKeepsOrder(cfg, g, w);
    case TryEnqueue(ok) => EnqueueKeepsOrder(cfg, g, ok);
    case _ =>
      var g' := Next(cfg, g, st);
      assert g'.queue == g.queue && g'.accepted == g.accepted && g'.taken == g.taken;
  }

  lemma {:induction false} RunKeepsOrder(cfg: M.Config, g: Gateway, steps: seq<Step>)
    requires OrderOk(g) && Run(cfg, g, steps)
    ensures OrderOk(End(cfg, g, steps))
    decreases |steps|
  {
    if steps != [] {
      StepKeepsOrder(cfg, g, steps[0]);
      RunKeepsOrder(cfg, Next(cfg, g, steps[0]), steps[1..]);
    }
  }

  lemma PrefixAscends(a: seq<Datagram>, b: seq<Datagram>)
    requires Ascending(a + b)
    ensures Ascending(a)
  {
    assert forall i :: 0 <= i < |a| ==> a[i] == (a + b)[i];
  }

  /** Datagrams leave the queue in the order they arrived, and none is skipped. */
  lemma LeaveInArrivalOrder(cfg: M.Config, start: int, blacklist: set<string>, n: nat, steps: seq<Step>)
    requires Run(cfg, Initial(start, blacklist, n), steps)
    ensures var g := End(cfg, Initial(start, blacklist, n), steps);
            Ascending(g.taken) && Ascending(g.taken + g.queue) && g.taken + g.queue == g.accepted
  {
    var g0 := Initial(start, blacklist, n);
    var g := End(cfg, g0, steps);
    RunKeepsOrder(cfg, g0, steps);
    PrefixAscends(g.taken, g.queue);
  }
}
