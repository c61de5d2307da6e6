/** The whole path of a datagram as a step machine: the UDP thread that queues it
    (src/udp_server.cpp), the worker threads with their wake-up handshake and
    handleUdpEvent (src/event_dispatcher.cpp), and the session manager beneath them.
    The queue is a linearizable FIFO whose try_enqueue may fail at any time. stop_ never
    becomes true, so no worker ever leaves its loop. */
module Gateway {
  import opened Imsi
  import opened Sessions
  import M = Machine

  /** A received datagram; `id` counts arrivals. */
  datatype Datagram = Datagram(id: nat, bytes: seq<byte>, sender: int)

  /** How an answer came about: what the check step and the update step saw and did. */
  datatype Trace =
    | QueueFull
    | Refused(imsi: string, blacklist: set<string>)
    | Served(imsi: string, blacklist: set<string>, before: Table, after: Table)

  datatype Answer = Answer(to: Datagram, addr: int, reply: string, trace: Trace)

  /** The UDP thread: between packets, with one in hand before try_enqueue, after a successful
      one but before the flag is set, before notify_one, or about to send "rejected". */
  datatype Producer = Reading | Offering(d: Datagram) | Raising | Notifying | Refusing(d: Datagram)

  /** A worker: about to try_dequeue; waiting for the mutex; holding it and about to test the
      predicate; found it false and about to block; blocked; found it true and about to clear
      the flag and release; or at one of the three stages of handleUdpEvent. */
  datatype Worker =
    | Polling
    | Locking
    | Testing
    | Dozing
    | Blocked
    | Clearing
    | Handling(d: Datagram)
    | Updating(d: Datagram, imsi: string, blacklist: set<string>)
    | Replying(d: Datagram, reply: string, trace: Trace)

  /** `accepted` and `taken` are the histories of enqueues and dequeues. `alive` is false once
      the process has been terminated. */
  datatype Gateway = Gateway(
    sm: M.State,
    received: seq<Datagram>,
    producer: Producer,
    queue: seq<Datagram>,
    accepted: seq<Datagram>,
    taken: seq<Datagram>,
    flag: bool,
    mutex: Option<nat>,
    workers: seq<Worker>,
    answers: seq<Answer>,
    alive: bool)

  datatype Step =
    | Receive(bytes: seq<byte>, sender: int)
    | TryEnqueue(ok: bool)
    | ReplyFull
    | RaiseFlag
    | NotifyOne(woken: Option<nat>)
    | Poll(w: nat)
    | Lock(w: nat)
    | Test(w: nat)
    | Block(w: nat)
    | WakeSpuriously(w: nat)
    | Clear(w: nat)
    | Decode(w: nat, at: int, wall: int)
    | Store(w: nat, created: int, at: int, wall: int)
    | Respond(w: nat)
    | Other(step: M.Step)

  function Initial(start: int, blacklist: set<string>, n: nat): Gateway
  {
    Gateway(M.Initial(start, blacklist), [], Reading, [], [], [], false, None, seq(n, _ => Polling), [], true)
  }

  /** The step of the session manager that a gateway step performs, if any. Worker w makes its
      create_session call under the number w. */
  function SessionStep(g: Gateway, st: Step): Option<M.Step>
  {
    match st
    case Decode(w, at, wall) =>
      if w < |g.workers| && g.workers[w].Handling? && FromBcd(g.workers[w].d.bytes).Imsi?
      then Some(M.Step(at, M.Check(w, FromBcd(g.workers[w].d.bytes).digits, wall))) else None
    case Store(w, created, at, wall) => Some(M.Step(at, M.Update(w, created, wall)))
    case Other(step) => Some(step)
    case _ => None
  }

  /** create_session calls made by others than the workers. */
  predicate Foreign(n: nat, act: M.Act)
  {
    match act
    case Check(c, _, _) => n <= c
    case Update(c, _, _) => n <= c
    case _ => true
  }

  predicate At(g: Gateway, w: nat, pc: Worker) { w < |g.workers| && g.workers[w] == pc }

  predicate SomeBlocked(ws: seq<Worker>) { exists w :: 0 <= w < |ws| && ws[w] == Blocked }

  predicate Enabled(g: Gateway, st: Step)
  {
    match st
    case Receive(_, _) => g.producer == Reading
    case TryEnqueue(_) => g.producer.Offering?
    case ReplyFull => g.producer.Refusing?
    case RaiseFlag => g.producer == Raising
    case NotifyOne(woken) =>
      g.producer == Notifying && if woken.Some? then At(g, woken.value, Blocked) else !SomeBlocked(g.workers)
    case Poll(w) => At(g, w, Polling)
    case Lock(w) => At(g, w, Locking) && g.mutex == None
    case Test(w) => At(g, w, Testing)
    case Block(w) => At(g, w, Dozing)
    case WakeSpuriously(w) => At(g, w, Blocked)
    case Clear(w) => At(g, w, Clearing)
    case Decode(w, _, _) => w < |g.workers| && g.workers[w].Handling?
    case Store(w, _, _, _) => w < |g.workers| && g.workers[w].Updating?
    case Respond(w) => w < |g.workers| && g.workers[w].Replying?
    case Other(step) => Foreign(|g.workers|, step.act)
  }

  predicate Allowed(cfg: M.Config, g: Gateway, st: Step)
  {
    && g.alive
    && Enabled(g, st)
    && (SessionStep(g, st).Some? ==> M.Allowed(cfg, g.sm, SessionStep(g, st).value))
  }

  function Moved(g: Gateway, w: nat, pc: Worker): Gateway
    requires w < |g.workers|
  {
    g.(workers := g.workers[w := pc])
  }

  function AfterSession(cfg: M.Config, g: Gateway, st: Step): M.State
    requires Allowed(cfg, g, st)
  {
    match SessionStep(g, st)
    case None => g.sm
    case Some(x) => M.Next(cfg, g.sm, x)
  }

  function Next(cfg: M.Config, g0: Gateway, st: Step): Gateway
    requires Allowed(cfg, g0, st)
  {
    var g := g0.(sm := AfterSession(cfg, g0, st));
    match st
    case Receive(bytes, sender) =>
      var d := Datagram(|g.received|, bytes, sender);
      g.(received := g.received + [d], producer := Offering(d))
    case TryEnqueue(ok) =>
      var d := g.producer.d;
      if ok then g.(queue := g.queue + [d], accepted := g.accepted + [d], producer := Raising)
      else g.(producer := Refusing(d))
    case ReplyFull =>
      var d := g.producer.d;
      g.(answers := g.answers + [Answer(d, d.sender, "rejected", QueueFull)], producer := Reading)
    case RaiseFlag => g.(flag := true, producer := Notifying)
    case NotifyOne(woken) =>
      (if woken.Some? then Moved(g, woken.value, Locking) else g).(producer := Reading)
    case Poll(w) =>
      if g.queue == [] then Moved(g, w, Locking)
      else Moved(g, w, Handling(g.queue[0])).(queue := g.queue[1..], taken := g.taken + [g.queue[0]])
    case Lock(w) => Moved(g, w, Testing).(mutex := Some(w))
    case Test(w) => Moved(g, w, if g.flag then Clearing else Dozing)
    case Block(w) => Moved(g, w, Blocked).(mutex := None)
    case WakeSpuriously(w) => Moved(g, w, Locking)
    case Clear(w) => Moved(g, w, Polling).(flag := false, mutex := None)
    case Decode(w, _, _) =>
      var d := g.workers[w].d;
      (match FromBcd(d.bytes)
       case Terminated => g.(alive := false)
       case Imsi(digits) =>
         if w in g.sm.calls then Moved(g, w, Updating(d, digits, g0.sm.shared.blacklist))
         else Moved(g, w, Replying(d, "rejected", Refused(digits, g0.sm.shared.blacklist))))
    case Store(w, _, _, _) =>
      var u := g.workers[w];
      Moved(g, w, Replying(u.d, "created", Served(u.imsi, u.blacklist, g0.sm.shared.sessions, g.sm.shared.sessions)))
    case Respond(w) =>
      var r := g.workers[w];
      Moved(g, w, Polling).(answers := g.answers + [Answer(r.d, r.d.sender, r.reply, r.trace)])
    case Other(_) => g
  }

  predicate Run(cfg: M.Config, g: Gateway, steps: seq<Step>)
    decreases |steps|
  {
    steps == [] || (Allowed(cfg, g, steps[0]) && Run(cfg, Next(cfg, g, steps[0]), steps[1..]))
  }

  function End(cfg: M.Config, g: Gateway, steps: seq<Step>): Gateway
    requires Run(cfg, g, steps)
    decreases |steps|
  {
    if steps == [] then g else End(cfg, Next(cfg, g, steps[0]), steps[1..])
  }

  lemma {:induction false} RunSnoc(cfg: M.Config, g: Gateway, steps: seq<Step>, st: Step)
    requires Run(cfg, g, steps) && Allowed(cfg, End(cfg, g, steps), st)
    ensures Run(cfg, g, steps + [st])
    ensures End(cfg, g, steps + [st]) == Next(cfg, End(cfg, g, steps), st)
    decreases |steps|
  {
    if steps == [] {
      assert [] + [st] == [st] && [st][1..] == [];
    } else {
      RunSnoc(cfg, Next(cfg, g, steps[0]), steps[1..], st);
      assert (steps + [st])[1..] == steps[1..] + [st];
    }
  }

  lemma {:induction false} RunUnsnoc(cfg: M.Config, g: Gateway, steps: seq<Step>)
    requires Run(cfg, g, steps) && steps != []
    ensures Run(cfg, g, steps[..|steps| - 1])
    ensures Allowed(cfg, End(cfg, g, steps[..|steps| - 1]), steps[|steps| - 1])
    ensures End(cfg, g, steps) == Next(cfg, End(cfg, g, steps[..|steps| - 1]), steps[|steps| - 1])
    decreases |steps|
  {
    if |steps| > 1 {
      RunUnsnoc(cfg, Next(cfg, g, steps[0]), steps[1..]);
      assert steps[1..][..|steps| - 2] == steps[..|steps| - 1][1..];
    }
  }

  lemma {:induction false} RunConcat(cfg: M.Config, g: Gateway, a: seq<Step>, b: seq<Step>)
    requires Run(cfg, g, a) && Run(cfg, End(cfg, g, a), b)
    ensures Run(cfg, g, a + b)
    ensures End(cfg, g, a + b) == End(cfg, End(cfg, g, a), b)
    decreases |a|
  {
    if a == [] {
      assert a + b == b;
    } else {
      var both := a + b;
      assert both[0] == a[0] && both[1..] == a[1..] + b;
      RunConcat(cfg, Next(cfg, g, a[0]), a[1..], b);
    }
  }

  // ------------------------------------------------------------- the session manager beneath

  function SessionSteps(cfg: M.Config, g: Gateway, steps: seq<Step>): seq<M.Step>
    requires Run(cfg, g, steps)
    decreases |steps|
  {
    if steps == [] then []
    else
      var first := SessionStep(g, steps[0]);
      (if first.Some? then [first.value] else []) + SessionSteps(cfg, Next(cfg, g, steps[0]), steps[1..])
  }

  /** What the gateway does to the session manager is a run of the session machine: all its
      properties hold beneath any gateway run. */
  lemma {:induction false} GatewayRunsSessions(cfg: M.Config, g: Gateway, steps: seq<Step>)
    requires Run(cfg, g, steps)
    ensures M.Run(cfg, g.sm, SessionSteps(cfg, g, steps))
    ensures M.End(cfg, g.sm, SessionSteps(cfg, g, steps)) == End(cfg, g, steps).sm
    decreases |steps|
  {
    if steps != [] {
      var g' := Next(cfg, g, steps[0]);
      var first, rest := SessionStep(g, steps[0]), SessionSteps(cfg, g', steps[1..]);
      GatewayRunsSessions(cfg, g', steps[1..]);
      assert g'.sm == AfterSession(cfg, g, steps[0]);
      if first.Some? {
        assert ([first.value] + rest)[1..] == rest;
      } else {
        assert [] + rest == rest;
      }
    }
  }

  function Others(steps: seq<M.Step>): (r: seq<Step>)
    ensures |r| == |steps| && forall i :: 0 <= i < |steps| ==> r[i] == Other(steps[i])
  {
    if steps == [] then [] else [Other(steps[0])] + Others(steps[1..])
  }

  /** Conversely, while the process lives the other users of the session manager, who make their
      calls under numbers that no worker has, can do in the gateway all that they can do without it. */
  lemma {:induction false} SessionsRunInGateway(cfg: M.Config, g: Gateway, steps: seq<M.Step>)
    requires g.alive && M.Run(cfg, g.sm, steps)
    requires forall i :: 0 <= i < |steps| && (steps[i].act.Check? || steps[i].act.Update?) ==>
               |g.workers| <= steps[i].act.call
    ensures Run(cfg, g, Others(steps)) && End(cfg, g, Others(steps)) == g.(sm := M.End(cfg, g.sm, steps))
    decreases |steps|
  {
    if steps != [] {
      var st := Other(steps[0]);
      var g' := Next(cfg, g, st);
      assert g' == g.(sm := M.Next(cfg, g.sm, steps[0]));
      assert forall i :: 0 <= i < |steps[1..]| ==> steps[1..][i] == steps[i + 1];
      SessionsRunInGateway(cfg, g', steps[1..]);
      assert Others(steps)[0] == st && Others(steps)[1..] == Others(steps[1..]);
    }
  }
}
