/** The two entry points of the server as code: the packet loop of the UDP thread
    (src/udp_server.cpp) and the handler a worker runs (src/event_dispatcher.cpp). */
module Server {
  import opened Imsi
  import opened Sessions
  import opened Manager
  import T = Threads
  import M = Machine
  import G = Gateway
  import H = Handshake
  import E = EndToEnd

  /** What recvfrom gives: a packet, EINTR, or EAGAIN / EWOULDBLOCK. */
  datatype Received = Packet(bytes: seq<byte>, sender: int) | Interrupted | WouldBlock

  /** Where reading stops, looking from position i on: at the first WouldBlock. */
  function Stop(input: seq<Received>, i: nat): (n: nat)
    requires i <= |input|
    ensures i <= n <= |input|
    decreases |input| - i
  {
    if i == |input| || input[i].WouldBlock? then i else Stop(input, i + 1)
  }

  /** The packets among the first n results. */
  function PacketsIn(input: seq<Received>, n: nat): seq<Received>
    requires n <= |input|
  {
    if n == 0 then [] else PacketsIn(input, n - 1) + if input[n - 1].Packet? then [input[n - 1]] else []
  }

  /** The packets up to the first WouldBlock. */
  function Arrivals(input: seq<Received>): seq<Received> { PacketsIn(input, Stop(input, 0)) }

  /** Reading gets as far as input[i]. */
  predicate Reached(input: seq<Received>, i: nat)
  {
    i < |input| && forall j :: 0 <= j <= i ==> !input[j].WouldBlock?
  }

  /** `packets` are input[where[0]], input[where[1]], ...: in input order, the packets that reading
      gets to, and all of them. */
  ghost predicate PickedFrom(input: seq<Received>, packets: seq<Received>, where: seq<nat>)
  {
    && |where| == |packets|
    && (forall k, l :: 0 <= k < l < |where| ==> where[k] < where[l])
    && (forall k :: 0 <= k < |where| ==>
          Reached(input, where[k]) && packets[k] == input[where[k]] && packets[k].Packet?)
    && (forall i: nat :: Reached(input, i) && input[i].Packet? ==> i in where)
  }

  lemma {:induction false} StopIsFirstBlock(input: seq<Received>, i: nat)
    requires i <= |input| && forall j :: 0 <= j < i ==> !input[j].WouldBlock?
    ensures forall j: nat :: j < Stop(input, i) <==> Reached(input, j)
    decreases |input| - i
  {
    if i < |input| && !input[i].WouldBlock? { StopIsFirstBlock(input, i + 1); }
  }

  lemma {:induction false} PacketsAreAt(input: seq<Received>, n: nat) returns (where: seq<nat>)
    requires n <= |input|
    ensures |where| == |PacketsIn(input, n)|
    ensures forall k, l :: 0 <= k < l < |where| ==> where[k] < where[l]
    ensures forall k :: 0 <= k < |where| ==>
              where[k] < n && PacketsIn(input, n)[k] == input[where[k]] && input[where[k]].Packet?
    ensures forall i: nat :: i < n && input[i].Packet? ==> i in where
  {
    where := [];
    if n > 0 {
      var rest := PacketsAreAt(input, n - 1);
      where := rest + if input[n - 1].Packet? then [n - 1] else [];
      forall i: nat | i < n && input[i].Packet? ensures i in where {
        if i == n - 1 { assert where[|rest|] == i; } else { assert i in rest; }
      }
    }
  }

  /** What arrives is every packet before the first WouldBlock, in order, and nothing else. */
  lemma ArrivalsArePicked(input: seq<Received>) returns (where: seq<nat>)
    ensures PickedFrom(input, Arrivals(input), where)
  {
    StopIsFirstBlock(input, 0);
    where := PacketsAreAt(input, Stop(input, 0));
  }

  /** Of the packets, those that try_enqueue took (`room`), or those it did not. */
  function Sorted(packets: seq<Received>, room: nat -> bool, took: bool): seq<Received>
  {
    if packets == [] then []
    else
      var last := |packets| - 1;
      Sorted(packets[..last], room, took) + if room(last) == took then [packets[last]] else []
  }

  function Rejections(packets: seq<Received>): seq<(string, int)>
    requires forall p :: p in packets ==> p.Packet?
  {
    seq(|packets|, i requires 0 <= i < |packets| => ("rejected", packets[i].sender))
  }

  lemma {:induction false} SortedArePackets(packets: seq<Received>, room: nat -> bool, took: bool)
    requires forall p :: p in packets ==> p.Packet?
    ensures forall p :: p in Sorted(packets, room, took) ==> p.Packet?
  {
    if packets != [] { SortedArePackets(packets[..|packets| - 1], room, took); }
  }

  // ------------------------------------------------------------------------- the packet loop

  /** What the loop works on: the queue, what has gone out on the socket, and the flag that
      announces work. */
  datatype Box = Box(queue: seq<Received>, sent: seq<(string, int)>, flag: bool)

  /** try_enqueue, then the notification or the refusal. */
  function OfferSection(b: Box, received: Received, took: bool): Box
    requires received.Packet?
  {
    if took then b.(queue := b.queue + [received], flag := true)
    else b.(sent := b.sent + [("rejected", received.sender)])
  }

  function OfferAll(b: Box, packets: seq<Received>, room: nat -> bool): Box
    requires forall p :: p in packets ==> p.Packet?
  {
    if packets == [] then b
    else
      var last := |packets| - 1;
      OfferSection(OfferAll(b, packets[..last], room), packets[last], room(last))
  }

  /** Offering packets one by one appends to the queue, in order, those it takes, and sends one
      refusal, in order, for each of the others. */
  lemma {:induction false} OfferAllSorts(b: Box, packets: seq<Received>, room: nat -> bool)
    requires forall p :: p in packets ==> p.Packet?
    ensures forall p :: p in Sorted(packets, room, false) ==> p.Packet?
    ensures OfferAll(b, packets, room)
            == Box(b.queue + Sorted(packets, room, true), b.sent + Rejections(Sorted(packets, room, false)),
                   b.flag || Sorted(packets, room, true) != [])
  {
    SortedArePackets(packets, room, false);
    if packets != [] {
      var rest, p := packets[..|packets| - 1], packets[|packets| - 1];
      OfferAllSorts(b, rest, room);
      var refused := Sorted(rest, room, false);
      if !room(|rest|) {
        assert Sorted(packets, room, false) == refused + [p];
        assert Rejections(refused + [p]) == Rejections(refused) + [("rejected", p.sender)];
      }
    }
  }

  function RefusalsTo(sent: seq<(string, int)>, sender: int): nat
  {
    if sent == [] then 0
    else RefusalsTo(sent[..|sent| - 1], sender) + if sent[|sent| - 1] == ("rejected", sender) then 1 else 0
  }

  function QueuedFrom(packets: seq<Received>, sender: int): nat
  {
    if packets == [] then 0
    else
      var last := packets[|packets| - 1];
      QueuedFrom(packets[..|packets| - 1], sender) + if last.Packet? && last.sender == sender then 1 else 0
  }

  lemma OfferCounts(b: Box, received: Received, took: bool, sender: int)
    requires received.Packet?
    ensures var b' := OfferSection(b, received, took);
            QueuedFrom(b'.queue, sender) + RefusalsTo(b'.sent, sender)
            == QueuedFrom(b.queue, sender) + RefusalsTo(b.sent, sender) + if received.sender == sender then 1 else 0
  {
    assert (b.queue + [received])[..|b.queue|] == b.queue;
    assert (b.sent + [("rejected", received.sender)])[..|b.sent|] == b.sent;
  }

  /** Nothing is lost: for each sender, the packets it sent are matched one for one by new
      entries of the queue and new refusals sent to it. */
  lemma {:induction false} QueuedOrRefused(b: Box, packets: seq<Received>, room: nat -> bool, sender: int)
    requires forall p :: p in packets ==> p.Packet?
    ensures var b' := OfferAll(b, packets, room);
            QueuedFrom(b'.queue, sender) + RefusalsTo(b'.sent, sender)
            == QueuedFrom(b.queue, sender) + RefusalsTo(b.sent, sender) + QueuedFrom(packets, sender)
  {
    if packets != [] {
      var last := |packets| - 1;
      QueuedOrRefused(b, packets[..last], room, sender);
      OfferCounts(OfferAll(b, packets[..last], room), packets[last], room(last), sender);
    }
  }

  lemma {:induction false} ArePackets(input: seq<Received>, n: nat)
    requires n <= |input|
    ensures forall p :: p in PacketsIn(input, n) ==> p.Packet?
  {
    if n > 0 { ArePackets(input, n - 1); }
  }

  lemma OfferOneMore(b: Box, packets: seq<Received>, p: Received, room: nat -> bool)
    requires p.Packet? && forall x :: x in packets ==> x.Packet?
    ensures OfferAll(b, packets + [p], room) == OfferSection(OfferAll(b, packets, room), p, room(|packets|))
  {
    assert (packets + [p])[..|packets + [p]| - 1] == packets;
  }

  class UdpServer {
    var queue: seq<Received>
    var eventAvailable: bool
    var sent: seq<(string, int)>

    ghost function Abs(): Box
      reads this
    {
      Box(queue, sent, eventAvailable)
    }

    /** Reads until there is nothing more: what the queue takes is appended in arrival order and
        announced, every other packet gets "rejected" sent back to its own sender. */
    method ProcessIncomingPackets(input: seq<Received>, room: nat -> bool)
      modifies this
      ensures forall p :: p in Arrivals(input) ==> p.Packet?
      ensures forall p :: p in Sorted(Arrivals(input), room, false) ==> p.Packet?
      ensures Abs() == OfferAll(old(Abs()), Arrivals(input), room)
      ensures queue == old(queue) + Sorted(Arrivals(input), room, true)
      ensures sent == old(sent) + Rejections(Sorted(Arrivals(input), room, false))
      ensures eventAvailable == (old(eventAvailable) || Sorted(Arrivals(input), room, true) != [])
      ensures exists where :: PickedFrom(input, Arrivals(input), where)
      ensures forall sender ::
                QueuedFrom(queue, sender) + RefusalsTo(sent, sender)
                == QueuedFrom(old(queue), sender) + RefusalsTo(old(sent), sender) + QueuedFrom(Arrivals(input), sender)
    {
      var i := 0;
      var count := 0;
      ghost var start, done: seq<Received> := Abs(), [];
      while i < |input| && !input[i].WouldBlock?
        invariant i <= |input| && count == |done|
        invariant Stop(input, i) == Stop(input, 0) && done == PacketsIn(input, i)
        invariant forall p :: p in done ==> p.Packet?
        invariant Abs() == OfferAll(start, done, room)
      {
        var received := input[i];
        if received.Packet? {
          OfferOneMore(start, done, received, room);
          Offer(received, room(count));
          done := done + [received];
          count := count + 1;
        }
        i := i + 1;
      }
      OfferAllSorts(start, done, room);
      ghost var where := ArrivalsArePicked(input);
      forall sender { QueuedOrRefused(start, done, room, sender); }
    }

    method Offer(received: Received, took: bool)
      requires received.Packet?
      modifies this
      ensures Abs() == OfferSection(old(Abs()), received, took)
    {
      if took {
        queue := queue + [received];
        eventAvailable := true;
      } else {
        sent := sent + [("rejected", received.sender)];
      }
    }
  }

  class EventDispatcher {
    const sessionManager: SessionManager
    var sent: seq<(string, int)>

    constructor (manager: SessionManager)
      ensures sessionManager == manager && sent == []
    {
      sessionManager := manager;
      sent := [];
    }

    /** The switch over the result, and the response callback. */
    method Reply(result: CreateResult, addr: int)
      modifies this
      ensures sent == old(sent) + [(if result == Blacklisted then "rejected" else "created", addr)]
    {
      var response: string;
      match result {
        case Created => response := "created";
        case AlreadyExists => response := "created";
        case Blacklisted => response := "rejected";
      }
      sent := sent + [(response, addr)];
    }

    /** handleUdpEvent, with any sections of other threads between the blacklist check and the
        update. False means the process was terminated: exactly when the bytes are not
        acceptable, and then nothing is sent. Otherwise one reply goes to the sender: "rejected"
        if the IMSI is blacklisted at the check, else "created" and the IMSI has a session,
        fresh or re-stamped. */
    method HandleUdpEvent(data: array<byte>, addr: int, between: seq<T.Section>, created: int, at: int, wall: int)
      returns (alive: bool)
      requires sessionManager.Valid() && this !in sessionManager.Repr()
      modifies this, sessionManager.Repr()
      ensures sessionManager.Valid() && fresh(sessionManager.Repr() - old(sessionManager.Repr()))
      ensures alive <==> Acceptable(old(data[..]))
      ensures alive <==> FromBcd(old(data[..])).Imsi?
      ensures !alive ==> sent == old(sent) && sessionManager.Abs() == old(sessionManager.Abs())
      ensures alive ==>
                var imsi := FromBcd(old(data[..])).digits;
                && sent == old(sent) + [(if imsi in old(sessionManager.blacklist) then "rejected" else "created", addr)]
                && Handled(old(sessionManager.Abs()), sessionManager.Abs(), imsi, between,
                           sessionManager.config.timeout, created, at, wall)
    {
      DecoderAcceptsExactly(data[..]);
      assert data[..data.Length] == data[..];
      var decoded := DecodeBcd(data, data.Length);
      if decoded.Terminated? {
        return false;
      }
      Serve(decoded.digits, addr, between, created, at, wall);
      return true;
    }

    /** handleUdpEvent once the IMSI is decoded. */
    method Serve(imsi: string, addr: int, between: seq<T.Section>, created: int, at: int, wall: int)
      requires sessionManager.Valid() && this !in sessionManager.Repr() && ValidImsi(imsi)
      modifies this, sessionManager.Repr()
      ensures sessionManager.Valid() && fresh(sessionManager.Repr() - old(sessionManager.Repr()))
      ensures sent == old(sent) + [(if imsi in old(sessionManager.blacklist) then "rejected" else "created", addr)]
      ensures Handled(old(sessionManager.Abs()), sessionManager.Abs(), imsi, between,
                      sessionManager.config.timeout, created, at, wall)
    {
      var result := T.CreateSession(sessionManager, imsi, between, created, at, wall);
      ghost var after := sessionManager.Abs();
      Reply(result, addr);
      assert sessionManager.Abs() == after;
    }
  }

  /** What handling a datagram for imsi does to the session manager: the check decides on the
      blacklist as it is then, the update acts on what the others have left. */
  ghost predicate Handled(before: Shared, after: Shared, imsi: string, between: seq<T.Section>, timeout: nat,
                          created: int, at: int, wall: int)
  {
    if imsi in before.blacklist then Screened(before, after, false, imsi, at, wall)
    else
      var met := T.AfterScript(before, between, timeout);
      Updated(met, after, if imsi in met.sessions then AlreadyExists else Created, imsi, created, at, wall)
  }

  // ------------------------------------------------------- the packet loop and the gateway steps

  /** The gateway machine seen as the loop sees it. */
  function BoxOf(g: G.Gateway): Box
  {
    Box(seq(|g.queue|, i requires 0 <= i < |g.queue| => Packet(g.queue[i].bytes, g.queue[i].sender)),
        seq(|g.answers|, i requires 0 <= i < |g.answers| => (g.answers[i].reply, g.answers[i].addr)),
        g.flag)
  }

  predicate Between(g: G.Gateway) { g.alive && g.producer == G.Reading }

  lemma QueueSteps(cfg: M.Config, g: G.Gateway, d: G.Datagram, woken: Option<nat>) returns (steps: seq<G.Step>)
    requires g.alive && g.producer == G.Offering(d)
    requires if woken.Some? then G.At(g, woken.value, G.Blocked) else !G.SomeBlocked(g.workers)
    ensures G.Run(cfg, g, steps) && Between(G.End(cfg, g, steps))
    ensures G.End(cfg, g, steps).queue == g.queue + [d] && G.End(cfg, g, steps).flag
    ensures G.End(cfg, g, steps).answers == g.answers && G.End(cfg, g, steps).sm == g.sm
  {
    steps := [];
    G.RunSnoc(cfg, g, steps, G.TryEnqueue(true));
    steps := steps + [G.TryEnqueue(true)];
    G.RunSnoc(cfg, g, steps, G.RaiseFlag);
    steps := steps + [G.RaiseFlag];
    G.RunSnoc(cfg, g, steps, G.NotifyOne(woken));
    steps := steps + [G.NotifyOne(woken)];
  }

  lemma RefuseSteps(cfg: M.Config, g: G.Gateway, d: G.Datagram)
    requires g.alive && g.producer == G.Offering(d)
    ensures var steps := [G.TryEnqueue(false), G.ReplyFull];
            && G.Run(cfg, g, steps) && Between(G.End(cfg, g, steps))
            && G.End(cfg, g, steps).queue == g.queue && G.End(cfg, g, steps).flag == g.flag
            && G.End(cfg, g, steps).answers == g.answers + [G.Answer(d, d.sender, "rejected", G.QueueFull)]
            && G.End(cfg, g, steps).sm == g.sm
  {
    assert G.Run(cfg, g, []) && [] + [G.TryEnqueue(false)] == [G.TryEnqueue(false)];
    G.RunSnoc(cfg, g, [], G.TryEnqueue(false));
    G.RunSnoc(cfg, g, [G.TryEnqueue(false)], G.ReplyFull);
    assert [G.TryEnqueue(false)] + [G.ReplyFull] == [G.TryEnqueue(false), G.ReplyFull];
  }

  /** One turn of the packet loop, as `Offer` computes it, is a run of the UDP thread's steps. */
  lemma OfferIsProducerSteps(cfg: M.Config, g: G.Gateway, received: Received, took: bool) returns (steps: seq<G.Step>)
    requires Between(g) && received.Packet?
    ensures G.Run(cfg, g, steps) && Between(G.End(cfg, g, steps))
    ensures BoxOf(G.End(cfg, g, steps)) == OfferSection(BoxOf(g), received, took)
    ensures G.End(cfg, g, steps).sm == g.sm
  {
    var first := G.Receive(received.bytes, received.sender);
    var d := G.Datagram(|g.received|, received.bytes, received.sender);
    var g1 := G.Next(cfg, g, first);
    var rest := [G.TryEnqueue(false), G.ReplyFull];
    if took {
      var woken: Option<nat> := None;
      if w :| 0 <= w < |g.workers| && g.workers[w] == G.Blocked {
        woken := Some(w);
      }
      rest := QueueSteps(cfg, g1, d, woken);
    } else {
      RefuseSteps(cfg, g1, d);
    }
    steps := [first] + rest;
    assert steps[0] == first && steps[1..] == rest;
  }

  /** So is the whole loop: its result is that of a run of the gateway in which only the UDP
      thread moves. */
  lemma {:induction false} LoopIsProducerSteps(cfg: M.Config, g: G.Gateway, packets: seq<Received>, room: nat -> bool)
    returns (steps: seq<G.Step>)
    requires Between(g) && forall p :: p in packets ==> p.Packet?
    ensures G.Run(cfg, g, steps) && Between(G.End(cfg, g, steps))
    ensures BoxOf(G.End(cfg, g, steps)) == OfferAll(BoxOf(g), packets, room)
    ensures G.End(cfg, g, steps).sm == g.sm
  {
    if packets == [] {
      steps := [];
    } else {
      var last := |packets| - 1;
      steps := LoopIsProducerSteps(cfg, g, packets[..last], room);
      var more := OfferIsProducerSteps(cfg, G.End(cfg, g, steps), packets[last], room(last));
      G.RunConcat(cfg, g, steps, more);
      steps := steps + more;
    }
  }

  // ------------------------------------------------------- the handler and the worker's steps

  /** The first half of `HandleUdpEvent` is the worker's Decode step. */
  lemma CheckIsDecodeStep(cfg: M.Config, g: G.Gateway, w: nat, at: int, wall: int)
    requires E.VerdictsOk(g) && G.Allowed(cfg, g, G.Decode(w, at, wall))
    ensures var d, g' := g.workers[w].d, G.Next(cfg, g, G.Decode(w, at, wall));
            && (g'.alive <==> Acceptable(d.bytes)) && BoxOf(g') == BoxOf(g)
            && (!g'.alive ==> g'.sm.shared == g.sm.shared)
            && (g'.alive ==>
                  var imsi := FromBcd(d.bytes).digits;
                  if imsi in g.sm.shared.blacklist then
                    && g'.sm.shared == Emit(g.sm.shared, imsi, REJECTED, at, wall)
                    && g'.workers[w].Replying? && g'.workers[w].d == d && g'.workers[w].reply == "rejected"
                  else g'.sm.shared == g.sm.shared && g'.workers[w] == G.Updating(d, imsi, g.sm.shared.blacklist))
  {
    DecoderAcceptsExactly(g.workers[w].d.bytes);
    assert E.WorkerFits(g.sm.calls, w, g.workers[w]);
  }

  lemma {:induction false} WorkerWaits(cfg: M.Config, g: G.Gateway, others: seq<G.Step>, w: nat)
    requires w < |g.workers| && G.Run(cfg, g, others) && forall st :: st in others ==> H.MovedWorker(st) != Some(w)
    ensures |G.End(cfg, g, others).workers| == |g.workers| && G.End(cfg, g, others).workers[w] == g.workers[w]
    decreases |others|
  {
    if others != [] {
      H.StepMovesOneWorker(cfg, g, others[0]);
      WorkerWaits(cfg, G.Next(cfg, g, others[0]), others[1..], w);
    }
  }

  lemma StoreStep(cfg: M.Config, g: G.Gateway, w: nat, created: int, at: int, wall: int)
    requires E.VerdictsOk(g) && g.alive && w < |g.workers| && g.workers[w].Updating?
    requires !g.sm.cleaner.Scanning? && g.sm.clock <= created <= at
    ensures G.Allowed(cfg, g, G.Store(w, created, at, wall))
    ensures var g', u := G.Next(cfg, g, G.Store(w, created, at, wall)), g.workers[w];
            && g'.alive && g'.sm.shared == UpdateSection(g.sm.shared, u.imsi, created, at, wall).0
            && BoxOf(g') == BoxOf(g) && |g'.workers| == |g.workers|
            && g'.workers[w].Replying? && g'.workers[w].d == u.d && g'.workers[w].reply == "created"
  {
    assert E.WorkerFits(g.sm.calls, w, g.workers[w]);
  }

  /** The second half, after any steps of the other threads, is the worker's Store and Respond
      steps: the update acts on the sessions as the others left them, and "created" goes to
      the sender. */
  lemma UpdateIsStoreSteps(cfg: M.Config, g: G.Gateway, others: seq<G.Step>, w: nat, created: int, at: int, wall: int)
    requires E.VerdictsOk(g) && w < |g.workers| && g.workers[w].Updating?
    requires G.Run(cfg, g, others) && forall st :: st in others ==> H.MovedWorker(st) != Some(w)
    requires G.End(cfg, g, others).alive && !G.End(cfg, g, others).sm.cleaner.Scanning?
    requires G.End(cfg, g, others).sm.clock <= created <= at
    ensures var steps, mid := others + [G.Store(w, created, at, wall)] + [G.Respond(w)], G.End(cfg, g, others);
            && G.Run(cfg, g, steps)
            && G.End(cfg, g, steps).sm.shared == UpdateSection(mid.sm.shared, g.workers[w].imsi, created, at, wall).0
            && BoxOf(G.End(cfg, g, steps))
               == BoxOf(mid).(sent := BoxOf(mid).sent + [("created", g.workers[w].d.sender)])
  {
    var mid := G.End(cfg, g, others);
    WorkerWaits(cfg, g, others, w);
    E.RunKeepsVerdicts(cfg, g, others);
    StoreStep(cfg, mid, w, created, at, wall);
    G.RunSnoc(cfg, g, others, G.Store(w, created, at, wall));
    ReplyIsRespondStep(cfg, G.Next(cfg, mid, G.Store(w, created, at, wall)), w);
    G.RunSnoc(cfg, g, others + [G.Store(w, created, at, wall)], G.Respond(w));
  }

  /** Sending the reply, whichever it is, is the worker's Respond step. */
  lemma ReplyIsRespondStep(cfg: M.Config, g: G.Gateway, w: nat)
    requires g.alive && w < |g.workers| && g.workers[w].Replying?
    ensures G.Allowed(cfg, g, G.Respond(w))
    ensures var g' := G.Next(cfg, g, G.Respond(w));
            && g'.sm == g.sm
            && BoxOf(g') == BoxOf(g).(sent := BoxOf(g).sent + [(g.workers[w].reply, g.workers[w].d.sender)])
  {
    var g' := G.Next(cfg, g, G.Respond(w));
    assert g'.answers == g.answers + [g'.answers[|g.answers|]];
  }
}
