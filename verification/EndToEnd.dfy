/** From the client's bytes to the answer: what a reply means, and what bad input does. */
module EndToEnd {
  import opened Imsi
  import opened Sessions
  import opened Gateway
  import opened Handshake
  import opened Delivery
  import M = Machine
  import Cdr
  import CdrHistory

  // --------------------------------------------------------------- replies and what they mean

  predicate TraceFits(d: Datagram, reply: string, trace: Trace)
  {
    match trace
    case QueueFull => reply == "rejected"
    case Refused(x, blacklist) => FromBcd(d.bytes) == Imsi(x) && x in blacklist && reply == "rejected"
    case Served(x, blacklist, before, after) =>
      && FromBcd(d.bytes) == Imsi(x) && x !in blacklist && reply == "created"
      && x in after && OnlyTouches(before, after, x)
  }

  /** Worker w has a call in flight exactly between its check and its update, for the IMSI it decoded. */
  predicate WorkerFits(calls: map<nat, string>, w: nat, pc: Worker)
  {
    match pc
    case Updating(d, x, blacklist) => FromBcd(d.bytes) == Imsi(x) && x !in blacklist && w in calls && calls[w] == x
    case Replying(d, reply, trace) => w !in calls && !trace.QueueFull? && TraceFits(d, reply, trace)
    case _ => w !in calls
  }

  predicate AnswerFits(a: Answer) { a.addr == a.to.sender && TraceFits(a.to, a.reply, a.trace) }

  predicate VerdictsOk(g: Gateway)
  {
    && (forall w :: 0 <= w < |g.workers| ==> WorkerFits(g.sm.calls, w, g.workers[w]))
    && (forall a :: a in g.answers ==> AnswerFits(a))
  }

  /** Calls other than c are not affected by a step of call c, nor any call by other steps. */
  lemma OtherCallsStay(cfg: M.Config, s: M.State, st: M.Step, c: nat)
    requires M.Allowed(cfg, s, st)
    requires st.act.Check? ==> st.act.call != c
    requires st.act.Update? ==> st.act.call != c
    ensures c in M.Next(cfg, s, st).calls <==> c in s.calls
    ensures c in s.calls ==> M.Next(cfg, s, st).calls[c] == s.calls[c]
  {
  }

  lemma DecodeVerdict(cfg: M.Config, g: Gateway, st: Step)
    requires VerdictsOk(g) && Allowed(cfg, g, st) && st.Decode? && SessionStep(g, st).Some?
    ensures WorkerFits(Next(cfg, g, st).sm.calls, st.w, Next(cfg, g, st).workers[st.w])
  {
    DecoderAcceptsExactly(g.workers[st.w].d.bytes);
  }

  lemma StoreVerdict(cfg: M.Config, g: Gateway, st: Step)
    requires VerdictsOk(g) && Allowed(cfg, g, st) && st.Store?
    ensures WorkerFits(Next(cfg, g, st).sm.calls, st.w, Next(cfg, g, st).workers[st.w])
  {
    assert WorkerFits(g.sm.calls, st.w, g.workers[st.w]);
    var before, after := g.sm.shared.sessions, Next(cfg, g, st).sm.shared.sessions;
    assert before - {g.workers[st.w].imsi} == after - {g.workers[st.w].imsi};
  }

  /** The other workers keep what they have. */
  lemma OthersFit(cfg: M.Config, g: Gateway, st: Step, v: nat)
    requires VerdictsOk(g) && Allowed(cfg, g, st) && v < |g.workers| && MovedWorker(st) != Some(v)
    ensures v < |Next(cfg, g, st).workers| && WorkerFits(Next(cfg, g, st).sm.calls, v, Next(cfg, g, st).workers[v])
  {
    StepMovesOneWorker(cfg, g, st);
    var x := SessionStep(g, st);
    if x.Some? { OtherCallsStay(cfg, g.sm, x.value, v); }
    assert Next(cfg, g, st).sm == AfterSession(cfg, g, st);
    assert WorkerFits(g.sm.calls, v, g.workers[v]);
    assert Next(cfg, g, st).workers[v] == g.workers[v];
  }

  lemma MoverFits(cfg: M.Config, g: Gateway, st: Step)
    requires VerdictsOk(g) && Allowed(cfg, g, st) && MovedWorker(st).Some?
    ensures var w := MovedWorker(st).value;
            w < |Next(cfg, g, st).workers| && WorkerFits(Next(cfg, g, st).sm.calls, w, Next(cfg, g, st).workers[w])
  {
    StepMovesOneWorker(cfg, g, st);
    var w := MovedWorker(st).value;
    assert WorkerFits(g.sm.calls, w, g.workers[w]);
    if st.Decode? {
      if SessionStep(g, st).Some? { DecodeVerdict(cfg, g, st); }
    } else if st.Store? {
      StoreVerdict(cfg, g, st);
    } else {
      assert Next(cfg, g, st).sm == g.sm;
    }
  }

  lemma NewAnswerFits(cfg: M.Config, g: Gateway, st: Step)
    requires VerdictsOk(g) && Allowed(cfg, g, st)
    ensures forall a :: a in Next(cfg, g, st).answers ==> AnswerFits(a)
  {
    match st
    case Respond(w) => assert WorkerFits(g.sm.calls, w, g.workers[w]);
    case ReplyFull =>
    case _ => assert Next(cfg, g, st).answers == g.answers;
  }

  lemma StepKeepsVerdicts(cfg: M.Config, g: Gateway, st: Step)
    requires VerdictsOk(g) && Allowed(cfg, g, st)
    ensures VerdictsOk(Next(cfg, g, st))
  {
    var g' := Next(cfg, g, st);
    StepMovesOneWorker(cfg, g, st);
    NewAnswerFits(cfg, g, st);
    forall w | 0 <= w < |g'.workers| ensures WorkerFits(g'.sm.calls, w, g'.workers[w]) {
      if MovedWorker(st) == Some(w) { MoverFits(cfg, g, st); } else { OthersFit(cfg, g, st, w); }
    }
  }

  lemma {:induction false} RunKeepsVerdicts(cfg: M.Config, g: Gateway, steps: seq<Step>)
    requires VerdictsOk(g) && Run(cfg, g, steps)
    ensures VerdictsOk(End(cfg, g, steps))
    decreases |steps|
  {
    if steps != [] {
      StepKeepsVerdicts(cfg, g, steps[0]);
      RunKeepsVerdicts(cfg, Next(cfg, g, steps[0]), steps[1..]);
    }
  }

  // ----------------------------------------------------------- the traces are what happened

  /** Step j of the run is the check for datagram d, made while the blacklist was this. */
  predicate IsCheck(cfg: M.Config, g0: Gateway, steps: seq<Step>, j: nat, d: Datagram, blacklist: set<string>)
  {
    && j < |steps| && steps[j].Decode? && Run(cfg, g0, steps[..j])
    && var g := End(cfg, g0, steps[..j]); At(g, steps[j].w, Handling(d)) && g.sm.shared.blacklist == blacklist
  }

  /** Step j of the run is the table update for datagram d, and took the table from before to after. */
  predicate IsStore(cfg: M.Config, g0: Gateway, steps: seq<Step>, j: nat, d: Datagram, before: Table, after: Table)
  {
    && j < |steps| && steps[j].Store? && Run(cfg, g0, steps[..j]) && Run(cfg, g0, steps[..j + 1])
    && var g := End(cfg, g0, steps[..j]);
       && steps[j].w < |g.workers| && g.workers[steps[j].w].Updating? && g.workers[steps[j].w].d == d
       && g.sm.shared.sessions == before && End(cfg, g0, steps[..j + 1]).sm.shared.sessions == after
  }

  /** Step j of the run is a try_enqueue of datagram d that failed. */
  predicate IsRefusal(cfg: M.Config, g0: Gateway, steps: seq<Step>, j: nat, d: Datagram)
  {
    && j < |steps| && steps[j] == TryEnqueue(false) && Run(cfg, g0, steps[..j])
    && End(cfg, g0, steps[..j]).producer == Offering(d)
  }

  ghost predicate RefusedEntry(cfg: M.Config, g0: Gateway, steps: seq<Step>, d: Datagram)
  {
    exists j: nat :: IsRefusal(cfg, g0, steps, j, d)
  }

  ghost predicate Checked(cfg: M.Config, g0: Gateway, steps: seq<Step>, d: Datagram, blacklist: set<string>)
  {
    exists j: nat :: IsCheck(cfg, g0, steps, j, d, blacklist)
  }

  /** The check for d and, later in the run, its table update. */
  ghost predicate CheckedThenStored(cfg: M.Config, g0: Gateway, steps: seq<Step>, d: Datagram, blacklist: set<string>,
                                    before: Table, after: Table)
  {
    exists i: nat, j: nat ::
      i < j && IsCheck(cfg, g0, steps, i, d, blacklist) && IsStore(cfg, g0, steps, j, d, before, after)
  }

  ghost predicate TraceTrue(cfg: M.Config, g0: Gateway, steps: seq<Step>, d: Datagram, trace: Trace)
  {
    match trace
    case QueueFull => RefusedEntry(cfg, g0, steps, d)
    case Refused(_, blacklist) => Checked(cfg, g0, steps, d, blacklist)
    case Served(_, blacklist, before, after) => CheckedThenStored(cfg, g0, steps, d, blacklist, before, after)
  }

  ghost predicate WorkerTrue(cfg: M.Config, g0: Gateway, steps: seq<Step>, pc: Worker)
  {
    match pc
    case Updating(d, _, blacklist) => Checked(cfg, g0, steps, d, blacklist)
    case Replying(d, _, trace) => TraceTrue(cfg, g0, steps, d, trace)
    case _ => true
  }

  ghost predicate HistoryTrue(cfg: M.Config, g0: Gateway, steps: seq<Step>, g: Gateway)
  {
    && (g.producer.Refusing? ==> RefusedEntry(cfg, g0, steps, g.producer.d))
    && (forall w :: 0 <= w < |g.workers| ==> WorkerTrue(cfg, g0, steps, g.workers[w]))
    && (forall a :: a in g.answers ==> TraceTrue(cfg, g0, steps, a.to, a.trace))
  }

  lemma CheckedStays(cfg: M.Config, g0: Gateway, steps: seq<Step>, st: Step, d: Datagram, blacklist: set<string>)
    requires Checked(cfg, g0, steps, d, blacklist)
    ensures Checked(cfg, g0, steps + [st], d, blacklist)
  {
    var j: nat :| IsCheck(cfg, g0, steps, j, d, blacklist);
    assert (steps + [st])[..j] == steps[..j];
    assert IsCheck(cfg, g0, steps + [st], j, d, blacklist);
  }

  lemma StoredStays(cfg: M.Config, g0: Gateway, steps: seq<Step>, st: Step, d: Datagram, blacklist: set<string>,
                    before: Table, after: Table)
    requires CheckedThenStored(cfg, g0, steps, d, blacklist, before, after)
    ensures CheckedThenStored(cfg, g0, steps + [st], d, blacklist, before, after)
  {
    var i: nat, j: nat :|
      i < j && IsCheck(cfg, g0, steps, i, d, blacklist) && IsStore(cfg, g0, steps, j, d, before, after);
    assert (steps + [st])[..i] == steps[..i];
    assert (steps + [st])[..j] == steps[..j] && (steps + [st])[..j + 1] == steps[..j + 1];
    assert IsCheck(cfg, g0, steps + [st], i, d, blacklist) && IsStore(cfg, g0, steps + [st], j, d, before, after);
  }

  lemma RefusalStays(cfg: M.Config, g0: Gateway, steps: seq<Step>, st: Step, d: Datagram)
    requires RefusedEntry(cfg, g0, steps, d)
    ensures RefusedEntry(cfg, g0, steps + [st], d)
  {
    var j: nat :| IsRefusal(cfg, g0, steps, j, d);
    assert (steps + [st])[..j] == steps[..j];
    assert IsRefusal(cfg, g0, steps + [st], j, d);
  }

  lemma TraceStays(cfg: M.Config, g0: Gateway, steps: seq<Step>, st: Step, d: Datagram, trace: Trace)
    requires TraceTrue(cfg, g0, steps, d, trace)
    ensures TraceTrue(cfg, g0, steps + [st], d, trace)
  {
    match trace
    case QueueFull => RefusalStays(cfg, g0, steps, st, d);
    case Refused(_, blacklist) => CheckedStays(cfg, g0, steps, st, d, blacklist);
    case Served(_, blacklist, before, after) => StoredStays(cfg, g0, steps, st, d, blacklist, before, after);
  }

  lemma WorkerStays(cfg: M.Config, g0: Gateway, steps: seq<Step>, st: Step, pc: Worker)
    requires WorkerTrue(cfg, g0, steps, pc)
    ensures WorkerTrue(cfg, g0, steps + [st], pc)
  {
    match pc
    case Updating(d, _, blacklist) => CheckedStays(cfg, g0, steps, st, d, blacklist);
    case Replying(d, _, trace) => TraceStays(cfg, g0, steps, st, d, trace);
    case _ =>
  }

  lemma CheckHappened(cfg: M.Config, g0: Gateway, steps: seq<Step>, st: Step)
    requires Run(cfg, g0, steps) && Allowed(cfg, End(cfg, g0, steps), st) && st.Decode?
    ensures var g := End(cfg, g0, steps);
            st.w < |g.workers| && g.workers[st.w].Handling?
            && Checked(cfg, g0, steps + [st], g.workers[st.w].d, g.sm.shared.blacklist)
  {
    var g, longer := End(cfg, g0, steps), steps + [st];
    assert longer[..|steps|] == steps && longer[|steps|] == st;
    assert IsCheck(cfg, g0, longer, |steps|, g.workers[st.w].d, g.sm.shared.blacklist);
  }

  lemma StoredNow(cfg: M.Config, g0: Gateway, steps: seq<Step>, st: Step)
    requires Run(cfg, g0, steps) && Allowed(cfg, End(cfg, g0, steps), st) && st.Store?
    ensures var g := End(cfg, g0, steps);
            && st.w < |g.workers| && g.workers[st.w].Updating?
            && IsStore(cfg, g0, steps + [st], |steps|, g.workers[st.w].d, g.sm.shared.sessions,
                       Next(cfg, g, st).sm.shared.sessions)
  {
    var longer := steps + [st];
    assert longer[..|steps|] == steps && longer[..|steps| + 1] == longer && longer[|steps|] == st;
    RunSnoc(cfg, g0, steps, st);
  }

  lemma StoreHappened(cfg: M.Config, g0: Gateway, steps: seq<Step>, st: Step, blacklist: set<string>)
    requires Run(cfg, g0, steps) && Allowed(cfg, End(cfg, g0, steps), st) && st.Store?
    requires var g := End(cfg, g0, steps);
             st.w < |g.workers| && g.workers[st.w].Updating? && Checked(cfg, g0, steps, g.workers[st.w].d, blacklist)
    ensures var g := End(cfg, g0, steps);
            CheckedThenStored(cfg, g0, steps + [st], g.workers[st.w].d, blacklist, g.sm.shared.sessions,
                              Next(cfg, g, st).sm.shared.sessions)
  {
    var d := End(cfg, g0, steps).workers[st.w].d;
    var i: nat :| IsCheck(cfg, g0, steps, i, d, blacklist);
    assert (steps + [st])[..i] == steps[..i];
    assert IsCheck(cfg, g0, steps + [st], i, d, blacklist);
    StoredNow(cfg, g0, steps, st);
  }

  /** A producer on its way to refuse d has seen try_enqueue fail for d. */
  lemma ProducerTrue(cfg: M.Config, g0: Gateway, steps: seq<Step>, st: Step)
    requires Run(cfg, g0, steps) && Allowed(cfg, End(cfg, g0, steps), st)
    requires HistoryTrue(cfg, g0, steps, End(cfg, g0, steps))
    ensures var p := Next(cfg, End(cfg, g0, steps), st).producer;
            p.Refusing? ==> RefusedEntry(cfg, g0, steps + [st], p.d)
  {
    var g := End(cfg, g0, steps);
    if st == TryEnqueue(false) {
      assert (steps + [st])[..|steps|] == steps;
      assert IsRefusal(cfg, g0, steps + [st], |steps|, g.producer.d);
    } else if g.producer.Refusing? {
      RefusalStays(cfg, g0, steps, st, g.producer.d);
    }
  }

  /** The worker that the last step moved tells the truth about it. */
  lemma MoverTrue(cfg: M.Config, g0: Gateway, steps: seq<Step>, st: Step)
    requires Run(cfg, g0, steps) && Allowed(cfg, End(cfg, g0, steps), st) && MovedWorker(st).Some?
    requires HistoryTrue(cfg, g0, steps, End(cfg, g0, steps))
    ensures var g', w := Next(cfg, End(cfg, g0, steps), st), MovedWorker(st).value;
            w < |g'.workers| && WorkerTrue(cfg, g0, steps + [st], g'.workers[w])
  {
    var g := End(cfg, g0, steps);
    if st.Decode? {
      CheckHappened(cfg, g0, steps, st);
    } else if st.Store? {
      var u := g.workers[st.w];
      assert WorkerTrue(cfg, g0, steps, u);
      StoreHappened(cfg, g0, steps, st, u.blacklist);
    } else {
      StepMovesOneWorker(cfg, g, st);
    }
  }

  lemma AnswersTrue(cfg: M.Config, g0: Gateway, steps: seq<Step>, st: Step)
    requires Run(cfg, g0, steps) && Allowed(cfg, End(cfg, g0, steps), st)
    requires HistoryTrue(cfg, g0, steps, End(cfg, g0, steps))
    ensures forall a :: a in Next(cfg, End(cfg, g0, steps), st).answers ==>
              TraceTrue(cfg, g0, steps + [st], a.to, a.trace)
  {
    var g := End(cfg, g0, steps);
    var g' := Next(cfg, g, st);
    forall a | a in g'.answers ensures TraceTrue(cfg, g0, steps + [st], a.to, a.trace) {
      if a in g.answers {
        TraceStays(cfg, g0, steps, st, a.to, a.trace);
      } else if st.Respond? {
        assert WorkerTrue(cfg, g0, steps, g.workers[st.w]);
        TraceStays(cfg, g0, steps, st, a.to, a.trace);
      } else {
        assert st.ReplyFull?;
        RefusalStays(cfg, g0, steps, st, a.to);
      }
    }
  }

  lemma StepKeepsHistoryTrue(cfg: M.Config, g0: Gateway, steps: seq<Step>, st: Step)
    requires Run(cfg, g0, steps) && Allowed(cfg, End(cfg, g0, steps), st)
    requires HistoryTrue(cfg, g0, steps, End(cfg, g0, steps))
    ensures HistoryTrue(cfg, g0, steps + [st], Next(cfg, End(cfg, g0, steps), st))
  {
    var g := End(cfg, g0, steps);
    var g' := Next(cfg, g, st);
    StepMovesOneWorker(cfg, g, st);
    AnswersTrue(cfg, g0, steps, st);
    ProducerTrue(cfg, g0, steps, st);
    forall w | 0 <= w < |g'.workers| ensures WorkerTrue(cfg, g0, steps + [st], g'.workers[w]) {
      if MovedWorker(st) == Some(w) {
        MoverTrue(cfg, g0, steps, st);
      } else {
        assert g'.workers[w] == g.workers[w];
        WorkerStays(cfg, g0, steps, st, g.workers[w]);
      }
    }
  }

  lemma {:induction false} RunHistoryTrue(cfg: M.Config, g0: Gateway, steps: seq<Step>)
    requires Run(cfg, g0, steps) && g0.answers == [] && g0.producer == Reading
    requires forall w :: 0 <= w < |g0.workers| ==> g0.workers[w] == Polling
    ensures HistoryTrue(cfg, g0, steps, End(cfg, g0, steps))
    decreases |steps|
  {
    if steps != [] {
      var rest, st := steps[..|steps| - 1], steps[|steps| - 1];
      RunUnsnoc(cfg, g0, steps);
      RunHistoryTrue(cfg, g0, rest);
      StepKeepsHistoryTrue(cfg, g0, rest, st);
      assert rest + [st] == steps;
    }
  }

  /** What the answer to a datagram from subscriber s says about the run. */
  ghost predicate VerdictFor(cfg: M.Config, g0: Gateway, steps: seq<Step>, a: Answer, s: string)
  {
    match a.trace
    case QueueFull => a.reply == "rejected" && RefusedEntry(cfg, g0, steps, a.to)
    case Refused(x, banned) => x == s && a.reply == "rejected" && s in banned && Checked(cfg, g0, steps, a.to, banned)
    case Served(x, banned, before, after) =>
      && x == s && a.reply == "created" && s !in banned && s in after && OnlyTouches(before, after, s)
      && CheckedThenStored(cfg, g0, steps, a.to, banned, before, after)
  }

  /** End to end: every answer goes to the sender of its datagram. For a datagram that decodes
      to s, if its enqueue failed the reply is "rejected"; otherwise it is "rejected" when s was
      blacklisted at the check step the run made for it, and "created" when it was not, after a
      later update step that left s in the table and touched no other key. */
  lemma ReplyMeansVerdict(cfg: M.Config, start: int, blacklist: set<string>, n: nat, steps: seq<Step>, a: Answer,
                          s: string)
    requires Run(cfg, Initial(start, blacklist, n), steps)
    requires a in End(cfg, Initial(start, blacklist, n), steps).answers
    requires FromBcd(a.to.bytes) == Imsi(s)
    ensures a.addr == a.to.sender && VerdictFor(cfg, Initial(start, blacklist, n), steps, a, s)
  {
    var g0 := Initial(start, blacklist, n);
    RunKeepsVerdicts(cfg, g0, steps);
    RunHistoryTrue(cfg, g0, steps);
    assert AnswerFits(a);
  }

  /** In particular for what the client sends for subscriber s. */
  lemma ClientGetsVerdict(cfg: M.Config, start: int, blacklist: set<string>, n: nat, steps: seq<Step>, a: Answer,
                          s: string)
    requires Run(cfg, Initial(start, blacklist, n), steps)
    requires a in End(cfg, Initial(start, blacklist, n), steps).answers
    requires ValidImsi(s) && a.to.bytes == ToBcd(s)
    ensures a.addr == a.to.sender && VerdictFor(cfg, Initial(start, blacklist, n), steps, a, s)
  {
    CodecBijection(s, a.to.bytes);
    ReplyMeansVerdict(cfg, start, blacklist, n, steps, a, s);
  }

  /** The CDR file of a gateway run: readable exactly when legible, then the events of its session
      manager, whose replay is the table exactly when no session was last removed by hand. */
  lemma GatewayFileRebuildsTable(cfg: M.Config, start: int, blacklist: set<string>, n: nat, steps: seq<Step>,
                                 cal: Cdr.Calendar)
    requires Run(cfg, Initial(start, blacklist, n), steps) && Cdr.CleanCalendar(cal)
    ensures var sh := End(cfg, Initial(start, blacklist, n), steps).sm.shared;
            var read := Cdr.ParseFile(Cdr.FileText(cal, Events(sh.log)));
            && (read != None <==> CdrHistory.Legible(sh.log))
            && (CdrHistory.Legible(sh.log) ==>
                  && read == Some(Cdr.ToRecords(cal, Events(sh.log)))
                  && (CdrHistory.FileReplay(cal, sh.log) == sh.sessions.Keys
                      <==> forall x :: !CdrHistory.RemovedLast(sh.log, x)))
  {
    var g0 := Initial(start, blacklist, n);
    GatewayRunsSessions(cfg, g0, steps);
    CdrHistory.FileRebuildsTable(cfg, start, blacklist, SessionSteps(cfg, g0, steps), cal);
  }

  // ------------------------------------------------------------------------- bad input

  /** Decoding keeps the process alive exactly when the bytes are acceptable; the "rejected"
      that handleUdpEvent means to send for a bad datagram is never sent. */
  lemma DecodeSurvivesIff(cfg: M.Config, g: Gateway, w: nat, at: int, wall: int)
    requires Allowed(cfg, g, Decode(w, at, wall))
    ensures Next(cfg, g, Decode(w, at, wall)).alive <==> Acceptable(g.workers[w].d.bytes)
    ensures Next(cfg, g, Decode(w, at, wall)).answers == g.answers
  {
    DecoderAcceptsExactly(g.workers[w].d.bytes);
  }

  lemma StepStaysAlive(cfg: M.Config, g: Gateway, st: Step)
    requires Allowed(cfg, g, st) && (st.Decode? ==> Acceptable(g.workers[st.w].d.bytes))
    ensures Next(cfg, g, st).alive
  {
    if st.Decode? { DecodeSurvivesIff(cfg, g, st.w, st.at, st.wall); }
  }

  /** While every datagram received is acceptable the process stays alive. */
  lemma {:induction false} AcceptableInputIsSafe(cfg: M.Config, start: int, blacklist: set<string>, n: nat,
                                                 steps: seq<Step>)
    requires Run(cfg, Initial(start, blacklist, n), steps)
    requires forall d :: d in End(cfg, Initial(start, blacklist, n), steps).received ==> Acceptable(d.bytes)
    ensures End(cfg, Initial(start, blacklist, n), steps).alive
    decreases |steps|
  {
    var g0 := Initial(start, blacklist, n);
    if steps != [] {
      var rest, st := steps[..|steps| - 1], steps[|steps| - 1];
      RunUnsnoc(cfg, g0, steps);
      var g := End(cfg, g0, rest);
      assert g.received <= End(cfg, g0, steps).received;
      AcceptableInputIsSafe(cfg, start, blacklist, n, rest);
      if st.Decode? {
        var d := g.workers[st.w].d;
        HolderCounts(g.workers, st.w, d);
        ExactlyOnce(cfg, start, blacklist, n, rest, d);
        assert d in g.received;
      }
      StepStaysAlive(cfg, g, st);
    }
  }

  /** One packet with these bytes, and a worker to decode it. */
  lemma OnePacketKills(cfg: M.Config, bytes: seq<byte>) returns (steps: seq<Step>)
    requires !Acceptable(bytes)
    ensures Run(cfg, Initial(0, {}, 1), steps)
    ensures var g := End(cfg, Initial(0, {}, 1), steps);
            !g.alive && g.received == [Datagram(0, bytes, 0)] && g.answers == []
  {
    var g0, d := Initial(0, {}, 1), Datagram(0, bytes, 0);
    steps := [];
    RunSnoc(cfg, g0, steps, Receive(bytes, 0));
    steps := steps + [Receive(bytes, 0)];
    RunSnoc(cfg, g0, steps, TryEnqueue(true));
    steps := steps + [TryEnqueue(true)];
    assert g0.workers == [Polling];
    RunSnoc(cfg, g0, steps, Poll(0));
    steps := steps + [Poll(0)];
    var g := End(cfg, g0, steps);
    assert g.workers == [Handling(d)];
    DecoderAcceptsExactly(bytes);
    RunSnoc(cfg, g0, steps, Decode(0, 0, 0));
    steps := steps + [Decode(0, 0, 0)];
  }

  /** Some run that receives nothing but these bytes ends with the process terminated. */
  ghost predicate CanKill(cfg: M.Config, bytes: seq<byte>)
  {
    exists start: int, blacklist: set<string>, n: nat, steps: seq<Step> ::
      Run(cfg, Initial(start, blacklist, n), steps) && Killed(End(cfg, Initial(start, blacklist, n), steps), bytes)
  }

  predicate Killed(g: Gateway, bytes: seq<byte>) { !g.alive && forall d :: d in g.received ==> d.bytes == bytes }

  /** A datagram can terminate the process if and only if the decoder does not accept it. */
  lemma KillsIffUnacceptable(cfg: M.Config, bytes: seq<byte>)
    ensures CanKill(cfg, bytes) <==> !Acceptable(bytes)
  {
    if !Acceptable(bytes) {
      var steps := OnePacketKills(cfg, bytes);
      assert Killed(End(cfg, Initial(0, {}, 1), steps), bytes);
    } else if CanKill(cfg, bytes) {
      var start: int, blacklist: set<string>, n: nat, steps: seq<Step> :|
        Run(cfg, Initial(start, blacklist, n), steps) && Killed(End(cfg, Initial(start, blacklist, n), steps), bytes);
      AcceptableInputIsSafe(cfg, start, blacklist, n, steps);
    }
  }
}
