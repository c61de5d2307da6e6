/** Graceful shutdown: it ends in spite of what the other threads do, and how fast it may go. */
module Shutdown {
  import opened Sessions
  import opened Machine

  // ------------------------------------------------------------------------- termination

  /** Sessions the shutdown thread has still to choose. */
  function Unchosen(s: State): nat
  {
    |if s.reaper.Chosen? then s.shared.sessions.Keys - {s.reaper.victim} else s.shared.sessions.Keys|
  }

  predicate Creates(s: State, st: Step)
  {
    match st.act
    case Update(c, _, _) => c in s.calls && s.calls[c] !in s.shared.sessions
    case _ => false
  }

  function CreatesIn(cfg: Config, s: State, steps: seq<Step>): nat
    requires Run(cfg, s, steps)
    decreases |steps|
  {
    if steps == [] then 0
    else (if Creates(s, steps[0]) then 1 else 0) + CreatesIn(cfg, Next(cfg, s, steps[0]), steps[1..])
  }

  /** The times the shutdown thread looked at the table: its loop iterations. */
  function Looks(steps: seq<Step>): nat
  {
    if steps == [] then 0
    else (if steps[0].act.Choose? || steps[0].act.FindEmpty? then 1 else 0) + Looks(steps[1..])
  }

  lemma {:induction false} SubsetSize<T>(a: set<T>, b: set<T>)
    requires a <= b
    ensures |a| <= |b|
  {
    if a != {} {
      var x :| x in a;
      SubsetSize(a - {x}, b - {x});
    }
  }

  lemma AddedSize<T>(a: set<T>, b: set<T>, x: T)
    requires a <= b + {x}
    ensures |a| <= |b| + 1
  {
    SubsetSize(a, b + {x});
  }

  function Victims(r: Reaper): set<string> { if r.Chosen? then {r.victim} else {} }

  lemma UnchosenIs(s: State)
    ensures Unchosen(s) == |s.shared.sessions.Keys - Victims(s.reaper)|
  {
    assert s.shared.sessions.Keys - {} == s.shared.sessions.Keys;
  }

  lemma UpdateMeasure(cfg: Config, s: State, st: Step)
    requires Allowed(cfg, s, st) && st.act.Update?
    ensures Unchosen(Next(cfg, s, st)) <= Unchosen(s) + if Creates(s, st) then 1 else 0
  {
    var s' := Next(cfg, s, st);
    var x := s.calls[st.act.call];
    var v := Victims(s.reaper);
    UnchosenIs(s);
    UnchosenIs(s');
    assert s'.shared.sessions.Keys == s.shared.sessions.Keys + {x};
    if Creates(s, st) {
      AddedSize(s'.shared.sessions.Keys - v, s.shared.sessions.Keys - v, x);
    } else {
      assert s'.shared.sessions.Keys == s.shared.sessions.Keys;
    }
  }

  /** A step that leaves the shutdown thread where it is and adds no key. */
  lemma ShrinkMeasure(s: State, s': State)
    requires s'.reaper == s.reaper && s'.shared.sessions.Keys <= s.shared.sessions.Keys
    ensures Unchosen(s') <= Unchosen(s)
  {
    UnchosenIs(s);
    UnchosenIs(s');
    SubsetSize(s'.shared.sessions.Keys - Victims(s.reaper), s.shared.sessions.Keys - Victims(s.reaper));
  }

  lemma ChooseMeasure(cfg: Config, s: State, st: Step)
    requires TableOk(s) && Allowed(cfg, s, st) && st.act.Choose?
    ensures Unchosen(Next(cfg, s, st)) + 1 <= Unchosen(s)
  {
    var v := st.act.victim;
    assert SessionOk(v, s.shared.sessions[v], s.clock);
    assert v in s.shared.sessions.Keys;
  }

  lemma ReapMeasure(cfg: Config, s: State, st: Step)
    requires Allowed(cfg, s, st) && st.act.Reap?
    ensures Unchosen(Next(cfg, s, st)) <= Unchosen(s)
  {
    assert Next(cfg, s, st).shared.sessions.Keys == s.shared.sessions.Keys - {s.reaper.victim};
  }

  lemma RefreshMeasure(cfg: Config, s: State, st: Step)
    requires Allowed(cfg, s, st) && st.act.Refresh?
    ensures Unchosen(Next(cfg, s, st)) <= Unchosen(s)
  {
    assert Next(cfg, s, st).shared.sessions.Keys == s.shared.sessions.Keys;
    ShrinkMeasure(s, Next(cfg, s, st));
  }

  lemma SweepMeasure(cfg: Config, s: State, st: Step)
    requires Allowed(cfg, s, st) && st.act.Sweep?
    ensures Unchosen(Next(cfg, s, st)) <= Unchosen(s)
  {
    SweepStepErases(cfg, s, st);
    ShrinkMeasure(s, Next(cfg, s, st));
  }

  lemma RemoveMeasure(cfg: Config, s: State, st: Step)
    requires Allowed(cfg, s, st) && st.act.Remove?
    ensures Unchosen(Next(cfg, s, st)) <= Unchosen(s)
  {
    ShrinkMeasure(s, Next(cfg, s, st));
  }

  /** The measure: a look takes one unchosen session away, only a creation adds one. */
  lemma StepMeasure(cfg: Config, s: State, st: Step)
    requires TableOk(s) && Allowed(cfg, s, st)
    ensures Unchosen(Next(cfg, s, st)) + (if st.act.Choose? then 1 else 0)
            <= Unchosen(s) + if Creates(s, st) then 1 else 0
  {
    match st.act
    case Update(_, _, _) => UpdateMeasure(cfg, s, st);
    case Sweep(_) => SweepMeasure(cfg, s, st);
    case Remove(_) => RemoveMeasure(cfg, s, st);
    case Refresh(_) => RefreshMeasure(cfg, s, st);
    case Choose(_) => ChooseMeasure(cfg, s, st);
    case Reap(_) => ReapMeasure(cfg, s, st);
    case _ =>
  }

  /** The active flag is up exactly while the shutdown thread runs. */
  predicate FlagOk(s: State) { s.shared.active <==> !s.reaper.NotStarted? && !s.reaper.Finished? }

  lemma StepKeepsFlagOk(cfg: Config, s: State, st: Step)
    requires FlagOk(s) && Allowed(cfg, s, st)
    ensures FlagOk(Next(cfg, s, st))
  {
    if st.act.Sweep? {
      SweepStepErases(cfg, s, st);
    }
  }

  lemma {:induction false} FinishedLooksNoMore(cfg: Config, s: State, steps: seq<Step>)
    requires Run(cfg, s, steps) && s.reaper.Finished?
    ensures Looks(steps) == 0 && End(cfg, s, steps).reaper.Finished?
    decreases |steps|
  {
    if steps != [] { FinishedLooksNoMore(cfg, Next(cfg, s, steps[0]), steps[1..]); }
  }

  lemma {:induction false} LooksAreBounded(cfg: Config, s: State, steps: seq<Step>)
    requires TableOk(s) && FlagOk(s) && Run(cfg, s, steps)
    ensures Looks(steps) <= Unchosen(s) + CreatesIn(cfg, s, steps) + 1
    ensures Unchosen(s) <= |s.shared.sessions|
    ensures Looks(steps) > Unchosen(s) + CreatesIn(cfg, s, steps) ==>
              End(cfg, s, steps).reaper.Finished? && !End(cfg, s, steps).shared.active
    decreases |steps|
  {
    UnchosenIs(s);
    SubsetSize(s.shared.sessions.Keys - Victims(s.reaper), s.shared.sessions.Keys);
    if steps != [] {
      var s' := Next(cfg, s, steps[0]);
      StepMeasure(cfg, s, steps[0]);
      StepKeepsTableOk(cfg, s, steps[0]);
      StepKeepsFlagOk(cfg, s, steps[0]);
      if steps[0].act.FindEmpty? {
        FinishedLooksNoMore(cfg, s', steps[1..]);
        FlagEverAfter(cfg, s', steps[1..]);
      } else {
        LooksAreBounded(cfg, s', steps[1..]);
      }
    }
  }

  lemma {:induction false} FlagEverAfter(cfg: Config, s: State, steps: seq<Step>)
    requires FlagOk(s) && Run(cfg, s, steps)
    ensures FlagOk(End(cfg, s, steps))
    decreases |steps|
  {
    if steps != [] {
      StepKeepsFlagOk(cfg, s, steps[0]);
      FlagEverAfter(cfg, Next(cfg, s, steps[0]), steps[1..]);
    }
  }

  /** Graceful shutdown terminates despite concurrent cleanup, removals and further creates:
      from any reachable state on it looks at the table at most |sessions| + creates + 1 times,
      and by that many looks it has found it empty, stopped and cleared the active flag. */
  lemma ShutdownTerminates(cfg: Config, start: int, blacklist: set<string>, before: seq<Step>, steps: seq<Step>)
    requires Run(cfg, Initial(start, blacklist), before)
    requires Run(cfg, End(cfg, Initial(start, blacklist), before), steps)
    ensures var s := End(cfg, Initial(start, blacklist), before);
            var most := |s.shared.sessions| + CreatesIn(cfg, s, steps);
            && Looks(steps) <= most + 1
            && (Looks(steps) > most ==> End(cfg, s, steps).reaper.Finished? && !End(cfg, s, steps).shared.active)
  {
    RunKeepsTableOk(cfg, Initial(start, blacklist), before);
    FlagEverAfter(cfg, Initial(start, blacklist), before);
    LooksAreBounded(cfg, End(cfg, Initial(start, blacklist), before), steps);
  }

  predicate ReaperAct(act: Act) { act.Choose? || act.FindEmpty? || act.Reap? || act.EndPause? }

  /** Nothing but a scan in progress can hold the running shutdown thread up, and it never
      spins: every key is non-empty, so what it chooses it goes on to reap. */
  lemma ShutdownProgress(cfg: Config, start: int, blacklist: set<string>, steps: seq<Step>) returns (st: Step)
    requires Run(cfg, Initial(start, blacklist), steps)
    requires var s := End(cfg, Initial(start, blacklist), steps);
             !s.reaper.NotStarted? && !s.reaper.Finished? && !s.cleaner.Scanning?
    ensures var s := End(cfg, Initial(start, blacklist), steps);
            && ReaperAct(st.act) && Allowed(cfg, s, st)
            && (st.act.Choose? ==> Next(cfg, s, st).reaper == Chosen(st.act.victim))
            && Next(cfg, s, st).reaper != s.reaper
  {
    var s := End(cfg, Initial(start, blacklist), steps);
    RunKeepsTableOk(cfg, Initial(start, blacklist), steps);
    match s.reaper
    case Choosing =>
      if v :| v in s.shared.sessions {
        assert SessionOk(v, s.shared.sessions[v], s.clock);
        st := Step(s.clock, Choose(v));
      } else {
        assert s.shared.sessions == map[];
        st := Step(s.clock, FindEmpty);
      }
    case Chosen(_) => st := Step(s.clock, Reap(0));
    case Pausing(since) =>
      st := Step(if s.clock < since + cfg.Pause() then since + cfg.Pause() else s.clock, EndPause);
  }

  // ------------------------------------------------------------------------- the rate

  /** When the GRACEFUL_SHUTDOWN events of the history were emitted. */
  function ShutdownTimes(log: seq<Entry>): seq<int>
  {
    if log == [] then []
    else ShutdownTimes(log[..|log| - 1]) + if log[|log| - 1].Is(GRACEFUL_SHUTDOWN) then [log[|log| - 1].at] else []
  }

  lemma ShutdownTimesSnoc(log: seq<Entry>, e: Entry)
    ensures ShutdownTimes(log + [e]) == ShutdownTimes(log) + if e.Is(GRACEFUL_SHUTDOWN) then [e.at] else []
  {
    assert (log + [e])[..|log + [e]| - 1] == log;
  }

  /** Successive times are at least q apart. */
  predicate Spaced(times: seq<int>, q: nat)
  {
    forall i :: 0 < i < |times| ==> times[i - 1] + q <= times[i]
  }

  /** The last shutdown erasure was a pause ago, or no later than the pause in progress began. */
  predicate RateOk(q: nat, s: State)
  {
    var times := ShutdownTimes(s.shared.log);
    && Spaced(times, q)
    && (times != [] ==>
          match s.reaper
          case NotStarted => false
          case Pausing(since) => times[|times| - 1] <= since
          case Finished => true
          case _ => times[|times| - 1] + q <= s.clock)
  }

  lemma {:induction false} SweepKeepsTimes(sh: Shared, list: seq<string>, n: nat, now: int, timeout: nat,
                                           at: int, walls: seq<int>)
    requires n <= |list| == |walls|
    ensures ShutdownTimes(SweepSection(sh, list, n, now, timeout, at, walls).log) == ShutdownTimes(sh.log)
  {
    if n > 0 {
      SweepKeepsTimes(sh, list, n - 1, now, timeout, at, walls);
      var mid := SweepSection(sh, list, n - 1, now, timeout, at, walls);
      ShutdownTimesSnoc(mid.log, Emitted(SessionEvent(list[n - 1], TIMEOUT, walls[n - 1]), at));
    }
  }

  lemma StepTimes(cfg: Config, s: State, st: Step)
    requires Allowed(cfg, s, st)
    ensures ShutdownTimes(Next(cfg, s, st).shared.log)
            == ShutdownTimes(s.shared.log)
               + if st.act.Reap? && s.reaper.victim in s.shared.sessions then [st.at] else []
  {
    var log := s.shared.log;
    match st.act
    case Sweep(walls) =>
      SweepKeepsTimes(s.shared, s.cleaner.list, |s.cleaner.list|, s.cleaner.now, cfg.timeout, st.at, walls);
    case Check(_, imsi, wall) => ShutdownTimesSnoc(log, Emitted(SessionEvent(imsi, REJECTED, wall), st.at));
    case Update(c, _, wall) => ShutdownTimesSnoc(log, Emitted(SessionEvent(s.calls[c], CREATED, wall), st.at));
    case Remove(imsi) => ShutdownTimesSnoc(log, Removed(imsi, st.at));
    case Reap(wall) => ShutdownTimesSnoc(log, Emitted(SessionEvent(s.reaper.victim, GRACEFUL_SHUTDOWN, wall), st.at));
    case _ =>
  }

  lemma {:induction false} RunKeepsRate(cfg: Config, s: State, steps: seq<Step>)
    requires RateOk(cfg.Pause(), s) && Run(cfg, s, steps)
    ensures RateOk(cfg.Pause(), End(cfg, s, steps))
    decreases |steps|
  {
    if steps != [] {
      StepTimes(cfg, s, steps[0]);
      var s' := Next(cfg, s, steps[0]);
      assert RateOk(cfg.Pause(), s');
      RunKeepsRate(cfg, s', steps[1..]);
    }
  }

  /** Shutdown erasures are at least 1000 / R milliseconds apart in every run. */
  lemma ErasuresAreSpaced(cfg: Config, start: int, blacklist: set<string>, steps: seq<Step>)
    requires Run(cfg, Initial(start, blacklist), steps)
    ensures Spaced(ShutdownTimes(End(cfg, Initial(start, blacklist), steps).shared.log), cfg.Pause())
  {
    RunKeepsRate(cfg, Initial(start, blacklist), steps);
  }

  /** How many times fall in the half-open window [from, to). */
  function CountIn(times: seq<int>, from: int, to: int): nat
  {
    if times == [] then 0
    else CountIn(times[..|times| - 1], from, to) + if from <= times[|times| - 1] < to then 1 else 0
  }

  /** Among spaced times, c of them in a window reach (c - 1) * q into it. */
  lemma {:induction false} WindowReach(times: seq<int>, q: nat, from: int, to: int)
    requires Spaced(times, q)
    ensures CountIn(times, from, to) > 0 ==>
              times != [] && from + (CountIn(times, from, to) - 1) * q <= times[|times| - 1]
              && from + (CountIn(times, from, to) - 1) * q < to
  {
    if times != [] {
      var rest, last := times[..|times| - 1], times[|times| - 1];
      WindowReach(rest, q, from, to);
      var c := CountIn(rest, from, to);
      if c > 0 {
        assert rest[|rest| - 1] == times[|times| - 2];
        assert c * q == (c - 1) * q + q;
      }
    }
  }

  function CeilDiv(w: nat, q: positive): nat { (w + q - 1) / q }

  lemma CountFromReach(c: nat, q: positive, w: nat)
    requires c > 0 ==> (c - 1) * q < w
    ensures c <= CeilDiv(w, q)
  {
    if c > 0 {
      assert c * q == (c - 1) * q + q;
      assert c * q <= w + q - 1;
      if c > CeilDiv(w, q) { MulMono(CeilDiv(w, q) + 1, c, q); }
    }
  }

  lemma MulMono(a: nat, b: nat, q: nat)
    requires a <= b
    ensures a * q <= b * q
  {
  }

  /** Any half-open window of w nanoseconds holds at most ceil(w / q) shutdown erasures. */
  lemma WindowBound(cfg: Config, start: int, blacklist: set<string>, steps: seq<Step>, from: int, w: nat)
    requires cfg.rate <= 1000
    requires Run(cfg, Initial(start, blacklist), steps)
    ensures cfg.Pause() > 0
    ensures CountIn(ShutdownTimes(End(cfg, Initial(start, blacklist), steps).shared.log), from, from + w)
            <= CeilDiv(w, cfg.Pause())
  {
    PauseInMillis(cfg);
    ErasuresAreSpaced(cfg, start, blacklist, steps);
    var times := ShutdownTimes(End(cfg, Initial(start, blacklist), steps).shared.log);
    WindowReach(times, cfg.Pause(), from, from + w);
    CountFromReach(CountIn(times, from, from + w), cfg.Pause(), w);
  }

  /** Integer division: R pauses never exceed a second, 2R cover one, and R cover it exactly
      when R divides 1000. */
  lemma PauseInMillis(cfg: Config)
    requires cfg.rate <= 1000
    ensures cfg.Pause() >= MILLISECOND
    ensures 2 * cfg.rate * cfg.Pause() >= SECOND
    ensures 1000 % cfg.rate == 0 ==> cfg.rate * cfg.Pause() == SECOND
  {
    var r, m := cfg.rate, 1000 / cfg.rate;
    assert 1000 == m * r + 1000 % r;
    if m == 0 { assert false; }
    assert 2 * r * m == r * m + r * m;
    assert r <= r * m by { MulMono(1, m, r); }
    assert 2 * r * m >= 1000;
    assert 2 * r * cfg.Pause() == 2 * r * m * MILLISECOND;
    assert r * cfg.Pause() == r * m * MILLISECOND;
  }

  lemma CeilFromProduct(w: nat, q: positive, n: nat)
    requires n * q >= w
    ensures CeilDiv(w, q) <= n
  {
    if CeilDiv(w, q) > n { MulMono(n + 1, CeilDiv(w, q), q); }
  }

  /** Shutdown erasures of a run in the second that begins at `from`. */
  function ErasedInSecond(cfg: Config, start: int, blacklist: set<string>, steps: seq<Step>, from: int): nat
    requires Run(cfg, Initial(start, blacklist), steps)
  {
    CountIn(ShutdownTimes(End(cfg, Initial(start, blacklist), steps).shared.log), from, from + SECOND)
  }

  /** In any second at most 2R sessions are shut down, and at most R when R divides 1000. */
  lemma PerSecondBound(cfg: Config, start: int, blacklist: set<string>, steps: seq<Step>, from: int)
    requires cfg.rate <= 1000
    requires Run(cfg, Initial(start, blacklist), steps)
    ensures var n := ErasedInSecond(cfg, start, blacklist, steps, from);
            n <= 2 * cfg.rate && (1000 % cfg.rate == 0 ==> n <= cfg.rate)
  {
    PauseInMillis(cfg);
    WindowBound(cfg, start, blacklist, steps, from, SECOND);
    CeilFromProduct(SECOND, cfg.Pause(), 2 * cfg.rate);
    if 1000 % cfg.rate == 0 { CeilFromProduct(SECOND, cfg.Pause(), cfg.rate); }
  }

  // ----------------------------------------------------- when the configured rate is honoured

  /** In no run does a window of one second see more than `rate` shutdown erasures. */
  ghost predicate RateHonoured(cfg: Config)
  {
    forall start: int, blacklist: set<string>, steps: seq<Step>, from: int ::
      Run(cfg, Initial(start, blacklist), steps) ==> ErasedInSecond(cfg, start, blacklist, steps, from) <= cfg.rate
  }

  /** After n rounds of creating "1" and shutting it down, one pause after the other. */
  predicate AfterRounds(cfg: Config, s: State, n: nat)
  {
    var times := ShutdownTimes(s.shared.log);
    && s.clock == n * cfg.Pause()
    && s.shared.sessions == map[] && s.shared.blacklist == {} && s.calls == map[]
    && s.cleaner.Asleep? && s.reaper.Choosing?
    && |times| == n && forall i :: 0 <= i < n ==> 0 <= times[i] && times[i] + cfg.Pause() <= s.clock
  }

  /** With "1" alone in the table the shutdown thread chooses it, reaps it at once and pauses. */
  function ReapSteps(cfg: Config, t: int): seq<Step>
  {
    [Step(t, Choose("1")), Step(t, Reap(0)), Step(t + cfg.Pause(), EndPause)]
  }

  function AfterReap(cfg: Config, s: State, t: int): State
  {
    s.(clock := t + cfg.Pause(), shared := ReapSection(s.shared, "1", t, 0), reaper := Choosing)
  }

  lemma ReapRun(cfg: Config, s: State, t: int)
    requires s.clock == t && "1" in s.shared.sessions && s.cleaner.Asleep? && s.reaper.Choosing?
    ensures Run(cfg, s, ReapSteps(cfg, t)) && End(cfg, s, ReapSteps(cfg, t)) == AfterReap(cfg, s, t)
  {
    var steps := ReapSteps(cfg, t);
    var s1 := s.(reaper := Chosen("1"));
    var s2 := s1.(shared := ReapSection(s.shared, "1", t, 0), reaper := Pausing(t));
    assert Run(cfg, s2, [steps[2]]) && End(cfg, s2, [steps[2]]) == AfterReap(cfg, s, t);
    assert [steps[1], steps[2]][1..] == [steps[2]];
    assert Run(cfg, s1, [steps[1], steps[2]]) && End(cfg, s1, [steps[1], steps[2]]) == AfterReap(cfg, s, t);
    assert steps[1..] == [steps[1], steps[2]];
  }

  lemma RoundState(cfg: Config, s: State, n: nat)
    requires AfterRounds(cfg, s, n)
    ensures AfterRounds(cfg, AfterReap(cfg, AfterCreate(s, "1", s.clock), s.clock), n + 1)
  {
    var t, q := s.clock, cfg.Pause();
    var created := Emitted(SessionEvent("1", CREATED, t), t);
    ShutdownTimesSnoc(s.shared.log, created);
    ShutdownTimesSnoc(s.shared.log + [created], Emitted(SessionEvent("1", GRACEFUL_SHUTDOWN, 0), t));
    assert (n + 1) * q == n * q + q;
    assert 0 <= n * q;
  }

  lemma OneRound(cfg: Config, s: State, n: nat) returns (steps: seq<Step>)
    requires AfterRounds(cfg, s, n)
    ensures Run(cfg, s, steps) && AfterRounds(cfg, End(cfg, s, steps), n + 1)
  {
    var t := s.clock;
    CreateRun(cfg, s, "1", t);
    ReapRun(cfg, AfterCreate(s, "1", t), t);
    RunConcat(cfg, s, CreateSteps("1", t), ReapSteps(cfg, t));
    RoundState(cfg, s, n);
    steps := CreateSteps("1", t) + ReapSteps(cfg, t);
  }

  lemma {:induction false} Rounds(cfg: Config, s: State, n: nat) returns (steps: seq<Step>)
    requires AfterRounds(cfg, s, 0)
    ensures Run(cfg, s, steps) && AfterRounds(cfg, End(cfg, s, steps), n)
  {
    if n == 0 {
      steps := [];
    } else {
      steps := Rounds(cfg, s, n - 1);
      var more := OneRound(cfg, End(cfg, s, steps), n - 1);
      RunConcat(cfg, s, steps, more);
      steps := steps + more;
    }
  }

  lemma {:induction false} AllInWindow(times: seq<int>, from: int, to: int)
    requires forall i :: 0 <= i < |times| ==> from <= times[i] < to
    ensures CountIn(times, from, to) == |times|
  {
    if times != [] { AllInWindow(times[..|times| - 1], from, to); }
  }

  lemma PausesFallShort(cfg: Config)
    requires 1000 % cfg.rate != 0
    ensures cfg.rate * cfg.Pause() < SECOND
  {
    var r, m := cfg.rate, 1000 / cfg.rate;
    assert 1000 == m * r + 1000 % r;
    assert r * cfg.Pause() == r * m * MILLISECOND;
  }

  /** A rate that does not divide 1000 is exceeded: R + 1 erasures fit in one second. */
  lemma UnevenRateExceeded(cfg: Config)
    requires 1000 % cfg.rate != 0
    ensures !RateHonoured(cfg)
  {
    var s0, first := Initial(0, {}), Step(0, StartShutdown);
    assert Run(cfg, s0, []);
    RunSnoc(cfg, s0, [], first);
    assert [] + [first] == [first];
    var s1 := Next(cfg, s0, first);
    assert AfterRounds(cfg, s1, 0);
    var rounds := Rounds(cfg, s1, cfg.rate + 1);
    RunConcat(cfg, s0, [first], rounds);
    var steps := [first] + rounds;
    var times := ShutdownTimes(End(cfg, s0, steps).shared.log);
    PausesFallShort(cfg);
    assert (cfg.rate + 1) * cfg.Pause() == cfg.rate * cfg.Pause() + cfg.Pause();
    AllInWindow(times, 0, SECOND);
    assert ErasedInSecond(cfg, 0, {}, steps, 0) == cfg.rate + 1;
  }

  /** The configured rate is honoured in every run if and only if it divides 1000. */
  lemma RateHonouredIffDivides1000(cfg: Config)
    ensures RateHonoured(cfg) <==> 1000 % cfg.rate == 0
  {
    if 1000 % cfg.rate == 0 {
      if cfg.rate > 1000 { assert false; }
      forall start: int, blacklist: set<string>, steps: seq<Step>, from: int
        | Run(cfg, Initial(start, blacklist), steps)
        ensures ErasedInSecond(cfg, start, blacklist, steps, from) <= cfg.rate
      {
        PerSecondBound(cfg, start, blacklist, steps, from);
      }
    } else {
      UnevenRateExceeded(cfg);
    }
  }
}
