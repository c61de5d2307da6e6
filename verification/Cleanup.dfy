/** The optimistic two-phase cleanup: it scans under the shared lock, lets go, and erases later
    under the exclusive lock what it finds still expired. */
module Cleanup {
  import opened Sessions
  import opened Machine

  /** The `now` of the pass in progress. */
  function PassTime(c: Cleaner): int
    requires !c.Asleep?
  {
    c.now
  }

  /** No live session was already expired at the last complete pass; and what the pass in
      progress has looked at, or all it will ever look at, is listed if expired. */
  predicate SweepOk(timeout: nat, s: State)
  {
    && s.lastPass <= s.clock
    && (forall k :: k in s.shared.sessions ==> !Expired(s.shared.sessions[k], s.lastPass, timeout))
    && (!s.cleaner.Asleep? ==> s.lastPass <= PassTime(s.cleaner) <= s.clock)
    && (s.cleaner.Scanning? ==> forall k :: k in s.cleaner.seen ==>
          k in s.shared.sessions && (Expired(s.shared.sessions[k], s.cleaner.now, timeout) ==> k in s.cleaner.list))
    && (s.cleaner.Erasing? ==> forall k :: k in s.shared.sessions ==>
          (Expired(s.shared.sessions[k], s.cleaner.now, timeout) ==> k in s.cleaner.list))
  }

  /** The step ends a cleanup pass: it erases, or it finds that nothing was listed. */
  predicate EndsPass(s: State, st: Step)
  {
    st.act.Sweep? || (st.act.EndScan? && s.cleaner.Scanning? && s.cleaner.list == [])
  }

  lemma PassIsExact(cfg: Config, s: State, st: Step)
    requires SweepOk(cfg.timeout, s) && Allowed(cfg, s, st) && EndsPass(s, st)
    ensures Next(cfg, s, st).shared.sessions == OneLockSweep(s.shared.sessions, s.cleaner.now, cfg.timeout)
    ensures TimeoutsFor(s.shared.log, Next(cfg, s, st).shared.log,
                        s.shared.sessions.Keys - Next(cfg, s, st).shared.sessions.Keys, st.at)
  {
    var c := s.cleaner;
    if st.act.Sweep? {
      SweepStepErases(cfg, s, st);
    } else {
      assert forall k :: k in s.shared.sessions ==> k in c.seen;
    }
  }

  lemma ScanKeepsSweepOk(cfg: Config, s: State, st: Step)
    requires SweepOk(cfg.timeout, s) && Allowed(cfg, s, st) && st.act.ScanOne?
    ensures SweepOk(cfg.timeout, Next(cfg, s, st))
  {
  }

  /** With a positive timeout a fresh stamp is never expired at an earlier now. */
  lemma StampKeepsSweepOk(cfg: Config, s: State, st: Step)
    requires cfg.timeout > 0 && SweepOk(cfg.timeout, s) && Allowed(cfg, s, st) && (st.act.Update? || st.act.Refresh?)
    ensures SweepOk(cfg.timeout, Next(cfg, s, st))
  {
  }

  lemma StepKeepsSweepOk(cfg: Config, s: State, st: Step)
    requires cfg.timeout > 0 && SweepOk(cfg.timeout, s) && Allowed(cfg, s, st)
    ensures SweepOk(cfg.timeout, Next(cfg, s, st))
  {
    if EndsPass(s, st) {
      PassIsExact(cfg, s, st);
    } else if st.act.EndScan? {
      assert forall k :: k in s.shared.sessions ==> k in s.cleaner.seen;
    } else if st.act.ScanOne? {
      ScanKeepsSweepOk(cfg, s, st);
    } else if st.act.Update? || st.act.Refresh? {
      StampKeepsSweepOk(cfg, s, st);
    }
  }

  lemma {:induction false} RunKeepsSweepOk(cfg: Config, s: State, steps: seq<Step>)
    requires cfg.timeout > 0 && SweepOk(cfg.timeout, s) && Run(cfg, s, steps)
    ensures SweepOk(cfg.timeout, End(cfg, s, steps))
    decreases |steps|
  {
    if steps != [] {
      StepKeepsSweepOk(cfg, s, steps[0]);
      RunKeepsSweepOk(cfg, Next(cfg, s, steps[0]), steps[1..]);
    }
  }

  // ------------------------------------------------- the two-phase sweep refines a one-lock sweep

  /** Every pass of every run leaves what a sweep under one lock would have left. */
  ghost predicate SweepsAreExact(cfg: Config)
  {
    forall start: int, blacklist: set<string>, steps: seq<Step>, st: Step ::
      Run(cfg, Initial(start, blacklist), steps)
      && Allowed(cfg, End(cfg, Initial(start, blacklist), steps), st)
      && EndsPass(End(cfg, Initial(start, blacklist), steps), st)
      ==> var s := End(cfg, Initial(start, blacklist), steps);
          Next(cfg, s, st).shared.sessions == OneLockSweep(s.shared.sessions, s.cleaner.now, cfg.timeout)
  }

  /** Whatever is created, refreshed, removed or shut down between scan and erase, each pass
      removes exactly the sessions then in the table that are expired at its `now`, and logs
      one TIMEOUT for each. */
  lemma SweepRefinesOneLock(cfg: Config, start: int, blacklist: set<string>, steps: seq<Step>, st: Step)
    requires cfg.timeout > 0
    requires Run(cfg, Initial(start, blacklist), steps)
    requires Allowed(cfg, End(cfg, Initial(start, blacklist), steps), st)
    requires EndsPass(End(cfg, Initial(start, blacklist), steps), st)
    ensures var s := End(cfg, Initial(start, blacklist), steps);
            var s' := Next(cfg, s, st);
            && s'.shared.sessions == OneLockSweep(s.shared.sessions, s.cleaner.now, cfg.timeout)
            && TimeoutsFor(s.shared.log, s'.shared.log, s.shared.sessions.Keys - s'.shared.sessions.Keys, st.at)
  {
    RunKeepsSweepOk(cfg, Initial(start, blacklist), steps);
    PassIsExact(cfg, End(cfg, Initial(start, blacklist), steps), st);
  }

  /** A pass that scans a table holding only x, whose session expires at once. */
  lemma ScanRun(cfg: Config, s: State, x: string) returns (steps: seq<Step>)
    requires cfg.timeout == 0 && s.cleaner == Asleep(s.clock)
    requires s.shared.sessions.Keys == {x} && s.shared.sessions[x].lastActivity == s.clock
    ensures Run(cfg, s, steps) && End(cfg, s, steps) == s.(cleaner := Erasing(s.clock, [x]))
  {
    var t := s.clock;
    steps := [];
    RunSnoc(cfg, s, steps, Step(t, Sample));
    steps := steps + [Step(t, Sample)];
    RunSnoc(cfg, s, steps, Step(t, BeginScan));
    steps := steps + [Step(t, BeginScan)];
    RunSnoc(cfg, s, steps, Step(t, ScanOne(x)));
    steps := steps + [Step(t, ScanOne(x))];
    assert {} + {x} == {x} && [] + [x] == [x];
    assert End(cfg, s, steps) == s.(cleaner := Scanning(t, {x}, [x]));
    RunSnoc(cfg, s, steps, Step(t, EndScan));
    steps := steps + [Step(t, EndScan)];
  }

  /** A pass has listed "1" and not yet erased it; "2" is created at the same instant. */
  lemma LateRun(cfg: Config) returns (steps: seq<Step>)
    requires cfg.timeout == 0
    ensures Run(cfg, Initial(0, {}), steps)
    ensures var s, info := End(cfg, Initial(0, {}), steps), (x: string) => SessionInfo(x, 0, 0);
            && s.shared.sessions == map["1" := info("1"), "2" := info("2")]
            && s.cleaner == Erasing(0, ["1"]) && s.clock == 0
  {
    var s0 := Initial(0, {});
    CreateRun(cfg, s0, "1", 0);
    var s1 := AfterCreate(s0, "1", 0);
    var scan := ScanRun(cfg, s1, "1");
    RunConcat(cfg, s0, CreateSteps("1", 0), scan);
    var s2 := s1.(cleaner := Erasing(0, ["1"]));
    CreateRun(cfg, s2, "2", 0);
    steps := CreateSteps("1", 0) + scan;
    RunConcat(cfg, s0, steps, CreateSteps("2", 0));
    steps := steps + CreateSteps("2", 0);
    assert End(cfg, s0, steps) == AfterCreate(s2, "2", 0);
  }

  /** A zero timeout breaks it: a session created after the scan, at the very instant of the
      pass, is expired yet survives. */
  lemma ZeroTimeoutMissesOne(cfg: Config)
    requires cfg.timeout == 0
    ensures !SweepsAreExact(cfg)
  {
    var steps := LateRun(cfg);
    var s, st := End(cfg, Initial(0, {}), steps), Step(0, Sweep([0]));
    SweepStepErases(cfg, s, st);
    assert "2" in Next(cfg, s, st).shared.sessions;
    assert "2" !in OneLockSweep(s.shared.sessions, 0, 0);
  }

  /** The optimistic sweep is exact in all runs if and only if the timeout is positive. */
  lemma SweepExactIffTimeoutPositive(cfg: Config)
    ensures SweepsAreExact(cfg) <==> cfg.timeout > 0
  {
    if cfg.timeout == 0 {
      ZeroTimeoutMissesOne(cfg);
    } else {
      forall start: int, blacklist: set<string>, steps: seq<Step>, st: Step |
        && Run(cfg, Initial(start, blacklist), steps)
        && Allowed(cfg, End(cfg, Initial(start, blacklist), steps), st)
        && EndsPass(End(cfg, Initial(start, blacklist), steps), st)
        ensures var s := End(cfg, Initial(start, blacklist), steps);
                Next(cfg, s, st).shared.sessions == OneLockSweep(s.shared.sessions, s.cleaner.now, cfg.timeout)
      {
        SweepRefinesOneLock(cfg, start, blacklist, steps, st);
      }
    }
  }

  // ------------------------------------------------------------------- the two-sided idle bound

  /** Each pass of the run samples `now` at most `gap` after the pass before it (the first: after
      the start). */
  predicate Paced(cfg: Config, s: State, steps: seq<Step>, gap: nat)
    requires Run(cfg, s, steps)
    decreases |steps|
  {
    steps != [] ==>
      && (steps[0].act.Sample? ==> steps[0].at <= s.lastPass + gap)
      && Paced(cfg, Next(cfg, s, steps[0]), steps[1..], gap)
  }

  predicate PaceOk(s: State, gap: nat) { !s.cleaner.Asleep? ==> PassTime(s.cleaner) <= s.lastPass + gap }

  lemma {:induction false} RunKeepsPace(cfg: Config, s: State, steps: seq<Step>, gap: nat)
    requires PaceOk(s, gap) && Run(cfg, s, steps) && Paced(cfg, s, steps, gap)
    ensures PaceOk(End(cfg, s, steps), gap)
    decreases |steps|
  {
    if steps != [] {
      var s' := Next(cfg, s, steps[0]);
      assert PaceOk(s', gap);
      RunKeepsPace(cfg, s', steps[1..], gap);
    }
  }

  /** The step creates or refreshes the session of x. */
  predicate Touches(s: State, st: Step, x: string)
  {
    match st.act
    case Update(c, _, _) => c in s.calls && s.calls[c] == x
    case Refresh(y) => y == x && x in s.shared.sessions
    case _ => false
  }

  /** If x has a session, it was last stamped at t or later. */
  predicate StampedSince(s: State, x: string, t: int)
  {
    t <= s.clock && (x in s.shared.sessions ==> t <= s.shared.sessions[x].lastActivity)
  }

  lemma StepKeepsStamp(cfg: Config, s: State, st: Step, x: string, t: int)
    requires Allowed(cfg, s, st)
    requires StampedSince(s, x, t) || (Touches(s, st, x) && t == st.at)
    ensures StampedSince(Next(cfg, s, st), x, t)
  {
    if st.act.Sweep? {
      SweepStepErases(cfg, s, st);
    }
  }

  lemma {:induction false} RunKeepsStamp(cfg: Config, s: State, steps: seq<Step>, x: string, t: int)
    requires StampedSince(s, x, t) && Run(cfg, s, steps)
    ensures StampedSince(End(cfg, s, steps), x, t)
    decreases |steps|
  {
    if steps != [] {
      StepKeepsStamp(cfg, s, steps[0], x, t);
      RunKeepsStamp(cfg, Next(cfg, s, steps[0]), steps[1..], x, t);
    }
  }

  /** A session in the table carries a stamp no older than any touch of it in the run. */
  lemma LastTouchIsOnRecord(cfg: Config, s: State, steps: seq<Step>, i: nat, x: string)
    requires Run(cfg, s, steps) && i < |steps|
    requires Run(cfg, s, steps[..i]) && Touches(End(cfg, s, steps[..i]), steps[i], x)
    ensures StampedSince(End(cfg, s, steps), x, steps[i].at)
  {
    RunPrefix(cfg, s, steps, i);
    var mid := End(cfg, s, steps[..i]);
    assert steps[i..][0] == steps[i] && steps[i..][1..] == steps[i + 1..];
    StepKeepsStamp(cfg, mid, steps[i], x, steps[i].at);
    RunKeepsStamp(cfg, Next(cfg, mid, steps[i]), steps[i + 1..], x, steps[i].at);
  }

  /** Every session a pass times out had been idle for at least the timeout and less than the
      timeout plus the gap, and no create or refresh of it, even one racing with the pass, came
      after now - timeout. */
  lemma IdleBound(cfg: Config, start: int, blacklist: set<string>, steps: seq<Step>, st: Step, gap: nat, x: string)
    requires cfg.timeout > 0
    requires Run(cfg, Initial(start, blacklist), steps) && Paced(cfg, Initial(start, blacklist), steps, gap)
    requires Allowed(cfg, End(cfg, Initial(start, blacklist), steps), st) && st.act.Sweep?
    requires x in End(cfg, Initial(start, blacklist), steps).shared.sessions
    requires x !in Next(cfg, End(cfg, Initial(start, blacklist), steps), st).shared.sessions
    ensures var s := End(cfg, Initial(start, blacklist), steps);
            cfg.timeout <= s.cleaner.now - s.shared.sessions[x].lastActivity < cfg.timeout + gap
    ensures var now := End(cfg, Initial(start, blacklist), steps).cleaner.now;
            forall i :: 0 <= i < |steps| && Run(cfg, Initial(start, blacklist), steps[..i])
                        && Touches(End(cfg, Initial(start, blacklist), steps[..i]), steps[i], x)
                        ==> steps[i].at <= now - cfg.timeout
  {
    var s0 := Initial(start, blacklist);
    var s := End(cfg, s0, steps);
    RunKeepsSweepOk(cfg, s0, steps);
    PassIsExact(cfg, s, st);
    RunKeepsPace(cfg, s0, steps, gap);
    forall i | 0 <= i < |steps| && Run(cfg, s0, steps[..i]) && Touches(End(cfg, s0, steps[..i]), steps[i], x)
      ensures steps[i].at <= s.cleaner.now - cfg.timeout
    {
      LastTouchIsOnRecord(cfg, s0, steps, i, x);
    }
  }

  // ------------------------------------------------------------------------- whose stamp it is

  /** What one step does to the session of x, if there is one afterwards. */
  lemma StepStamps(cfg: Config, s: State, st: Step, x: string)
    requires Allowed(cfg, s, st) && x in Next(cfg, s, st).shared.sessions
    ensures var info := Next(cfg, s, st).shared.sessions[x];
            && (if Touches(s, st, x) then info.lastActivity == st.at
                else x in s.shared.sessions && info == s.shared.sessions[x])
            && (if x in s.shared.sessions then info.createdAt == s.shared.sessions[x].createdAt
                else Touches(s, st, x) && st.act.Update? && info.createdAt == st.act.created)
  {
    if st.act.Sweep? { SweepStepErases(cfg, s, st); }
  }

  /** Step i of the run created or refreshed the session of x. */
  predicate TouchedAt(cfg: Config, s: State, steps: seq<Step>, i: nat, x: string)
  {
    i < |steps| && Run(cfg, s, steps[..i]) && Touches(End(cfg, s, steps[..i]), steps[i], x)
  }

  /** Step i of the run created the session of x, which has been there ever since. */
  ghost predicate BornAt(cfg: Config, s: State, steps: seq<Step>, i: nat, x: string)
  {
    && TouchedAt(cfg, s, steps, i, x) && steps[i].act.Update? && x !in End(cfg, s, steps[..i]).shared.sessions
    && forall j :: i < j <= |steps| && Run(cfg, s, steps[..j]) ==> x in End(cfg, s, steps[..j]).shared.sessions
  }

  lemma BornStays(cfg: Config, s: State, steps: seq<Step>, i: nat, x: string)
    requires Run(cfg, s, steps) && steps != [] && x in End(cfg, s, steps).shared.sessions
    requires Run(cfg, s, steps[..|steps| - 1]) && BornAt(cfg, s, steps[..|steps| - 1], i, x)
    ensures BornAt(cfg, s, steps, i, x)
  {
    var rest := steps[..|steps| - 1];
    assert steps[..i] == rest[..i];
    forall j | i < j <= |steps| && Run(cfg, s, steps[..j]) ensures x in End(cfg, s, steps[..j]).shared.sessions {
      if j <= |rest| { assert steps[..j] == rest[..j]; } else { assert steps[..j] == steps; }
    }
  }

  lemma BornNow(cfg: Config, s: State, steps: seq<Step>, x: string)
    requires Run(cfg, s, steps) && steps != [] && x in End(cfg, s, steps).shared.sessions
    requires TouchedAt(cfg, s, steps, |steps| - 1, x) && steps[|steps| - 1].act.Update?
    requires x !in End(cfg, s, steps[..|steps| - 1]).shared.sessions
    ensures BornAt(cfg, s, steps, |steps| - 1, x)
  {
    forall j | |steps| - 1 < j <= |steps| && Run(cfg, s, steps[..j])
      ensures x in End(cfg, s, steps[..j]).shared.sessions
    {
      assert steps[..j] == steps;
    }
  }

  /** A live session carries the clock readings of its own steps and of nobody else's: it was
      created by a step of the run, when createdAt says, and has been there since; and it was last
      created or refreshed by a step of the run at lastActivity, no touch of it being later. */
  lemma {:induction false} StampsAreItsOwn(cfg: Config, start: int, blacklist: set<string>, steps: seq<Step>, x: string)
    returns (born: nat, last: nat)
    requires Run(cfg, Initial(start, blacklist), steps)
    requires x in End(cfg, Initial(start, blacklist), steps).shared.sessions
    ensures var s0 := Initial(start, blacklist);
            var info := End(cfg, s0, steps).shared.sessions[x];
            && BornAt(cfg, s0, steps, born, x) && steps[born].act.created == info.createdAt
            && TouchedAt(cfg, s0, steps, last, x) && steps[last].at == info.lastActivity
            && forall i: nat :: TouchedAt(cfg, s0, steps, i, x) ==> steps[i].at <= info.lastActivity
    decreases |steps|
  {
    var s0, n := Initial(start, blacklist), |steps| - 1;
    var rest, st := steps[..n], steps[n];
    RunUnsnoc(cfg, s0, steps);
    var mid := End(cfg, s0, rest);
    StepStamps(cfg, mid, st, x);
    born, last := n, n;
    if x in mid.shared.sessions {
      born, last := StampsAreItsOwn(cfg, start, blacklist, rest, x);
      BornStays(cfg, s0, steps, born, x);
      assert steps[..last] == rest[..last];
      if Touches(mid, st, x) { last := n; }
    } else {
      BornNow(cfg, s0, steps, x);
    }
    forall i: nat | TouchedAt(cfg, s0, steps, i, x)
      ensures steps[i].at <= End(cfg, s0, steps).shared.sessions[x].lastActivity
    {
      LastTouchIsOnRecord(cfg, s0, steps, i, x);
    }
  }

  // ------------------------------------------------------------------------- the pace of the passes

  /** If t was the last sample, the next is a second away or more. */
  predicate SleepOk(s: State, t: int)
  {
    t <= s.clock && (s.cleaner.Asleep? ==> t + SECOND <= s.cleaner.until)
  }

  lemma {:induction false} RunKeepsSleep(cfg: Config, s: State, steps: seq<Step>, t: int)
    requires SleepOk(s, t) && Run(cfg, s, steps)
    ensures SleepOk(End(cfg, s, steps), t)
    decreases |steps|
  {
    if steps != [] {
      var s' := Next(cfg, s, steps[0]);
      assert SleepOk(s', t);
      RunKeepsSleep(cfg, s', steps[1..], t);
    }
  }

  /** Between one pass and the next the thread sleeps a second: so successive passes sample `now`
      at least a second apart. */
  lemma PassesAreSpaced(cfg: Config, s: State, steps: seq<Step>, i: nat, j: nat)
    requires Run(cfg, s, steps) && i < j < |steps|
    requires steps[i].act.Sample? && steps[j].act.Sample?
    ensures steps[i].at + SECOND <= steps[j].at
  {
    RunPrefix(cfg, s, steps, j);
    var upto := steps[..j];
    RunPrefix(cfg, s, upto, i);
    var before := End(cfg, s, upto[..i]);
    assert upto[i..][0] == steps[i] && upto[i..][1..] == upto[i + 1..];
    RunKeepsSleep(cfg, Next(cfg, before, steps[i]), upto[i + 1..], steps[i].at);
    assert steps[j..][0] == steps[j];
  }

  /** Step i took the sample of the pass in progress. */
  predicate LastSample(steps: seq<Step>, i: nat)
  {
    i < |steps| && steps[i].act.Sample? && forall j :: i < j < |steps| ==> !steps[j].act.Sample?
  }

  /** The `now` by which a pass decides, from its start to its end, is the clock at its sample. */
  lemma {:induction false} PassUsesItsSample(cfg: Config, start: int, blacklist: set<string>, steps: seq<Step>)
    returns (i: nat)
    requires Run(cfg, Initial(start, blacklist), steps) && !End(cfg, Initial(start, blacklist), steps).cleaner.Asleep?
    ensures LastSample(steps, i) && steps[i].at == PassTime(End(cfg, Initial(start, blacklist), steps).cleaner)
    decreases |steps|
  {
    var s0, n := Initial(start, blacklist), |steps| - 1;
    RunUnsnoc(cfg, s0, steps);
    if steps[n].act.Sample? {
      i := n;
    } else {
      i := PassUsesItsSample(cfg, start, blacklist, steps[..n]);
    }
  }

  /** So, with a positive timeout, once a pass has ended every session left was created or
      refreshed less than the timeout before the pass began. */
  lemma PassLeavesFresh(cfg: Config, start: int, blacklist: set<string>, steps: seq<Step>, st: Step) returns (i: nat)
    requires cfg.timeout > 0
    requires Run(cfg, Initial(start, blacklist), steps)
    requires Allowed(cfg, End(cfg, Initial(start, blacklist), steps), st)
    requires EndsPass(End(cfg, Initial(start, blacklist), steps), st)
    ensures LastSample(steps, i)
    ensures var t := Next(cfg, End(cfg, Initial(start, blacklist), steps), st).shared.sessions;
            forall x :: x in t ==> steps[i].at - cfg.timeout < t[x].lastActivity
  {
    i := PassUsesItsSample(cfg, start, blacklist, steps);
    SweepRefinesOneLock(cfg, start, blacklist, steps, st);
  }

  // ------------------------------------------------------------------------- sessions do time out

  predicate CleanerAct(act: Act) { act.Sample? || act.BeginScan? || act.ScanOne? || act.EndScan? || act.Sweep? }

  predicate CleanerOnly(steps: seq<Step>) { forall i :: 0 <= i < |steps| ==> CleanerAct(steps[i].act) }

  /** The thread sleeps no longer than a second. */
  predicate WakesSoon(s: State) { s.cleaner.Asleep? ==> s.cleaner.until <= s.clock + SECOND }

  lemma {:induction false} RunKeepsWaking(cfg: Config, s: State, steps: seq<Step>)
    requires WakesSoon(s) && Run(cfg, s, steps)
    ensures WakesSoon(End(cfg, s, steps))
    decreases |steps|
  {
    if steps != [] {
      assert WakesSoon(Next(cfg, s, steps[0]));
      RunKeepsWaking(cfg, Next(cfg, s, steps[0]), steps[1..]);
    }
  }

  lemma {:induction false} CleanerKeepsEntries(cfg: Config, s: State, steps: seq<Step>)
    requires Run(cfg, s, steps) && CleanerOnly(steps)
    ensures var t := End(cfg, s, steps).shared.sessions;
            forall x :: x in t ==> x in s.shared.sessions && t[x] == s.shared.sessions[x]
    decreases |steps|
  {
    if steps != [] {
      assert CleanerAct(steps[0].act);
      if steps[0].act.Sweep? { SweepStepErases(cfg, s, steps[0]); }
      assert forall i :: 0 <= i < |steps[1..]| ==> steps[1..][i] == steps[i + 1];
      CleanerKeepsEntries(cfg, Next(cfg, s, steps[0]), steps[1..]);
    }
  }

  function Stage(c: Cleaner): nat
  {
    match c
    case Asleep(_) => 0
    case Erasing(_, _) => 1
    case Scanning(_, _, _) => 2
    case Sampled(_) => 3
  }

  /** The next step of the pass in progress. */
  lemma NextOfPass(cfg: Config, s: State) returns (st: Step)
    requires ScanOk(s) && !s.cleaner.Asleep?
    ensures st.at == s.clock && CleanerAct(st.act) && !st.act.Sample? && Allowed(cfg, s, st)
    ensures var s' := Next(cfg, s, st);
            && PassTime(s.cleaner) == (if s'.cleaner.Asleep? then s'.lastPass else PassTime(s'.cleaner))
            && (Stage(s'.cleaner) < Stage(s.cleaner)
                || (st.act.ScanOne? && s'.shared.sessions == s.shared.sessions && s'.cleaner.seen > s.cleaner.seen))
  {
    match s.cleaner
    case Sampled(_) => st := Step(s.clock, BeginScan);
    case Erasing(_, list) => st := Step(s.clock, Sweep(seq(|list|, _ => 0)));
    case Scanning(_, seen, _) =>
      if k :| k in s.shared.sessions.Keys - seen {
        st := Step(s.clock, ScanOne(k));
        assert seen + {k} > seen;
      } else {
        assert forall k :: k in s.shared.sessions.Keys ==> k in seen || k in s.shared.sessions.Keys - seen;
        st := Step(s.clock, EndScan);
      }
  }

  /** A pass in progress can be brought to its end by the thread alone, and at once. */
  lemma {:induction false} FinishPass(cfg: Config, s: State) returns (steps: seq<Step>)
    requires ScanOk(s) && !s.cleaner.Asleep?
    ensures Run(cfg, s, steps) && CleanerOnly(steps)
    ensures var s' := End(cfg, s, steps);
            s'.cleaner.Asleep? && s'.lastPass == PassTime(s.cleaner) && s'.clock == s.clock
    decreases Stage(s.cleaner), if s.cleaner.Scanning? then s.shared.sessions.Keys - s.cleaner.seen else {}
  {
    var st := NextOfPass(cfg, s);
    var s' := Next(cfg, s, st);
    StepKeepsScanOk(cfg, s, st);
    var rest: seq<Step> := [];
    if !s'.cleaner.Asleep? {
      if st.act.ScanOne? {
        assert st.act.imsi in s.shared.sessions.Keys - s.cleaner.seen;
        assert s'.shared.sessions.Keys - s'.cleaner.seen < s.shared.sessions.Keys - s.cleaner.seen;
      }
      rest := FinishPass(cfg, s');
    } else {
      assert Run(cfg, s', rest) && End(cfg, s', rest) == s';
    }
    steps := [st] + rest;
    assert steps[1..] == rest;
  }

  /** Asleep until this, the thread can wake then or later, and make a pass. */
  lemma WholePass(cfg: Config, s: State, at: int) returns (steps: seq<Step>)
    requires ScanOk(s) && s.cleaner.Asleep? && s.clock <= at && s.cleaner.until <= at
    ensures Run(cfg, s, steps) && CleanerOnly(steps)
    ensures End(cfg, s, steps).lastPass == at && End(cfg, s, steps).clock == at
  {
    var st := Step(at, Sample);
    var rest := FinishPass(cfg, Next(cfg, s, st));
    steps := [st] + rest;
    assert steps[1..] == rest;
  }

  /** From any state, what is going on is finished and one more pass made, at or after `from`. */
  lemma PassFrom(cfg: Config, s: State, from: int) returns (steps: seq<Step>)
    requires ScanOk(s) && WakesSoon(s)
    ensures Run(cfg, s, steps) && CleanerOnly(steps)
    ensures var s' := End(cfg, s, steps);
            from <= s'.lastPass == s'.clock && (s'.clock <= from || s'.clock <= s.clock + SECOND)
  {
    steps := [];
    if !s.cleaner.Asleep? { steps := FinishPass(cfg, s); }
    RunKeepsScanOk(cfg, s, steps);
    RunKeepsWaking(cfg, s, steps);
    var s1 := End(cfg, s, steps);
    var at := if s1.clock < s1.cleaner.until then s1.cleaner.until else s1.clock;
    var more := WholePass(cfg, s1, if at < from then from else at);
    RunConcat(cfg, s, steps, more);
    steps := steps + more;
  }

  /** Whatever the state, every session can time out by the work of the cleanup thread alone, within
      the timeout or a second, whichever is longer. */
  lemma SessionCanTimeOut(cfg: Config, start: int, blacklist: set<string>, before: seq<Step>, x: string)
    returns (steps: seq<Step>)
    requires cfg.timeout > 0 && Run(cfg, Initial(start, blacklist), before)
    ensures var s := End(cfg, Initial(start, blacklist), before);
            && Run(cfg, s, steps) && CleanerOnly(steps)
            && x !in End(cfg, s, steps).shared.sessions
            && End(cfg, s, steps).clock <= s.clock + if cfg.timeout < SECOND then SECOND else cfg.timeout
  {
    var s := End(cfg, Initial(start, blacklist), before);
    RunKeepsScanOk(cfg, Initial(start, blacklist), before);
    RunKeepsWaking(cfg, Initial(start, blacklist), before);
    RunKeepsSweepOk(cfg, Initial(start, blacklist), before);
    RunKeepsTableOk(cfg, Initial(start, blacklist), before);
    var from := if x in s.shared.sessions then s.shared.sessions[x].lastActivity + cfg.timeout else s.clock;
    steps := PassFrom(cfg, s, from);
    assert x in s.shared.sessions ==> SessionOk(x, s.shared.sessions[x], s.clock);
    RunKeepsSweepOk(cfg, s, steps);
    CleanerKeepsEntries(cfg, s, steps);
  }
}
