/** The session manager as a step machine: create_session callers, the cleanup thread, the
    graceful-shutdown thread and the remaining public operations share one table and one
    blacklist. A step is one critical section, or one turn of the scan, which runs under the
    shared lock and so may race with activity updates. Every interleaving is a run. */
module Machine {
  import opened Imsi
  import opened Sessions

  const MILLISECOND: int := 1_000_000
  const SECOND: int := 1_000_000_000

  type positive = n: nat | n > 0 witness 1

  /** session_timeout_ in nanoseconds, and shutdown_rate_ in sessions per second
      (a rate of 0 would divide by zero). */
  datatype Config = Config(timeout: nat, rate: positive) {
    /** The rate-limiting pause: whole milliseconds, by integer division. */
    function Pause(): nat { 1000 / rate * MILLISECOND }
  }

  /** Where cleanup_thread is: asleep, with `now` sampled, walking the table under the shared
      lock, or about to erase. */
  datatype Cleaner =
    | Asleep(until: int)
    | Sampled(now: int)
    | Scanning(now: int, seen: set<string>, list: seq<string>)
    | Erasing(now: int, list: seq<string>)

  /** Where graceful_shutdown_thread is. */
  datatype Reaper = NotStarted | Choosing | Chosen(victim: string) | Pausing(since: int) | Finished

  /** `calls` holds the IMSI of each create_session call that has passed the blacklist check
      and not yet reached the table; `lastPass` the `now` of the last complete cleanup pass. */
  datatype State = State(clock: int, shared: Shared, calls: map<nat, string>, cleaner: Cleaner, reaper: Reaper,
                         lastPass: int)

  datatype Act =
    | Check(call: nat, imsi: string, wall: int)
    | Update(call: nat, created: int, wall: int)
    | Remove(imsi: string)
    | Refresh(imsi: string)
    | Ban(imsi: string)
    | Unban(imsi: string)
    | Sample
    | BeginScan
    | ScanOne(imsi: string)
    | EndScan
    | Sweep(walls: seq<int>)
    | StartShutdown
    | Choose(victim: string)
    | FindEmpty
    | Reap(wall: int)
    | EndPause

  /** `at` is the steady-clock reading the step makes. */
  datatype Step = Step(at: int, act: Act)

  function Initial(start: int, blacklist: set<string>): State
  {
    State(start, Shared(map[], blacklist, false, []), map[], Asleep(start), NotStarted, start)
  }

  /** The scan holds sessions_mutex_ shared, which keeps every writer of the table out. */
  predicate Enabled(s: State, st: Step)
  {
    && s.clock <= st.at
    && match st.act
       case Check(c, _, _) => c !in s.calls
       case Update(c, created, _) => c in s.calls && !s.cleaner.Scanning? && s.clock <= created <= st.at
       case Remove(_) => !s.cleaner.Scanning?
       case Refresh(_) => true
       case Ban(_) => true
       case Unban(_) => true
       case Sample => s.cleaner.Asleep? && s.cleaner.until <= st.at
       case BeginScan => s.cleaner.Sampled?
       case ScanOne(k) => s.cleaner.Scanning? && k in s.shared.sessions && k !in s.cleaner.seen
       case EndScan => s.cleaner.Scanning? && s.cleaner.seen == s.shared.sessions.Keys
       case Sweep(walls) => s.cleaner.Erasing? && |walls| == |s.cleaner.list|
       case StartShutdown => s.reaper.NotStarted?
       case Choose(v) => s.reaper.Choosing? && v in s.shared.sessions
       case FindEmpty => s.reaper.Choosing? && s.shared.sessions == map[]
       case Reap(_) => s.reaper.Chosen? && !s.cleaner.Scanning?
       case EndPause => s.reaper.Pausing?
  }

  /** EndPause also needs the pause to be over, which depends on the configured rate. */
  predicate Allowed(cfg: Config, s: State, st: Step)
  {
    Enabled(s, st) && (st.act.EndPause? ==> s.reaper.since + cfg.Pause() <= st.at)
  }

  function Rest(s: State, at: int, now: int): State { s.(cleaner := Asleep(at + SECOND), lastPass := now) }

  function Next(cfg: Config, s0: State, st: Step): State
    requires Allowed(cfg, s0, st)
  {
    var s := s0.(clock := st.at);
    match st.act
    case Check(c, imsi, wall) =>
      var (sh, passed) := CheckSection(s.shared, imsi, st.at, wall);
      s.(shared := sh, calls := if passed then s.calls[c := imsi] else s.calls)
    case Update(c, created, wall) =>
      s.(shared := UpdateSection(s.shared, s.calls[c], created, st.at, wall).0, calls := s.calls - {c})
    case Remove(imsi) => s.(shared := RemoveSection(s.shared, imsi, st.at))
    case Refresh(imsi) => s.(shared := RefreshSection(s.shared, imsi, st.at))
    case Ban(imsi) => s.(shared := s.shared.(blacklist := s.shared.blacklist + {imsi}))
    case Unban(imsi) => s.(shared := s.shared.(blacklist := s.shared.blacklist - {imsi}))
    case Sample => s.(cleaner := Sampled(st.at))
    case BeginScan => s.(cleaner := Scanning(s.cleaner.now, {}, []))
    case ScanOne(k) =>
      var c := s.cleaner;
      var more := if Expired(s.shared.sessions[k], c.now, cfg.timeout) then [k] else [];
      s.(cleaner := Scanning(c.now, c.seen + {k}, c.list + more))
    case EndScan =>
      if s.cleaner.list == [] then Rest(s, st.at, s.cleaner.now)
      else s.(cleaner := Erasing(s.cleaner.now, s.cleaner.list))
    case Sweep(walls) =>
      var c := s.cleaner;
      var sh := SweepSection(s.shared, c.list, |c.list|, c.now, cfg.timeout, st.at, walls);
      Rest(s, st.at, c.now).(shared := sh)
    case StartShutdown => s.(reaper := Choosing, shared := s.shared.(active := true))
    case Choose(v) => s.(reaper := if v == "" then Choosing else Chosen(v))
    case FindEmpty => s.(reaper := Finished, shared := s.shared.(active := false))
    case Reap(wall) => s.(shared := ReapSection(s.shared, s.reaper.victim, st.at, wall), reaper := Pausing(st.at))
    case EndPause => s.(reaper := Choosing)
  }

  /** The steps, in order, are all allowed from s. */
  predicate Run(cfg: Config, s: State, steps: seq<Step>)
    decreases |steps|
  {
    steps == [] || (Allowed(cfg, s, steps[0]) && Run(cfg, Next(cfg, s, steps[0]), steps[1..]))
  }

  /** The state the run ends in. */
  function End(cfg: Config, s: State, steps: seq<Step>): State
    requires Run(cfg, s, steps)
    decreases |steps|
  {
    if steps == [] then s else End(cfg, Next(cfg, s, steps[0]), steps[1..])
  }

  lemma {:induction false} RunPrefix(cfg: Config, s: State, steps: seq<Step>, n: nat)
    requires Run(cfg, s, steps) && n <= |steps|
    ensures Run(cfg, s, steps[..n])
    ensures Run(cfg, End(cfg, s, steps[..n]), steps[n..])
    ensures End(cfg, End(cfg, s, steps[..n]), steps[n..]) == End(cfg, s, steps)
    decreases n
  {
    if n == 0 {
      assert steps[..0] == [] && steps[0..] == steps;
    } else {
      var rest, s' := steps[1..], Next(cfg, s, steps[0]);
      RunPrefix(cfg, s', rest, n - 1);
      assert steps[..n][1..] == rest[..n - 1] && steps[n..] == rest[n - 1..];
    }
  }

  lemma {:induction false} RunConcat(cfg: Config, s: State, a: seq<Step>, b: seq<Step>)
    requires Run(cfg, s, a) && Run(cfg, End(cfg, s, a), b)
    ensures Run(cfg, s, a + b)
    ensures End(cfg, s, a + b) == End(cfg, End(cfg, s, a), b)
    decreases |a|
  {
    if a == [] {
      assert a + b == b;
    } else {
      RunConcat(cfg, Next(cfg, s, a[0]), a[1..], b);
      assert (a + b)[1..] == a[1..] + b;
    }
  }

  lemma RunUnsnoc(cfg: Config, s: State, steps: seq<Step>)
    requires Run(cfg, s, steps) && steps != []
    ensures Run(cfg, s, steps[..|steps| - 1])
    ensures Allowed(cfg, End(cfg, s, steps[..|steps| - 1]), steps[|steps| - 1])
    ensures End(cfg, s, steps) == Next(cfg, End(cfg, s, steps[..|steps| - 1]), steps[|steps| - 1])
  {
    var n := |steps| - 1;
    RunPrefix(cfg, s, steps, n);
    assert steps[n..] == [steps[n]] && [steps[n]][1..] == [];
  }

  lemma RunSnoc(cfg: Config, s: State, steps: seq<Step>, st: Step)
    requires Run(cfg, s, steps) && Allowed(cfg, End(cfg, s, steps), st)
    ensures Run(cfg, s, steps + [st])
    ensures End(cfg, s, steps + [st]) == Next(cfg, End(cfg, s, steps), st)
  {
    assert [st][1..] == [];
    RunConcat(cfg, s, steps, [st]);
  }

  /** The two steps of an undisturbed create_session call for a fresh IMSI. */
  function CreateSteps(imsi: string, at: int): seq<Step>
  {
    [Step(at, Check(0, imsi, at)), Step(at, Update(0, at, at))]
  }

  function AfterCreate(s: State, imsi: string, at: int): State
  {
    s.(clock := at,
    shared := Emit(s.shared.(sessions := s.shared.sessions[imsi := SessionInfo(imsi, at, at)]), imsi, CREATED, at, at))
  }

  lemma CreateRun(cfg: Config, s: State, imsi: string, at: int)
    requires s.calls == map[] && !s.cleaner.Scanning? && s.clock <= at
    requires ValidImsi(imsi) && imsi !in s.shared.blacklist && imsi !in s.shared.sessions
    ensures Run(cfg, s, CreateSteps(imsi, at))
    ensures End(cfg, s, CreateSteps(imsi, at)) == AfterCreate(s, imsi, at)
  {
    var steps := CreateSteps(imsi, at);
    var s1 := Next(cfg, s, steps[0]);
    assert s1 == s.(clock := at, calls := map[0 := imsi]);
    assert s1.calls - {0} == map[];
    assert Next(cfg, s1, steps[1]) == AfterCreate(s, imsi, at);
    assert Run(cfg, s, []);
    RunSnoc(cfg, s, [], steps[0]);
    RunSnoc(cfg, s, [steps[0]], steps[1]);
    assert [] + [steps[0]] == [steps[0]];
    assert [steps[0]] + [steps[1]] == steps;
  }

  /** What the erasing step of a cleanup pass does: the listed sessions that are expired on the
      re-check go, each with one TIMEOUT, and nothing else changes. */
  lemma SweepStepErases(cfg: Config, s: State, st: Step)
    requires Allowed(cfg, s, st) && st.act.Sweep?
    ensures var c, sh, sh' := s.cleaner, s.shared, Next(cfg, s, st).shared;
            && sh' == sh.(sessions := sh'.sessions, log := sh'.log)
            && sh'.sessions
               == (map k | k in sh.sessions && !(k in c.list && Expired(sh.sessions[k], c.now, cfg.timeout))
                   :: sh.sessions[k])
            && sh'.sessions.Keys <= sh.sessions.Keys
            && TimeoutsFor(sh.log, sh'.log, sh.sessions.Keys - sh'.sessions.Keys, st.at)
            && TimedBy(sh.log, sh'.log, c.list, |c.list|, st.act.walls)
  {
    var c := s.cleaner;
    SweepErasesListedExpired(s.shared, c.list, |c.list|, c.now, cfg.timeout, st.at, st.act.walls);
    assert c.list[..|c.list|] == c.list;
  }

  // ------------------------------------------------------ what every run keeps of the table

  predicate SessionOk(k: string, info: SessionInfo, clock: int)
  {
    ValidImsi(k) && info.imsi == k && info.createdAt <= info.lastActivity <= clock
  }

  /** Keys are valid IMSIs filed under their own name, stamps lie in the past, calls that
      passed the check carry valid IMSIs. */
  predicate TableOk(s: State)
  {
    && (forall k :: k in s.shared.sessions ==> SessionOk(k, s.shared.sessions[k], s.clock))
    && (forall c :: c in s.calls ==> ValidImsi(s.calls[c]))
    && (s.reaper.Chosen? ==> ValidImsi(s.reaper.victim))
  }

  lemma StepKeepsTableOk(cfg: Config, s: State, st: Step)
    requires TableOk(s) && Allowed(cfg, s, st)
    ensures TableOk(Next(cfg, s, st))
  {
    match st.act
    case Sweep(_) => SweepStepErases(cfg, s, st);
    case Update(_, _, _) =>
    case Choose(_) =>
    case _ =>
  }

  lemma {:induction false} RunKeepsTableOk(cfg: Config, s: State, steps: seq<Step>)
    requires TableOk(s) && Run(cfg, s, steps)
    ensures TableOk(End(cfg, s, steps))
    decreases |steps|
  {
    if steps != [] {
      StepKeepsTableOk(cfg, s, steps[0]);
      RunKeepsTableOk(cfg, Next(cfg, s, steps[0]), steps[1..]);
    }
  }

  /** In every reachable state. */
  lemma TableAlwaysOk(cfg: Config, start: int, blacklist: set<string>, steps: seq<Step>)
    requires Run(cfg, Initial(start, blacklist), steps)
    ensures TableOk(End(cfg, Initial(start, blacklist), steps))
  {
    RunKeepsTableOk(cfg, Initial(start, blacklist), steps);
  }

  /** The scan in progress has seen only keys of the table. */
  predicate ScanOk(s: State)
  {
    s.cleaner.Scanning? ==> s.cleaner.seen <= s.shared.sessions.Keys
  }

  lemma StepKeepsScanOk(cfg: Config, s: State, st: Step)
    requires ScanOk(s) && Allowed(cfg, s, st)
    ensures ScanOk(Next(cfg, s, st))
  {
    match st.act
    case Refresh(_) => assert Next(cfg, s, st).shared.sessions.Keys == s.shared.sessions.Keys;
    case ScanOne(k) => assert k in s.shared.sessions.Keys;
    case _ =>
  }

  lemma {:induction false} RunKeepsScanOk(cfg: Config, s: State, steps: seq<Step>)
    requires ScanOk(s) && Run(cfg, s, steps)
    ensures ScanOk(End(cfg, s, steps))
    decreases |steps|
  {
    if steps != [] {
      StepKeepsScanOk(cfg, s, steps[0]);
      RunKeepsScanOk(cfg, Next(cfg, s, steps[0]), steps[1..]);
    }
  }
}
