/** graceful_shutdown_thread (src/session_manager.cpp) as a method on the object, with the sections
    that other threads run meanwhile as a script: whom it erases, what it logs, and when it ends. */
module GracefulShutdown {
  import opened Sessions
  import opened Manager
  import opened Threads
  import opened Shutdown
  import opened History
  import M = Machine

  /** What the other threads do during each iteration: after the choice, and in the pause. */
  datatype Round = Round(afterChoice: seq<Section>, inPause: seq<Section>)

  /** The clocks: what the shutdown thread reads in its n-th iteration. */
  datatype Clocks = Clocks(at: nat -> int, wall: nat -> int)

  /** The others do nothing once their script is over. */
  function RoundAt(script: seq<Round>, n: nat): Round { if n < |script| then script[n] else Round([], []) }

  /** One iteration past the choice: what others do, the erasure, what others do in the pause. The
      victim may be long gone when its turn comes. */
  function RoundSection(sh: Shared, victim: string, round: Round, timeout: nat, at: int, wall: int): Shared
  {
    AfterScript(ReapSection(AfterScript(sh, round.afterChoice, timeout), victim, at, wall), round.inPause, timeout)
  }

  /** The state after the iterations that chose these victims. */
  function Played(sh: Shared, script: seq<Round>, victims: seq<string>, timeout: nat, clocks: Clocks): Shared
  {
    if victims == [] then sh
    else
      var n := |victims| - 1;
      RoundSection(Played(sh, script, victims[..n], timeout, clocks), victims[n], RoundAt(script, n), timeout,
                   clocks.at(n), clocks.wall(n))
  }

  /** Each victim had a session when it was chosen. */
  predicate Chosen(sh: Shared, script: seq<Round>, victims: seq<string>, timeout: nat, clocks: Clocks)
  {
    victims != [] ==>
      var n := |victims| - 1;
      && Chosen(sh, script, victims[..n], timeout, clocks)
      && victims[n] in Played(sh, script, victims[..n], timeout, clocks).sessions
  }

  // ------------------------------------------------------------------------- how long

  function InsertsFrom(script: seq<Round>, i: nat): nat
    decreases |script| - i
  {
    if i >= |script| then 0
    else InsertCount(script[i].afterChoice) + InsertCount(script[i].inPause) + InsertsFrom(script, i + 1)
  }

  lemma AfterOneRound(before: set<string>, victim: string, more: set<string>, mid: set<string>, most: set<string>,
                      later: set<string>)
    requires victim in before && mid <= before + more - {victim} && later <= mid + most
    ensures |later| < |before| + |more| + |most|
  {
    SubsetSize(later, (before - {victim}) + more + most);
    assert |(before - {victim}) + more + most| <= |(before - {victim}) + more| + |most|;
    assert |(before - {victim}) + more| <= |before - {victim}| + |more|;
  }

  /** A round takes the victim away and adds at most what the others insert. */
  lemma RoundShrinks(sh: Shared, victim: string, round: Round, timeout: nat, at: int, wall: int)
    requires ValidKeys(sh.sessions.Keys) && victim in sh.sessions
    ensures var sh' := RoundSection(sh, victim, round, timeout, at, wall);
            && ValidKeys(sh'.sessions.Keys) && sh'.active == sh.active
            && |sh'.sessions.Keys| < |sh.sessions.Keys| + InsertCount(round.afterChoice) + InsertCount(round.inPause)
  {
    ScriptKeeps(sh, round.afterChoice, timeout);
    var mid := ReapSection(AfterScript(sh, round.afterChoice, timeout), victim, at, wall);
    ScriptKeeps(mid, round.inPause, timeout);
    AfterOneRound(sh.sessions.Keys, victim, Joined(round.afterChoice), mid.sessions.Keys, Joined(round.inPause),
                  RoundSection(sh, victim, round, timeout, at, wall).sessions.Keys);
  }

  /** The measure, over any number of rounds. */
  lemma {:induction false} RoundsAreBounded(sh: Shared, script: seq<Round>, victims: seq<string>, timeout: nat,
                                            clocks: Clocks)
    requires ValidKeys(sh.sessions.Keys) && Chosen(sh, script, victims, timeout, clocks)
    ensures var sh' := Played(sh, script, victims, timeout, clocks);
            && ValidKeys(sh'.sessions.Keys) && sh'.active == sh.active
            && |victims| + |sh'.sessions.Keys| + InsertsFrom(script, |victims|)
               <= |sh.sessions.Keys| + InsertsFrom(script, 0)
  {
    if victims != [] {
      var n := |victims| - 1;
      RoundsAreBounded(sh, script, victims[..n], timeout, clocks);
      RoundShrinks(Played(sh, script, victims[..n], timeout, clocks), victims[n], RoundAt(script, n), timeout,
                   clocks.at(n), clocks.wall(n));
    }
  }

  // ------------------------------------------------------------------------- what is logged

  lemma ApplyAppends(sh: Shared, s: Section, timeout: nat)
    ensures var log := Apply(sh, s, timeout).log;
            sh.log <= log && forall i :: |sh.log| <= i < |log| ==> !log[i].Is(GRACEFUL_SHUTDOWN)
  {
    if s.Erase? {
      SweepErasesListedExpired(sh, s.list, |s.list|, s.now, timeout, s.at, seq(|s.list|, _ => s.wall));
    }
  }

  lemma ApplyKeepsHistory(sh: Shared, s: Section, timeout: nat)
    requires HistoryOk(sh)
    ensures HistoryOk(Apply(sh, s, timeout))
  {
    match s
    case Check(imsi, at, wall) => CheckKeepsHistory(sh, imsi, at, wall);
    case Insert(caller, created, at, wall) => UpdateKeepsHistory(sh, caller, created, at, wall);
    case Remove(imsi, at) => RemoveKeepsHistory(sh, imsi, at);
    case Refresh(imsi, at) => RefreshKeepsHistory(sh, imsi, at);
    case Ban(_) =>
    case Unban(_) =>
    case Erase(now, list, at, wall) =>
      SweepKeepsHistory(sh, list, |list|, now, timeout, at, seq(|list|, _ => wall));
  }

  /** Whom the history says the shutdown thread erased. */
  function ShutDown(log: seq<Entry>): seq<string>
  {
    if log == [] then []
    else ShutDown(log[..|log| - 1]) + if log[|log| - 1].Is(GRACEFUL_SHUTDOWN) then [log[|log| - 1].event.imsi] else []
  }

  lemma {:induction false} ShutDownGrows(log: seq<Entry>, longer: seq<Entry>)
    requires log <= longer && forall i :: |log| <= i < |longer| ==> !longer[i].Is(GRACEFUL_SHUTDOWN)
    ensures ShutDown(longer) == ShutDown(log)
    decreases |longer|
  {
    if longer == log {
    } else {
      ShutDownGrows(log, longer[..|longer| - 1]);
    }
  }

  /** Other threads' sections keep the history true and shut nobody down. */
  lemma {:induction false} ScriptLogs(sh: Shared, script: seq<Section>, timeout: nat)
    ensures var sh' := AfterScript(sh, script, timeout);
            && sh.log <= sh'.log && ShutDown(sh'.log) == ShutDown(sh.log)
            && (HistoryOk(sh) ==> HistoryOk(sh'))
  {
    if script != [] {
      var rest := script[..|script| - 1];
      var mid := AfterScript(sh, rest, timeout);
      ScriptLogs(sh, rest, timeout);
      ApplyAppends(mid, script[|script| - 1], timeout);
      if HistoryOk(mid) { ApplyKeepsHistory(mid, script[|script| - 1], timeout); }
      ShutDownGrows(mid.log, AfterScript(sh, script, timeout).log);
    }
  }

  lemma RoundLogs(sh: Shared, victim: string, round: Round, timeout: nat, at: int, wall: int)
    ensures var sh' := RoundSection(sh, victim, round, timeout, at, wall);
            && sh.log <= sh'.log && (HistoryOk(sh) ==> HistoryOk(sh'))
            && ShutDown(sh'.log)
               == ShutDown(sh.log)
                  + if victim in AfterScript(sh, round.afterChoice, timeout).sessions then [victim] else []
  {
    var mid := AfterScript(sh, round.afterChoice, timeout);
    var reaped := ReapSection(mid, victim, at, wall);
    ScriptLogs(sh, round.afterChoice, timeout);
    if HistoryOk(mid) { ReapKeepsHistory(mid, victim, at, wall); }
    assert reaped.log[..|mid.log|] == mid.log;
    ScriptLogs(reaped, round.inPause, timeout);
  }

  /** The victims that still had a session when their turn came. */
  function StillThere(sh: Shared, script: seq<Round>, victims: seq<string>, timeout: nat, clocks: Clocks): seq<string>
  {
    if victims == [] then []
    else
      var n := |victims| - 1;
      var before := Played(sh, script, victims[..n], timeout, clocks);
      var met := AfterScript(before, RoundAt(script, n).afterChoice, timeout);
      StillThere(sh, script, victims[..n], timeout, clocks) + if victims[n] in met.sessions then [victims[n]] else []
  }

  /** Over any number of rounds: the history stays true, and it gains one GRACEFUL_SHUTDOWN, in
      order, for each victim that still had a session, and no other. */
  lemma {:induction false} RoundsLog(sh: Shared, script: seq<Round>, victims: seq<string>, timeout: nat, clocks: Clocks)
    ensures var sh' := Played(sh, script, victims, timeout, clocks);
            && sh.log <= sh'.log && (HistoryOk(sh) ==> HistoryOk(sh'))
            && ShutDown(sh'.log) == ShutDown(sh.log) + StillThere(sh, script, victims, timeout, clocks)
  {
    if victims != [] {
      var n := |victims| - 1;
      RoundsLog(sh, script, victims[..n], timeout, clocks);
      RoundLogs(Played(sh, script, victims[..n], timeout, clocks), victims[n], RoundAt(script, n), timeout,
                clocks.at(n), clocks.wall(n));
    }
  }

  /** What an undisturbed shutdown logs: one GRACEFUL_SHUTDOWN for each victim, at its own time. */
  function Reaps(victims: seq<string>, clocks: Clocks): seq<Entry>
  {
    seq(|victims|, i requires 0 <= i < |victims| =>
      Emitted(SessionEvent(victims[i], GRACEFUL_SHUTDOWN, clocks.wall(i)), clocks.at(i)))
  }

  lemma ReapsSnoc(victims: seq<string>, v: string, clocks: Clocks)
    ensures var n := |victims|;
            Reaps(victims + [v], clocks)
            == Reaps(victims, clocks) + [Emitted(SessionEvent(v, GRACEFUL_SHUTDOWN, clocks.wall(n)), clocks.at(n))]
  {
  }

  lemma QuietRound(sh: Shared, victim: string, timeout: nat, at: int, wall: int)
    requires victim in sh.sessions
    ensures var sh' := RoundSection(sh, victim, Round([], []), timeout, at, wall);
            && sh'.log == sh.log + [Emitted(SessionEvent(victim, GRACEFUL_SHUTDOWN, wall), at)]
            && forall k :: k in sh'.sessions <==> k in sh.sessions && k != victim
  {
  }

  lemma {:induction false} QuietRounds(sh: Shared, victims: seq<string>, timeout: nat, clocks: Clocks)
    requires Chosen(sh, [], victims, timeout, clocks)
    ensures var sh' := Played(sh, [], victims, timeout, clocks);
            && sh'.log == sh.log + Reaps(victims, clocks)
            && (forall k :: k in sh'.sessions <==> k in sh.sessions && k !in victims)
            && (forall k :: k in victims ==> k in sh.sessions)
    ensures forall i, j :: 0 <= i < j < |victims| ==> victims[i] != victims[j]
  {
    if victims != [] {
      var n := |victims| - 1;
      var rest := victims[..n];
      QuietRounds(sh, rest, timeout, clocks);
      assert victims == rest + [victims[n]];
      QuietRound(Played(sh, [], rest, timeout, clocks), victims[n], timeout, clocks.at(n), clocks.wall(n));
      ReapsSnoc(rest, victims[n], clocks);
    }
  }

  lemma {:induction false} EnumerationSize(order: seq<string>, keys: set<string>)
    requires Enumerates(order, keys)
    ensures |order| == |keys|
  {
    if order == [] {
      assert keys == {};
    } else {
      var rest, last := order[..|order| - 1], order[|order| - 1];
      assert order == rest + [last];
      assert last in order && last !in rest;
      EnumerationSize(rest, keys - {last});
    }
  }

  /** Undisturbed, the thread erases every session, once each, and does nothing else. */
  lemma QuietShutdown(sh: Shared, victims: seq<string>, timeout: nat, clocks: Clocks)
    requires Chosen(sh, [], victims, timeout, clocks)
    requires Played(sh, [], victims, timeout, clocks).sessions == map[]
    ensures Enumerates(victims, sh.sessions.Keys) && |victims| == |sh.sessions|
    ensures Played(sh, [], victims, timeout, clocks).log == sh.log + Reaps(victims, clocks)
  {
    QuietRounds(sh, victims, timeout, clocks);
    assert forall k :: k in sh.sessions.Keys ==> k !in Played(sh, [], victims, timeout, clocks).sessions;
    EnumerationSize(victims, sh.sessions.Keys);
    assert |sh.sessions.Keys| == |sh.sessions|;
  }

  // ------------------------------------------------------------------------- the loop

  /** graceful_shutdown_thread, whatever finite script the others follow. It ends, after at most
      |sessions| + inserts rounds, with the table empty and the flag down, having in each round
      chosen someone with a session and erased them if still there: the history stays true and
      gains exactly one GRACEFUL_SHUTDOWN for each of those. Left alone it shuts every session
      down once, in as many rounds. An empty key would be chosen and never erased; no table of
      valid IMSIs has one. */
  method GracefulShutdownThread(m: SessionManager, script: seq<Round>, clocks: Clocks)
    returns (rounds: nat, ghost victims: seq<string>)
    requires m.Valid() && ValidKeys(m.Abs().sessions.Keys) && m.gracefulShutdownActive
    modifies m.Repr()
    ensures m.Valid() && fresh(m.Repr() - old(m.Repr()))
    ensures !m.gracefulShutdownActive && m.sessions == map[]
    ensures rounds == |victims| <= |old(m.sessions)| + InsertsFrom(script, 0)
    ensures Chosen(old(m.Abs()), script, victims, m.config.timeout, clocks)
    ensures m.Abs() == Played(old(m.Abs()), script, victims, m.config.timeout, clocks).(active := false)
    ensures old(m.log) <= m.log && (HistoryOk(old(m.Abs())) ==> HistoryOk(m.Abs()))
    ensures ShutDown(m.log)
            == ShutDown(old(m.log)) + StillThere(old(m.Abs()), script, victims, m.config.timeout, clocks)
    ensures script == [] ==>
              && m.log == old(m.log) + Reaps(victims, clocks)
              && Enumerates(victims, old(m.sessions).Keys) && rounds == |old(m.sessions)|
  {
    rounds, victims := ShutdownLoop(m, script, clocks);
    LoopOutcome(old(m.Abs()), m.Abs(), script, victims, m.config.timeout, clocks);
  }

  lemma LoopOutcome(before: Shared, after: Shared, script: seq<Round>, victims: seq<string>, timeout: nat,
                    clocks: Clocks)
    requires ValidKeys(before.sessions.Keys) && Standing(before, after, script, victims, timeout, clocks)
    requires !after.active
    ensures after == Played(before, script, victims, timeout, clocks).(active := false) && after.sessions == map[]
    ensures |victims| <= |before.sessions| + InsertsFrom(script, 0)
    ensures before.log <= after.log && (HistoryOk(before) ==> HistoryOk(after))
    ensures ShutDown(after.log) == ShutDown(before.log) + StillThere(before, script, victims, timeout, clocks)
    ensures script == [] ==>
              && after.log == before.log + Reaps(victims, clocks)
              && Enumerates(victims, before.sessions.Keys) && |victims| == |before.sessions|
  {
    RoundsAreBounded(before, script, victims, timeout, clocks);
    RoundsLog(before, script, victims, timeout, clocks);
    assert |before.sessions.Keys| == |before.sessions|;
    if script == [] { QuietShutdown(before, victims, timeout, clocks); }
  }

  /** Where the loop stands when it has been through these rounds. */
  ghost predicate Standing(sh: Shared, now: Shared, script: seq<Round>, victims: seq<string>, timeout: nat,
                           clocks: Clocks)
  {
    && Chosen(sh, script, victims, timeout, clocks) && ValidKeys(now.sessions.Keys)
    && now == Played(sh, script, victims, timeout, clocks).(active := now.active)
    && (now.active ==> sh.active) && (!now.active ==> now.sessions == map[])
    && |victims| <= |sh.sessions.Keys| + InsertsFrom(script, 0)
  }

  lemma OneMoreRound(sh: Shared, now: Shared, script: seq<Round>, victims: seq<string>, victim: string, timeout: nat,
                     clocks: Clocks)
    requires ValidKeys(sh.sessions.Keys) && Standing(sh, now, script, victims, timeout, clocks)
    requires now.active && victim in now.sessions
    ensures var n := |victims|;
            var now' := RoundSection(now, victim, RoundAt(script, n), timeout, clocks.at(n), clocks.wall(n));
            now'.active && Standing(sh, now', script, victims + [victim], timeout, clocks)
  {
    var longer := victims + [victim];
    assert longer[..|victims|] == victims;
    RoundsAreBounded(sh, script, victims, timeout, clocks);
    RoundsAreBounded(sh, script, longer, timeout, clocks);
  }

  method ShutdownLoop(m: SessionManager, script: seq<Round>, clocks: Clocks)
    returns (rounds: nat, ghost victims: seq<string>)
    requires m.Valid() && ValidKeys(m.Abs().sessions.Keys) && m.gracefulShutdownActive
    modifies m.Repr()
    ensures m.Valid() && fresh(m.Repr() - old(m.Repr()))
    ensures rounds == |victims| && !m.gracefulShutdownActive
    ensures Standing(old(m.Abs()), m.Abs(), script, victims, m.config.timeout, clocks)
  {
    rounds, victims := 0, [];
    ghost var start := m.Abs();
    while m.gracefulShutdownActive
      invariant m.Valid() && fresh(m.Repr() - old(m.Repr()))
      invariant rounds == |victims|
      invariant Standing(start, m.Abs(), script, victims, m.config.timeout, clocks)
      decreases |start.sessions.Keys| + InsertsFrom(script, 0) - rounds, if m.gracefulShutdownActive then 1 else 0
    {
      rounds, victims := LoopTurn(m, start, script, rounds, victims, clocks);
    }
  }

  method LoopTurn(m: SessionManager, ghost start: Shared, script: seq<Round>, rounds: nat, ghost victims: seq<string>,
                  clocks: Clocks) returns (next: nat, ghost longer: seq<string>)
    requires m.Valid() && m.gracefulShutdownActive && rounds == |victims|
    requires ValidKeys(start.sessions.Keys) && Standing(start, m.Abs(), script, victims, m.config.timeout, clocks)
    modifies m.Repr()
    ensures m.Valid() && fresh(m.Repr() - old(m.Repr()))
    ensures next == |longer| == rounds + if m.gracefulShutdownActive then 1 else 0
    ensures Standing(start, m.Abs(), script, longer, m.config.timeout, clocks)
  {
    ghost var now := m.Abs();
    ghost var victim := ShutdownIteration(m, RoundAt(script, rounds), clocks.at(rounds), clocks.wall(rounds));
    next, longer := rounds, victims;
    if m.gracefulShutdownActive {
      OneMoreRound(start, now, script, victims, victim, m.config.timeout, clocks);
      longer := victims + [victim];
      next := rounds + 1;
    }
  }

  /** One iteration: choose a victim, or find the table empty and stop; if the choice is not the
      empty string, reap it and pause. */
  method ShutdownIteration(m: SessionManager, round: Round, ghost at: int, wall: int) returns (ghost victim: string)
    requires m.Valid() && ValidKeys(m.Abs().sessions.Keys) && m.gracefulShutdownActive
    modifies m.Repr()
    ensures m.Valid() && fresh(m.Repr() - old(m.Repr()))
    ensures !m.gracefulShutdownActive <==> old(m.Abs()).sessions == map[]
    ensures !m.gracefulShutdownActive ==> m.Abs() == old(m.Abs()).(active := false)
    ensures m.gracefulShutdownActive ==>
              && victim in old(m.Abs()).sessions
              && m.Abs() == RoundSection(old(m.Abs()), victim, round, m.config.timeout, at, wall)
  {
    victim := "";
    var choice := m.ChooseVictim();
    if choice.Some? && choice.value != "" {
      victim := choice.value;
      ShutdownTurn(m, choice.value, round, at, wall);
    }
  }

  method ShutdownTurn(m: SessionManager, victim: string, round: Round, ghost at: int, wall: int)
    requires m.Valid() && ValidKeys(m.Abs().sessions.Keys) && victim in m.Abs().sessions
    modifies m.Repr()
    ensures m.Valid() && fresh(m.Repr() - old(m.Repr()))
    ensures m.gracefulShutdownActive == old(m.gracefulShutdownActive)
    ensures m.Abs() == RoundSection(old(m.Abs()), victim, round, m.config.timeout, at, wall)
  {
    RoundShrinks(m.Abs(), victim, round, m.config.timeout, at, wall);
    ShutdownRound(m, victim, round, at, wall);
  }

  method ShutdownRound(m: SessionManager, victim: string, round: Round, ghost at: int, wall: int)
    requires m.Valid()
    modifies m.Repr()
    ensures m.Valid() && fresh(m.Repr() - old(m.Repr()))
    ensures m.Abs() == RoundSection(old(m.Abs()), victim, round, m.config.timeout, at, wall)
  {
    ReapAfter(m, victim, round.afterChoice, at, wall);
    Interfere(m, round.inPause);
  }

  method ReapAfter(m: SessionManager, victim: string, script: seq<Section>, ghost at: int, wall: int)
    requires m.Valid()
    modifies m.Repr()
    ensures m.Valid() && fresh(m.Repr() - old(m.Repr()))
    ensures m.Abs() == ReapSection(AfterScript(old(m.Abs()), script, m.config.timeout), victim, at, wall)
  {
    Interfere(m, script);
    m.ReapVictim(victim, at, wall);
  }

  /** A choice and the erasure that follows are the machine's Choose and Reap steps, and the end of
      the loop its FindEmpty step. */
  lemma TurnIsSteps(cfg: M.Config, s: M.State, victim: string, at: int, wall: int)
    requires s.reaper.Choosing? && !s.cleaner.Scanning? && s.clock <= at && victim != ""
    ensures var steps := [M.Step(s.clock, M.Choose(victim)), M.Step(at, M.Reap(wall))];
            victim in s.shared.sessions ==>
              M.Run(cfg, s, steps) && M.End(cfg, s, steps).shared == ReapSection(s.shared, victim, at, wall)
    ensures s.shared.sessions == map[] ==>
              && M.Allowed(cfg, s, M.Step(at, M.FindEmpty))
              && M.Next(cfg, s, M.Step(at, M.FindEmpty)).shared == s.shared.(active := false)
  {
    var first, second := M.Step(s.clock, M.Choose(victim)), M.Step(at, M.Reap(wall));
    if victim in s.shared.sessions {
      assert M.Run(cfg, s, []) && [] + [first] == [first] && [first] + [second] == [first, second];
      M.RunSnoc(cfg, s, [], first);
      M.RunSnoc(cfg, s, [first], second);
    }
  }

  /** A shutdown can be started once, at any moment; its thread then looks for a victim. */
  lemma StartIsStep(cfg: M.Config, s: M.State, at: int)
    requires s.clock <= at
    ensures M.Allowed(cfg, s, M.Step(at, M.StartShutdown)) <==> s.reaper.NotStarted?
    ensures s.reaper.NotStarted? ==>
              var s' := M.Next(cfg, s, M.Step(at, M.StartShutdown));
              s'.shared == s.shared.(active := true) && s'.reaper.Choosing?
  {
  }
}
