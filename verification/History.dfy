/** The emitted events tell the truth: replaying them rebuilds the table, sessions are counted
    exactly, and no session ends twice. Manual removal emits nothing and stands in the
    history as an entry of its own. */
module History {
  import opened Imsi
  import opened Sessions
  import opened Machine

  function ReplayOne(live: set<string>, e: Entry): set<string>
  {
    match e
    case Emitted(ev, _) =>
      (match ev.action
       case CREATED => live + {ev.imsi}
       case TIMEOUT => live - {ev.imsi}
       case GRACEFUL_SHUTDOWN => live - {ev.imsi}
       case REJECTED => live)
    case Removed(x, _) => live - {x}
  }

  function Replay(log: seq<Entry>): set<string>
  {
    if log == [] then {} else ReplayOne(Replay(log[..|log| - 1]), log[|log| - 1])
  }

  lemma ReplaySnoc(log: seq<Entry>, e: Entry)
    ensures Replay(log + [e]) == ReplayOne(Replay(log), e)
  {
    assert (log + [e])[..|log + [e]| - 1] == log;
  }

  /** An entry may follow a history in which `live` is the set of open sessions. */
  predicate Fits(live: set<string>, e: Entry)
  {
    match e
    case Emitted(ev, _) =>
      && ValidImsi(ev.imsi)
      && (match ev.action
          case CREATED => ev.imsi !in live
          case TIMEOUT => ev.imsi in live
          case GRACEFUL_SHUTDOWN => ev.imsi in live
          case REJECTED => true)
    case Removed(x, _) => ValidImsi(x) && x in live
  }

  predicate Coherent(log: seq<Entry>)
  {
    forall i :: 0 <= i < |log| ==> Fits(Replay(log[..i]), log[i])
  }

  lemma CoherentSnoc(log: seq<Entry>, e: Entry)
    requires Coherent(log) && Fits(Replay(log), e)
    ensures Coherent(log + [e])
  {
    forall i | 0 <= i < |log + [e]| ensures Fits(Replay((log + [e])[..i]), (log + [e])[i]) {
      assert (log + [e])[..i] == log[..i];
      assert i == |log| ==> log[..i] == log;
    }
  }

  /** The history of the shared state matches its table. */
  predicate HistoryOk(sh: Shared)
  {
    Coherent(sh.log) && Replay(sh.log) == sh.sessions.Keys && forall k :: k in sh.sessions ==> ValidImsi(k)
  }

  /** A section that appends one fitting entry and changes the keys as the entry says. */
  lemma Appended(sh: Shared, sh': Shared, e: Entry)
    requires HistoryOk(sh) && Fits(sh.sessions.Keys, e)
    requires sh'.log == sh.log + [e] && sh'.sessions.Keys == ReplayOne(sh.sessions.Keys, e)
    ensures HistoryOk(sh')
  {
    CoherentSnoc(sh.log, e);
    ReplaySnoc(sh.log, e);
    assert forall k :: k in sh'.sessions ==> k in sh'.sessions.Keys;
  }

  lemma CheckKeepsHistory(sh: Shared, imsi: string, at: int, wall: int)
    requires HistoryOk(sh)
    ensures HistoryOk(CheckSection(sh, imsi, at, wall).0)
  {
    var sh' := CheckSection(sh, imsi, at, wall).0;
    if sh' != sh { Appended(sh, sh', sh'.log[|sh.log|]); }
  }

  lemma UpdateKeepsHistory(sh: Shared, imsi: string, created: int, at: int, wall: int)
    requires HistoryOk(sh) && ValidImsi(imsi)
    ensures HistoryOk(UpdateSection(sh, imsi, created, at, wall).0)
  {
    var sh' := UpdateSection(sh, imsi, created, at, wall).0;
    if imsi in sh.sessions {
      assert sh'.sessions.Keys == sh.sessions.Keys;
    } else {
      Appended(sh, sh', sh'.log[|sh.log|]);
    }
  }

  lemma RefreshKeepsHistory(sh: Shared, imsi: string, at: int)
    requires HistoryOk(sh)
    ensures HistoryOk(RefreshSection(sh, imsi, at))
  {
    assert RefreshSection(sh, imsi, at).sessions.Keys == sh.sessions.Keys;
  }

  lemma RemoveKeepsHistory(sh: Shared, imsi: string, at: int)
    requires HistoryOk(sh)
    ensures HistoryOk(RemoveSection(sh, imsi, at))
  {
    var sh' := RemoveSection(sh, imsi, at);
    if sh' != sh { Appended(sh, sh', Removed(imsi, at)); }
  }

  lemma ReapKeepsHistory(sh: Shared, victim: string, at: int, wall: int)
    requires HistoryOk(sh)
    ensures HistoryOk(ReapSection(sh, victim, at, wall))
  {
    var sh' := ReapSection(sh, victim, at, wall);
    if sh' != sh { Appended(sh, sh', sh'.log[|sh.log|]); }
  }

  lemma {:induction false} SweepKeepsHistory(sh: Shared, list: seq<string>, n: nat, now: int, timeout: nat,
                                             at: int, walls: seq<int>)
    requires HistoryOk(sh) && n <= |list| == |walls|
    ensures HistoryOk(SweepSection(sh, list, n, now, timeout, at, walls))
  {
    if n > 0 {
      SweepKeepsHistory(sh, list, n - 1, now, timeout, at, walls);
      var mid := SweepSection(sh, list, n - 1, now, timeout, at, walls);
      var sh' := SweepOne(mid, list[n - 1], now, timeout, at, walls[n - 1]);
      if sh' != mid { Appended(mid, sh', sh'.log[|mid.log|]); }
    }
  }

  lemma StepKeepsHistory(cfg: Config, s: State, st: Step)
    requires TableOk(s) && HistoryOk(s.shared) && Allowed(cfg, s, st)
    ensures HistoryOk(Next(cfg, s, st).shared)
  {
    match st.act
    case Check(_, imsi, wall) => CheckKeepsHistory(s.shared, imsi, st.at, wall);
    case Update(c, created, wall) => UpdateKeepsHistory(s.shared, s.calls[c], created, st.at, wall);
    case Remove(imsi) => RemoveKeepsHistory(s.shared, imsi, st.at);
    case Refresh(imsi) => RefreshKeepsHistory(s.shared, imsi, st.at);
    case Sweep(walls) =>
      SweepKeepsHistory(s.shared, s.cleaner.list, |s.cleaner.list|, s.cleaner.now, cfg.timeout, st.at, walls);
    case Reap(wall) => ReapKeepsHistory(s.shared, s.reaper.victim, st.at, wall);
    case _ =>
  }

  lemma {:induction false} RunKeepsHistory(cfg: Config, s: State, steps: seq<Step>)
    requires TableOk(s) && HistoryOk(s.shared) && Run(cfg, s, steps)
    ensures TableOk(End(cfg, s, steps)) && HistoryOk(End(cfg, s, steps).shared)
    decreases |steps|
  {
    if steps != [] {
      StepKeepsHistory(cfg, s, steps[0]);
      StepKeepsTableOk(cfg, s, steps[0]);
      RunKeepsHistory(cfg, Next(cfg, s, steps[0]), steps[1..]);
    }
  }

  /** Replaying the history of any run gives exactly the keys of the table. */
  lemma ReplayRebuildsTable(cfg: Config, start: int, blacklist: set<string>, steps: seq<Step>)
    requires Run(cfg, Initial(start, blacklist), steps)
    ensures var sh := End(cfg, Initial(start, blacklist), steps).shared;
            Replay(sh.log) == sh.sessions.Keys && Coherent(sh.log)
  {
    RunKeepsHistory(cfg, Initial(start, blacklist), steps);
  }

  // ---------------------------------------------------------------------------- counting

  function CountEvents(log: seq<Entry>, action: SessionAction): nat
  {
    if log == [] then 0
    else CountEvents(log[..|log| - 1], action) + if log[|log| - 1].Is(action) then 1 else 0
  }

  function CountRemovals(log: seq<Entry>): nat
  {
    if log == [] then 0
    else CountRemovals(log[..|log| - 1]) + if log[|log| - 1].Removed? then 1 else 0
  }

  lemma {:induction false} LiveCount(log: seq<Entry>)
    requires Coherent(log)
    ensures |Replay(log)| == CountEvents(log, CREATED) - CountEvents(log, TIMEOUT) - CountEvents(log, GRACEFUL_SHUTDOWN)
                             - CountRemovals(log)
  {
    if log != [] {
      var rest, e := log[..|log| - 1], log[|log| - 1];
      assert forall i :: 0 <= i < |rest| ==> log[..i] == rest[..i];
      LiveCount(rest);
      assert Fits(Replay(rest), e);
    }
  }

  /** Conservation: live sessions = created - timed out - shut down - manually removed. */
  lemma SessionsAreConserved(cfg: Config, start: int, blacklist: set<string>, steps: seq<Step>)
    requires Run(cfg, Initial(start, blacklist), steps)
    ensures var sh := End(cfg, Initial(start, blacklist), steps).shared;
            |sh.sessions| == CountEvents(sh.log, CREATED) - CountEvents(sh.log, TIMEOUT)
                             - CountEvents(sh.log, GRACEFUL_SHUTDOWN) - CountRemovals(sh.log)
  {
    ReplayRebuildsTable(cfg, start, blacklist, steps);
    var sh := End(cfg, Initial(start, blacklist), steps).shared;
    LiveCount(sh.log);
    assert |sh.sessions| == |sh.sessions.Keys|;
  }

  // ------------------------------------------------------------------------- alternation

  /** For IMSI x the creations and the ends in the log strictly alternate, creation first. */
  ghost predicate Alternates(log: seq<Entry>, x: string)
  {
    && (forall j :: 0 <= j < |log| && log[j].Ends(x) ==> exists i :: 0 <= i < j && log[i].Creates(x))
    && (forall i, j :: 0 <= i < j < |log| && log[i].Ends(x) && log[j].Ends(x) ==>
          exists k :: i < k < j && log[k].Creates(x))
    && (forall i, j :: 0 <= i < j < |log| && log[i].Creates(x) && log[j].Creates(x) ==>
          exists k :: i < k < j && log[k].Ends(x))
  }

  lemma ReplayMembership(log: seq<Entry>, x: string, i: nat)
    requires i < |log|
    ensures Replay(log[..i + 1]) == ReplayOne(Replay(log[..i]), log[i])
  {
    assert log[..i + 1] == log[..i] + [log[i]];
    ReplaySnoc(log[..i], log[i]);
  }

  /** Between positions i and j the membership of x changes only through its own entries. */
  lemma {:induction false} WhoOpened(log: seq<Entry>, x: string, i: nat, j: nat)
    requires i <= j <= |log|
    requires x !in Replay(log[..i]) && x in Replay(log[..j])
    ensures exists k :: i <= k < j && log[k].Creates(x)
    decreases j - i
  {
    if i < j {
      ReplayMembership(log, x, j - 1);
      if !log[j - 1].Creates(x) { WhoOpened(log, x, i, j - 1); }
    }
  }

  lemma {:induction false} WhoClosed(log: seq<Entry>, x: string, i: nat, j: nat)
    requires i <= j <= |log|
    requires x in Replay(log[..i]) && x !in Replay(log[..j])
    ensures exists k :: i <= k < j && log[k].Ends(x)
    decreases j - i
  {
    if i < j {
      ReplayMembership(log, x, j - 1);
      if !log[j - 1].Ends(x) { WhoClosed(log, x, i, j - 1); }
    }
  }

  lemma CoherentAlternates(log: seq<Entry>, x: string)
    requires Coherent(log)
    ensures Alternates(log, x)
  {
    forall j | 0 <= j < |log| && log[j].Ends(x) ensures exists i :: 0 <= i < j && log[i].Creates(x) {
      assert Fits(Replay(log[..j]), log[j]);
      assert log[..0] == [];
      WhoOpened(log, x, 0, j);
    }
    forall i, j | 0 <= i < j < |log| && log[i].Ends(x) && log[j].Ends(x)
      ensures exists k :: i < k < j && log[k].Creates(x)
    {
      assert Fits(Replay(log[..j]), log[j]);
      ReplayMembership(log, x, i);
      WhoOpened(log, x, i + 1, j);
    }
    forall i, j | 0 <= i < j < |log| && log[i].Creates(x) && log[j].Creates(x)
      ensures exists k :: i < k < j && log[k].Ends(x)
    {
      assert Fits(Replay(log[..j]), log[j]);
      ReplayMembership(log, x, i);
      WhoClosed(log, x, i + 1, j);
    }
  }

  /** No resurrection: in any run, however the two erasing threads race, every session ends at
      most once, by timeout, shutdown or removal, before it can be created again. */
  lemma EverySessionEndsOnce(cfg: Config, start: int, blacklist: set<string>, steps: seq<Step>, x: string)
    requires Run(cfg, Initial(start, blacklist), steps)
    ensures Alternates(End(cfg, Initial(start, blacklist), steps).shared.log, x)
  {
    ReplayRebuildsTable(cfg, start, blacklist, steps);
    CoherentAlternates(End(cfg, Initial(start, blacklist), steps).shared.log, x);
  }

  // ------------------------------------------------------------------ every entry has its step

  /** What step st may log in state s, and with which clock readings. */
  predicate Accounts(cfg: Config, s: State, st: Step, e: Entry)
  {
    && e.at == st.at
    && match e
       case Removed(x, _) => st.act == Remove(x) && x in s.shared.sessions
       case Emitted(ev, _) =>
         match ev.action
         case REJECTED =>
           st.act.Check? && st.act.imsi == ev.imsi && st.act.wall == ev.timestamp && ev.imsi in s.shared.blacklist
         case CREATED =>
           && st.act.Update? && st.act.call in s.calls && s.calls[st.act.call] == ev.imsi
           && st.act.wall == ev.timestamp && ev.imsi !in s.shared.sessions
         case TIMEOUT =>
           && st.act.Sweep? && s.cleaner.Erasing? && ev.imsi in s.cleaner.list && ev.timestamp in st.act.walls
           && ev.imsi in s.shared.sessions && Expired(s.shared.sessions[ev.imsi], s.cleaner.now, cfg.timeout)
         case GRACEFUL_SHUTDOWN =>
           && st.act.Reap? && s.reaper.Chosen? && s.reaper.victim == ev.imsi
           && st.act.wall == ev.timestamp && ev.imsi in s.shared.sessions
  }

  lemma SweepAccounts(cfg: Config, s: State, st: Step, i: nat)
    requires Allowed(cfg, s, st) && st.act.Sweep? && |s.shared.log| <= i < |Next(cfg, s, st).shared.log|
    ensures Accounts(cfg, s, st, Next(cfg, s, st).shared.log[i])
  {
    SweepStepErases(cfg, s, st);
    var log, walls := Next(cfg, s, st).shared.log, st.act.walls;
    var j :| 0 <= j < |walls| && s.cleaner.list[j] == log[i].event.imsi && walls[j] == log[i].event.timestamp;
    assert log[i].Is(TIMEOUT);
  }

  lemma StepAccounts(cfg: Config, s: State, st: Step)
    requires Allowed(cfg, s, st)
    ensures var log := Next(cfg, s, st).shared.log;
            s.shared.log <= log && forall i :: |s.shared.log| <= i < |log| ==> Accounts(cfg, s, st, log[i])
  {
    if st.act.Sweep? {
      SweepStepErases(cfg, s, st);
      forall i | |s.shared.log| <= i < |Next(cfg, s, st).shared.log|
        ensures Accounts(cfg, s, st, Next(cfg, s, st).shared.log[i])
      {
        SweepAccounts(cfg, s, st, i);
      }
    }
  }

  /** Entry k was logged by step i of the run, which accounts for it. */
  ghost predicate LoggedBy(cfg: Config, s: State, steps: seq<Step>, i: nat, k: nat, e: Entry)
  {
    && i < |steps| && Run(cfg, s, steps[..i]) && Accounts(cfg, End(cfg, s, steps[..i]), steps[i], e)
    && |End(cfg, s, steps[..i]).shared.log| <= k
  }

  /** Whatever the history says happened, a step of the run did, then and there: a rejection was a
      check of a blacklisted IMSI, a creation the update of a call for one without a session, a
      timeout the erasure of an expired session that the scan had listed, a shutdown the erasure
      of the victim, a removal a removal; and it is stamped with the clocks as that step read them. */
  lemma {:induction false} EveryEntryHasItsStep(cfg: Config, start: int, blacklist: set<string>, steps: seq<Step>,
                                                k: nat)
    requires Run(cfg, Initial(start, blacklist), steps)
    requires k < |End(cfg, Initial(start, blacklist), steps).shared.log|
    ensures var s0 := Initial(start, blacklist);
            exists i: nat :: LoggedBy(cfg, s0, steps, i, k, End(cfg, s0, steps).shared.log[k])
    decreases |steps|
  {
    var s0 := Initial(start, blacklist);
    if steps != [] {
      var n := |steps| - 1;
      var rest, log := steps[..n], End(cfg, s0, steps).shared.log;
      RunUnsnoc(cfg, s0, steps);
      var mid := End(cfg, s0, rest);
      StepAccounts(cfg, mid, steps[n]);
      if k < |mid.shared.log| {
        EveryEntryHasItsStep(cfg, start, blacklist, rest, k);
        var i: nat :| LoggedBy(cfg, s0, rest, i, k, mid.shared.log[k]);
        assert steps[..i] == rest[..i] && LoggedBy(cfg, s0, steps, i, k, log[k]);
      } else {
        assert LoggedBy(cfg, s0, steps, n, k, log[k]);
      }
    }
  }
}
