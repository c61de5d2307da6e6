/** The compound operations of the session manager as methods on the object: create_session and the
    cleanup pass, with every critical section that other threads may run in between handed in as
    a script. The shutdown loop is in GracefulShutdown. */
module Threads {
  import opened Imsi
  import opened Sessions
  import opened Manager
  import M = Machine

  type subscriber = s: string | ValidImsi(s) witness "0"

  /** A critical section of another thread: the two halves of create_session (an insert is a call
      past its check, whatever has been banned since), the public operations, and the erasing
      half of a cleanup pass with whatever list its scan collected. */
  datatype Section =
    | Check(imsi: string, at: int, wall: int)
    | Insert(caller: subscriber, created: int, at: int, wall: int)
    | Remove(imsi: string, at: int)
    | Refresh(imsi: string, at: int)
    | Ban(imsi: string)
    | Unban(imsi: string)
    | Erase(now: int, list: seq<string>, at: int, wall: int)

  /** What a section does to the shared state; an erasing pass emits all its events at one
      system-clock reading. */
  function Apply(sh: Shared, s: Section, timeout: nat): Shared
  {
    match s
    case Check(imsi, at, wall) => CheckSection(sh, imsi, at, wall).0
    case Insert(caller, created, at, wall) => UpdateSection(sh, caller, created, at, wall).0
    case Remove(imsi, at) => RemoveSection(sh, imsi, at)
    case Refresh(imsi, at) => RefreshSection(sh, imsi, at)
    case Ban(imsi) => sh.(blacklist := sh.blacklist + {imsi})
    case Unban(imsi) => sh.(blacklist := sh.blacklist - {imsi})
    case Erase(now, list, at, wall) =>
      SweepSection(sh, list, |list|, now, timeout, at, seq(|list|, _ => wall))
  }

  /** What a sequence of them does. */
  function AfterScript(sh: Shared, script: seq<Section>, timeout: nat): Shared
  {
    if script == [] then sh
    else Apply(AfterScript(sh, script[..|script| - 1], timeout), script[|script| - 1], timeout)
  }

  /** The sections of a script act one after the other. */
  lemma {:induction false} ScriptInTurn(sh: Shared, first: seq<Section>, later: seq<Section>, timeout: nat)
    ensures AfterScript(sh, first + later, timeout) == AfterScript(AfterScript(sh, first, timeout), later, timeout)
    ensures forall s :: AfterScript(sh, [s], timeout) == Apply(sh, s, timeout)
  {
    forall s ensures AfterScript(sh, [s], timeout) == Apply(sh, s, timeout) {
      assert [s][..0] == [];
      assert AfterScript(sh, [], timeout) == sh;
    }
    if later == [] {
      assert first + later == first;
    } else {
      var n := |later| - 1;
      ScriptInTurn(sh, first, later[..n], timeout);
      assert (first + later)[..|first + later| - 1] == first + later[..n];
    }
  }

  function InsertCount(script: seq<Section>): nat
  {
    if script == [] then 0 else InsertCount(script[..|script| - 1]) + if script[|script| - 1].Insert? then 1 else 0
  }

  function Inserted(s: Section): set<string> { if s.Insert? then {s.caller} else {} }

  /** Everyone the script inserts. */
  function Joined(script: seq<Section>): set<string>
  {
    if script == [] then {} else Joined(script[..|script| - 1]) + Inserted(script[|script| - 1])
  }

  predicate ValidKeys(keys: set<string>) { forall k :: k in keys ==> ValidImsi(k) }

  lemma ApplyKeeps(sh: Shared, s: Section, timeout: nat)
    requires ValidKeys(sh.sessions.Keys)
    ensures var sh' := Apply(sh, s, timeout);
            && ValidKeys(sh'.sessions.Keys) && sh'.active == sh.active
            && sh'.sessions.Keys <= sh.sessions.Keys + Inserted(s)
  {
    if s.Erase? {
      var walls := seq(|s.list|, _ => s.wall);
      SweepErasesListedExpired(sh, s.list, |s.list|, s.now, timeout, s.at, walls);
    }
  }

  /** Other threads' sections leave the shutdown flag alone and grow the table by at most one
      valid IMSI for each insert. */
  lemma {:induction false} ScriptKeeps(sh: Shared, script: seq<Section>, timeout: nat)
    requires ValidKeys(sh.sessions.Keys)
    ensures var sh' := AfterScript(sh, script, timeout);
            && ValidKeys(sh'.sessions.Keys) && sh'.active == sh.active
            && sh'.sessions.Keys <= sh.sessions.Keys + Joined(script)
    ensures |Joined(script)| <= InsertCount(script)
  {
    if script != [] {
      var rest := script[..|script| - 1];
      ScriptKeeps(sh, rest, timeout);
      ApplyKeeps(AfterScript(sh, rest, timeout), script[|script| - 1], timeout);
    }
  }

  method Perform(m: SessionManager, s: Section)
    requires m.Valid()
    modifies m.Repr()
    ensures m.Valid() && fresh(m.Repr() - old(m.Repr()))
    ensures m.Abs() == Apply(old(m.Abs()), s, m.config.timeout)
  {
    match s
    case Check(imsi, at, wall) =>
      var passed := m.CheckCaller(imsi, at, wall);
    case Insert(caller, created, at, wall) =>
      var r := m.InsertOrRefresh(caller, created, at, wall);
    case Remove(imsi, at) =>
      var r := m.RemoveSession(imsi, at);
    case Refresh(imsi, at) =>
      m.UpdateSessionActivity(imsi, at);
    case Ban(imsi) =>
      m.AddToBlacklist(imsi);
    case Unban(imsi) =>
      m.RemoveFromBlacklist(imsi);
    case Erase(now, list, at, wall) =>
      m.EraseExpired(now, list, at, seq(|list|, _ => wall));
  }

  /** Any finite sequence of other sections. */
  method Interfere(m: SessionManager, script: seq<Section>)
    requires m.Valid()
    modifies m.Repr()
    ensures m.Valid() && fresh(m.Repr() - old(m.Repr()))
    ensures m.Abs() == AfterScript(old(m.Abs()), script, m.config.timeout)
    decreases |script|
  {
    if script != [] {
      Interfere(m, script[..|script| - 1]);
      Perform(m, script[|script| - 1]);
    }
  }

  // ------------------------------------------------------------------------- create_session

  /** create_session with any sections of other threads between its two. The verdict is that of
      the blacklist at the check, whatever is banned or unbanned since; a call that passed acts
      on the table as the others left it, and ends with its IMSI in it, stamped now. */
  method CreateSession(m: SessionManager, imsi: string, between: seq<Section>, created: int, at: int, wall: int)
    returns (r: CreateResult)
    requires m.Valid()
    modifies m.Repr()
    ensures m.Valid() && fresh(m.Repr() - old(m.Repr()))
    ensures r == Blacklisted <==> !ValidImsi(imsi) || imsi in old(m.blacklist)
    ensures r == Blacklisted ==>
              && m.Abs() == CheckSection(old(m.Abs()), imsi, at, wall).0
              && Screened(old(m.Abs()), m.Abs(), false, imsi, at, wall)
    ensures r != Blacklisted ==>
              var met := AfterScript(old(m.Abs()), between, m.config.timeout);
              && (m.Abs(), r) == UpdateSection(met, imsi, created, at, wall)
              && Updated(met, m.Abs(), r, imsi, created, at, wall)
  {
    var passed := m.CheckCaller(imsi, at, wall);
    if !passed {
      return Blacklisted;
    }
    Interfere(m, between);
    r := m.InsertOrRefresh(imsi, created, at, wall);
  }

  // ------------------------------------------------------------------------- cleanup

  /** From `before`, a sweep under one lock has left `after`, with one TIMEOUT logged for each
      session erased, read off the system clock at `wall`, and nothing else changed. */
  ghost predicate Swept(before: Shared, after: Shared, now: int, timeout: nat, at: int, wall: int)
  {
    && after == before.(sessions := OneLockSweep(before.sessions, now, timeout), log := after.log)
    && TimeoutsFor(before.log, after.log, before.sessions.Keys - after.sessions.Keys, at)
    && forall i :: |before.log| <= i < |after.log| ==> after.log[i].event.timestamp == wall
  }

  /** A create or a refresh that reads the clock at now or later. */
  predicate Since(s: Section, now: int) { (s.Insert? || s.Refresh?) ==> now <= s.at }

  /** One cleanup pass with any sections of other threads between its scan and its erasure: it
      leaves what a sweep under one lock would leave of the table as the others made it, and
      logs one TIMEOUT for each session erased. */
  method CleanupPass(m: SessionManager, now: int, between: seq<Section>, at: int, wall: int)
    requires m.Valid()
    requires forall s :: s in between ==> Since(s, now)
    requires between == [] || m.config.timeout > 0
    modifies m.Repr()
    ensures m.Valid() && fresh(m.Repr() - old(m.Repr()))
    ensures Swept(AfterScript(old(m.Abs()), between, m.config.timeout), m.Abs(), now, m.config.timeout, at, wall)
  {
    var expired, order := m.ScanExpired(now);
    assert ListsExpired(expired, m.Contents(), now, m.config.timeout);
    EraseAfter(m, now, expired, between, at, wall);
  }

  ghost predicate ListsExpired(list: seq<string>, t: Table, now: int, timeout: nat)
  {
    forall k :: k in t && Expired(t[k], now, timeout) ==> k in list
  }

  /** What follows the scan. */
  method EraseAfter(m: SessionManager, now: int, expired: seq<string>, between: seq<Section>, at: int, wall: int)
    requires m.Valid() && ListsExpired(expired, m.Contents(), now, m.config.timeout)
    requires forall s :: s in between ==> Since(s, now)
    requires between == [] || m.config.timeout > 0
    modifies m.Repr()
    ensures m.Valid() && fresh(m.Repr() - old(m.Repr()))
    ensures Swept(AfterScript(old(m.Abs()), between, m.config.timeout), m.Abs(), now, m.config.timeout, at, wall)
  {
    StillListed(m.Abs(), expired, between, m.config.timeout, now);
    Interfere(m, between);
    FinishPass(m, now, expired, at, wall);
  }

  /** The erasing half, skipped when nothing was listed. */
  method FinishPass(m: SessionManager, now: int, expired: seq<string>, at: int, wall: int)
    requires m.Valid()
    requires ListsExpired(expired, m.Contents(), now, m.config.timeout)
    modifies m`sessions, m`log, if m.cdr == null then {} else {m.cdr}
    ensures m.Valid() && m.Owned() <= old(m.Owned())
    ensures Swept(old(m.Abs()), m.Abs(), now, m.config.timeout, at, wall)
  {
    var walls := seq(|expired|, _ => wall);
    ListedIsEnough(m.Abs(), expired, now, m.config.timeout, at, wall);
    if expired != [] {
      m.EraseExpired(now, expired, at, walls);
    }
  }

  lemma SectionLeavesStale(sh: Shared, s: Section, timeout: nat, now: int)
    requires timeout > 0 && Since(s, now)
    ensures var t := Apply(sh, s, timeout).sessions;
            forall k :: k in t && Expired(t[k], now, timeout) ==> k in sh.sessions && sh.sessions[k] == t[k]
  {
    if s.Erase? {
      var walls := seq(|s.list|, _ => s.wall);
      SweepErasesListedExpired(sh, s.list, |s.list|, s.now, timeout, s.at, walls);
    }
  }

  /** Whatever is expired once the others are done was so when the scan looked, and was listed. */
  lemma {:induction false} StillListed(sh: Shared, list: seq<string>, script: seq<Section>, timeout: nat, now: int)
    requires ListsExpired(list, sh.sessions, now, timeout)
    requires forall s :: s in script ==> Since(s, now)
    requires script == [] || timeout > 0
    ensures ListsExpired(list, AfterScript(sh, script, timeout).sessions, now, timeout)
  {
    if script != [] {
      var rest, last := script[..|script| - 1], script[|script| - 1];
      assert forall s :: s in rest ==> s in script;
      StillListed(sh, list, rest, timeout, now);
      assert last in script;
      SectionLeavesStale(AfterScript(sh, rest, timeout), last, timeout, now);
    }
  }

  /** Erasing a list that holds every expired key is a sweep under one lock. */
  lemma ListedIsEnough(sh: Shared, list: seq<string>, now: int, timeout: nat, at: int, wall: int)
    requires ListsExpired(list, sh.sessions, now, timeout)
    ensures Swept(sh, SweepSection(sh, list, |list|, now, timeout, at, seq(|list|, _ => wall)), now, timeout, at, wall)
  {
    SweepErasesListedExpired(sh, list, |list|, now, timeout, at, seq(|list|, _ => wall));
    assert list[..|list|] == list;
  }

  // ------------------------------------------------------------------------- the step machine

  /** When the machine may perform the section, as call c if it is part of one. */
  predicate Timely(s: M.State, sec: Section, c: nat)
  {
    match sec
    case Check(_, at, _) => s.clock <= at && c !in s.calls
    case Insert(caller, created, at, _) =>
      s.clock <= created <= at && !s.cleaner.Scanning? && c in s.calls && s.calls[c] == caller
    case Remove(_, at) => s.clock <= at && !s.cleaner.Scanning?
    case Refresh(_, at) => s.clock <= at
    case Ban(_) => true
    case Unban(_) => true
    case Erase(now, list, at, _) => s.clock <= at && s.cleaner == M.Erasing(now, list)
  }

  function StepOf(s: M.State, sec: Section, c: nat): M.Step
  {
    match sec
    case Check(imsi, at, wall) => M.Step(at, M.Check(c, imsi, wall))
    case Insert(_, created, at, wall) => M.Step(at, M.Update(c, created, wall))
    case Remove(imsi, at) => M.Step(at, M.Remove(imsi))
    case Refresh(imsi, at) => M.Step(at, M.Refresh(imsi))
    case Ban(imsi) => M.Step(s.clock, M.Ban(imsi))
    case Unban(imsi) => M.Step(s.clock, M.Unban(imsi))
    case Erase(_, list, at, wall) => M.Step(at, M.Sweep(seq(|list|, _ => wall)))
  }

  /** What a method does in one critical section the step machine can do in one step, whenever the
      locks let it. */
  lemma SectionIsStep(cfg: M.Config, s: M.State, sec: Section, c: nat)
    requires Timely(s, sec, c)
    ensures M.Allowed(cfg, s, StepOf(s, sec, c))
    ensures M.Next(cfg, s, StepOf(s, sec, c)).shared == Apply(s.shared, sec, cfg.timeout)
  {
  }
}
