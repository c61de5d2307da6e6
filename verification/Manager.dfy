/** SessionManager as an object (src/session_manager.cpp): one method per critical section,
    each proved to do to the object what the section function does to its abstract value. */
module Manager {
  import opened Imsi
  import opened Sessions
  import opened Machine
  import opened Cdr

  class Session {
    const imsi: string
    const createdAt: int
    var lastActivity: int

    constructor (imsi: string, created: int, activity: int)
      ensures this.imsi == imsi && createdAt == created && lastActivity == activity
    {
      this.imsi := imsi;
      createdAt := created;
      lastActivity := activity;
    }

    ghost function Info(): SessionInfo
      reads this
    {
      SessionInfo(imsi, createdAt, lastActivity)
    }
  }

  class SessionManager {
    const config: Config
    const cdr: CdrWriter?
    var sessions: map<string, Session>
    var blacklist: set<string>
    var gracefulShutdownActive: bool
    ghost var log: seq<Entry>

    ghost function Owned(): set<object>
      reads this
    {
      set k | k in sessions :: sessions[k] as object
    }

    ghost function Repr(): set<object>
      reads this
    {
      {this} + Owned() + (if cdr == null then {} else {cdr})
    }

    /** No two keys share a Session, and the CDR file holds the events emitted so far. */
    ghost predicate Valid()
      reads this, Repr()
    {
      && (forall j, k :: j in sessions && k in sessions && j != k ==> sessions[j] != sessions[k])
      && (cdr != null ==> cdr.Valid() && cdr.records == Events(log))
    }

    ghost function Contents(): (t: Table)
      reads this, Owned()
      ensures t.Keys == sessions.Keys
    {
      map k | k in sessions :: sessions[k].Info()
    }

    /** The abstract value. */
    ghost function Abs(): Shared
      reads this, Owned()
    {
      Shared(Contents(), blacklist, gracefulShutdownActive, log)
    }

    constructor (config: Config, blacklist: set<string>, cdr: CdrWriter?)
      requires cdr != null ==> cdr.Valid() && cdr.records == []
      ensures Valid() && this.config == config && this.cdr == cdr
      ensures Abs() == Initial(0, blacklist).shared && Owned() == {}
      ensures sessions == map[] && this.blacklist == blacklist && !gracefulShutdownActive && log == []
    {
      this.config := config;
      this.cdr := cdr;
      sessions := map[];
      this.blacklist := blacklist;
      gracefulShutdownActive := false;
      log := [];
    }

    /** emit_event: nothing to call when no callback was given. */
    method EmitEvent(imsi: string, action: SessionAction, ghost at: int, wall: int)
      requires Valid()
      modifies this`log, if cdr == null then {} else {cdr}
      ensures Valid() && Abs() == Emit(old(Abs()), imsi, action, at, wall)
    {
      var event := SessionEvent(imsi, action, wall);
      EventsSnoc(log, Emitted(event, at));
      log := log + [Emitted(event, at)];
      if cdr != null {
        cdr.WriteRecord(event);
      }
      assert Contents() == old(Contents());
    }

    /** create_session up to the blacklist check. */
    method CheckCaller(imsi: string, ghost at: int, wall: int) returns (passed: bool)
      requires Valid()
      modifies this`log, if cdr == null then {} else {cdr}
      ensures Valid()
      ensures (Abs(), passed) == CheckSection(old(Abs()), imsi, at, wall)
      ensures Screened(old(Abs()), Abs(), passed, imsi, at, wall)
    {
      CheckMeans(Abs(), imsi, at, wall);
      if !ValidImsi(imsi) {
        return false;
      }
      if imsi in blacklist {
        EmitEvent(imsi, REJECTED, at, wall);
        return false;
      }
      return true;
    }

    /** create_session under sessions_mutex_. */
    method InsertOrRefresh(imsi: string, created: int, at: int, wall: int) returns (r: CreateResult)
      requires Valid()
      modifies Repr()
      ensures Valid() && fresh(Repr() - old(Repr()))
      ensures (Abs(), r) == UpdateSection(old(Abs()), imsi, created, at, wall)
      ensures Updated(old(Abs()), Abs(), r, imsi, created, at, wall)
    {
      UpdateMeans(Abs(), imsi, created, at, wall);
      if imsi in sessions {
        Stamp(imsi, at);
        return AlreadyExists;
      }
      Insert(imsi, created, at);
      EmitEvent(imsi, CREATED, at, wall);
      return Created;
    }

    method Stamp(imsi: string, at: int)
      requires Valid() && imsi in sessions
      modifies sessions[imsi]
      ensures Valid() && Repr() == old(Repr())
      ensures Abs() == old(Abs()).(sessions := old(Contents())[imsi := old(Contents())[imsi].(lastActivity := at)])
    {
      sessions[imsi].lastActivity := at;
      assert Contents() == old(Contents())[imsi := old(Contents())[imsi].(lastActivity := at)];
    }

    method Insert(imsi: string, created: int, at: int)
      requires Valid() && imsi !in sessions
      modifies this`sessions
      ensures Valid() && fresh(Repr() - old(Repr()))
      ensures Abs() == old(Abs()).(sessions := old(Contents())[imsi := SessionInfo(imsi, created, at)])
    {
      var session := new Session(imsi, created, at);
      sessions := sessions[imsi := session];
      assert Contents() == old(Contents())[imsi := SessionInfo(imsi, created, at)];
    }

    /** create_session, undisturbed. */
    method CreateSession(imsi: string, created: int, at: int, wall: int) returns (r: CreateResult)
      requires Valid()
      modifies Repr()
      ensures Valid() && fresh(Repr() - old(Repr()))
      ensures r == Blacklisted <==> !ValidImsi(imsi) || imsi in old(blacklist)
      ensures r == Blacklisted ==> Abs() == CheckSection(old(Abs()), imsi, at, wall).0
      ensures r != Blacklisted ==> (Abs(), r) == UpdateSection(old(Abs()), imsi, created, at, wall)
      ensures r != Blacklisted ==> Updated(old(Abs()), Abs(), r, imsi, created, at, wall)
    {
      var passed := CheckCaller(imsi, at, wall);
      if !passed {
        return Blacklisted;
      }
      r := InsertOrRefresh(imsi, created, at, wall);
    }

    method SessionExists(imsi: string) returns (r: bool)
      ensures r <==> imsi in Contents()
    {
      r := imsi in sessions;
    }

    method RemoveSession(imsi: string, ghost at: int) returns (r: bool)
      requires Valid()
      modifies this`sessions, this`log
      ensures Valid() && Owned() <= old(Owned())
      ensures r <==> imsi in old(Contents())
      ensures Abs() == RemoveSection(old(Abs()), imsi, at)
      ensures Dropped(old(Abs()), Abs(), imsi, Removed(imsi, at))
    {
      RemoveMeans(Abs(), imsi, at);
      if imsi in sessions {
        EraseAndNote(imsi, at);
        return true;
      }
      return false;
    }

    /** A manual removal emits nothing; only the history notes it. */
    method EraseAndNote(imsi: string, ghost at: int)
      requires Valid() && imsi in sessions
      modifies this`sessions, this`log
      ensures Valid() && Owned() <= old(Owned())
      ensures Abs() == old(Abs()).(sessions := old(Contents()) - {imsi}, log := old(log) + [Removed(imsi, at)])
    {
      EventsSnoc(log, Removed(imsi, at));
      sessions := sessions - {imsi};
      log := log + [Removed(imsi, at)];
      assert Contents() == old(Contents()) - {imsi};
    }

    method AddToBlacklist(imsi: string)
      requires Valid()
      modifies this`blacklist
      ensures Valid() && Abs() == old(Abs()).(blacklist := old(blacklist) + {imsi})
    {
      blacklist := blacklist + {imsi};
    }

    method RemoveFromBlacklist(imsi: string)
      requires Valid()
      modifies this`blacklist
      ensures Valid() && Abs() == old(Abs()).(blacklist := old(blacklist) - {imsi})
    {
      blacklist := blacklist - {imsi};
    }

    method UpdateSessionActivity(imsi: string, at: int)
      requires Valid()
      modifies Repr()
      ensures Valid() && Repr() == old(Repr())
      ensures Abs() == RefreshSection(old(Abs()), imsi, at)
      ensures if imsi in old(sessions) then Restamped(old(Abs()), Abs(), imsi, at) else Abs() == old(Abs())
    {
      RefreshMeans(Abs(), imsi, at);
      if imsi in sessions {
        Stamp(imsi, at);
      }
    }

    /** The scanning half of a cleanup pass, in whatever order the table is walked: exactly the
        keys whose sessions are expired at `now`, each once. */
    method ScanExpired(now: int) returns (expired: seq<string>, ghost order: seq<string>)
      requires Valid()
      ensures forall k :: k in expired <==> k in Contents() && Expired(Contents()[k], now, config.timeout)
      ensures forall i, j :: 0 <= i < j < |expired| ==> expired[i] != expired[j]
      ensures Enumerates(order, Contents().Keys) && expired == ScanList(Contents(), order, now, config.timeout)
    {
      expired, order := [], [];
      var rest := sessions.Keys;
      while rest != {}
        invariant rest <= sessions.Keys
        invariant forall k :: k in order <==> k in sessions && k !in rest
        invariant forall i, j :: 0 <= i < j < |order| ==> order[i] != order[j]
        invariant expired == ScanList(Contents(), order, now, config.timeout)
        invariant forall k :: k in expired <==> k in order && Expired(Contents()[k], now, config.timeout)
        invariant forall i, j :: 0 <= i < j < |expired| ==> expired[i] != expired[j]
        decreases rest
      {
        var imsi :| imsi in rest;
        rest := rest - {imsi};
        ScanListSnoc(Contents(), order, now, config.timeout, imsi);
        order := order + [imsi];
        if now - sessions[imsi].lastActivity >= config.timeout {
          expired := expired + [imsi];
        }
      }
    }

    method Erase(imsi: string)
      requires Valid()
      modifies this`sessions
      ensures Valid() && Owned() <= old(Owned()) && sessions.Keys == old(sessions.Keys) - {imsi}
      ensures Abs() == old(Abs()).(sessions := old(Contents()) - {imsi})
    {
      sessions := sessions - {imsi};
      assert Contents() == old(Contents()) - {imsi};
    }

    method EraseAndEmit(imsi: string, action: SessionAction, ghost at: int, wall: int)
      requires Valid() && imsi in sessions
      modifies this`sessions, this`log, if cdr == null then {} else {cdr}
      ensures Valid() && Owned() <= old(Owned())
      ensures Abs() == Emit(old(Abs()).(sessions := old(Contents()) - {imsi}), imsi, action, at, wall)
    {
      Erase(imsi);
      EmitEvent(imsi, action, at, wall);
    }

    /** One turn of the erase loop. */
    method EraseIfStillExpired(imsi: string, now: int, ghost at: int, wall: int)
      requires Valid()
      modifies this`sessions, this`log, if cdr == null then {} else {cdr}
      ensures Valid() && Owned() <= old(Owned())
      ensures Abs() == SweepOne(old(Abs()), imsi, now, config.timeout, at, wall)
    {
      if imsi in sessions && now - sessions[imsi].lastActivity >= config.timeout {
        EraseAndEmit(imsi, TIMEOUT, at, wall);
      }
    }

    /** The erasing half. */
    method EraseExpired(now: int, expired: seq<string>, ghost at: int, walls: seq<int>)
      requires Valid() && |walls| == |expired|
      modifies this`sessions, this`log, if cdr == null then {} else {cdr}
      ensures Valid() && Owned() <= old(Owned())
      ensures Abs() == SweepSection(old(Abs()), expired, |expired|, now, config.timeout, at, walls)
    {
      var i := 0;
      ghost var start, owned, turn := Abs(), Owned(), Abs();
      while i < |expired|
        invariant i <= |expired| && Valid() && Owned() <= owned
        invariant Abs() == turn == SweepSection(start, expired, i, now, config.timeout, at, walls)
      {
        EraseIfStillExpired(expired[i], now, at, walls[i]);
        turn := SweepOne(turn, expired[i], now, config.timeout, at, walls[i]);
        i := i + 1;
      }
    }

    method StartGracefulShutdown()
      requires Valid()
      modifies this`gracefulShutdownActive
      ensures Valid() && Abs() == old(Abs()).(active := true)
    {
      gracefulShutdownActive := true;
    }

    /** The choosing half of a shutdown iteration: some key, or nothing left to do. */
    method ChooseVictim() returns (victim: Option<string>)
      requires Valid()
      modifies this`gracefulShutdownActive
      ensures Valid()
      ensures victim.None? <==> Contents() == map[]
      ensures victim.Some? ==> victim.value in Contents()
      ensures Abs() == if victim.None? then old(Abs()).(active := false) else old(Abs())
    {
      if sessions != map[] {
        var k :| k in sessions;
        assert k in Contents();
        return Some(k);
      }
      gracefulShutdownActive := false;
      return None;
    }

    method ReapVictim(victim: string, ghost at: int, wall: int)
      requires Valid()
      modifies this`sessions, this`log, if cdr == null then {} else {cdr}
      ensures Valid() && Owned() <= old(Owned()) && sessions.Keys == old(sessions.Keys) - {victim}
      ensures Abs() == ReapSection(old(Abs()), victim, at, wall)
      ensures Dropped(old(Abs()), Abs(), victim, Emitted(SessionEvent(victim, GRACEFUL_SHUTDOWN, wall), at))
    {
      ReapMeans(Abs(), victim, at, wall);
      if victim in sessions {
        EraseAndEmit(victim, GRACEFUL_SHUTDOWN, at, wall);
      }
    }
  }

  /** The file behind a manager: it reads back to every event the manager ever emitted, and its
      record counter is their number. */
  lemma FileTellsHistory(m: SessionManager)
    requires m.Valid() && m.cdr != null && CleanCalendar(m.cdr.calendar)
    requires forall e :: e in Events(m.log) ==> ValidImsi(e.imsi)
    ensures ParseFile(m.cdr.file) != None <==> forall e :: e in Events(m.log) ==> Printable(e)
    ensures (forall e :: e in Events(m.log) ==> Printable(e)) ==>
              && ParseFile(m.cdr.file) == Some(ToRecords(m.cdr.calendar, Events(m.log)))
              && m.cdr.totalRecords == |ParseFile(m.cdr.file).value|
  {
    FileReadsBackIff(m.cdr.calendar, Events(m.log));
    if forall e :: e in Events(m.log) ==> Printable(e) {
      FileRoundTrip(m.cdr.calendar, Events(m.log));
    }
  }

  // ---------------------------------------------------------- the scan loop and the scan steps

  /** The keys of the walk, in order, that are expired. */
  function ScanList(t: Table, order: seq<string>, now: int, timeout: nat): seq<string>
  {
    if order == [] then []
    else
      var k := order[|order| - 1];
      ScanList(t, order[..|order| - 1], now, timeout) + if k in t && Expired(t[k], now, timeout) then [k] else []
  }

  lemma ScanListSnoc(t: Table, order: seq<string>, now: int, timeout: nat, k: string)
    ensures ScanList(t, order + [k], now, timeout)
            == ScanList(t, order, now, timeout) + if k in t && Expired(t[k], now, timeout) then [k] else []
  {
    assert (order + [k])[..|order + [k]| - 1] == order;
  }

  ghost predicate Enumerates(order: seq<string>, keys: set<string>)
  {
    && (forall k :: k in order <==> k in keys)
    && forall i, j :: 0 <= i < j < |order| ==> order[i] != order[j]
  }

  function ScanSteps(order: seq<string>, at: int): seq<Step>
  {
    seq(|order|, i requires 0 <= i < |order| => Step(at, ScanOne(order[i])))
  }

  /** The loop is a run of scan steps: after its turns the machine has seen what the loop
      walked and listed what the loop collected. */
  lemma {:induction false} LoopIsScanSteps(cfg: Config, s: State, order: seq<string>, at: int)
    requires s.cleaner.Scanning? && s.cleaner.seen == {} && s.cleaner.list == [] && s.clock == at
    requires forall k :: k in order ==> k in s.shared.sessions
    requires forall i, j :: 0 <= i < j < |order| ==> order[i] != order[j]
    ensures Run(cfg, s, ScanSteps(order, at))
    ensures End(cfg, s, ScanSteps(order, at))
            == s.(cleaner := Scanning(s.cleaner.now, (set k | k in order),
                                     ScanList(s.shared.sessions, order, s.cleaner.now, cfg.timeout)))
    decreases |order|
  {
    if order == [] {
      assert ScanSteps(order, at) == [];
      assert (set k | k in order) == {};
    } else {
      var rest, k := order[..|order| - 1], order[|order| - 1];
      assert forall x :: x in rest ==> x in order;
      LoopIsScanSteps(cfg, s, rest, at);
      assert k in order && k !in rest;
      RunSnoc(cfg, s, ScanSteps(rest, at), Step(at, ScanOne(k)));
      assert ScanSteps(order, at) == ScanSteps(rest, at) + [Step(at, ScanOne(k))];
      assert (set x | x in order) == (set x | x in rest) + {k};
    }
  }
}
