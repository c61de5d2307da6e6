/** Data of the session manager (src/session_manager.h) and, as functions on values, what each
    of its critical sections does to the shared state (src/session_manager.cpp). Times are
    integer nanoseconds: `at` is read from the steady clock inside the section, `wall` from
    the system clock when an event is emitted. */
module Sessions {
  import opened Imsi

  datatype Option<T> = None | Some(value: T)

  datatype SessionAction = CREATED | REJECTED | TIMEOUT | GRACEFUL_SHUTDOWN

  datatype SessionEvent = SessionEvent(imsi: string, action: SessionAction, timestamp: int)

  datatype CreateResult = Created | AlreadyExists | Blacklisted

  /** The fields of one Session. */
  datatype SessionInfo = SessionInfo(imsi: string, createdAt: int, lastActivity: int)

  type Table = map<string, SessionInfo>

  /** One entry of the history: an emitted event, or a manual removal, which emits nothing. */
  datatype Entry = Emitted(event: SessionEvent, at: int) | Removed(removed: string, at: int) {
    predicate Creates(x: string) { Emitted? && event.action == CREATED && event.imsi == x }

    predicate Ends(x: string) {
      match this
      case Emitted(e, _) => (e.action == TIMEOUT || e.action == GRACEFUL_SHUTDOWN) && e.imsi == x
      case Removed(y, _) => y == x
    }

    predicate Is(action: SessionAction) { Emitted? && event.action == action }
  }

  /** What the history hands to the event callback. */
  function Events(log: seq<Entry>): seq<SessionEvent>
  {
    if log == [] then []
    else Events(log[..|log| - 1]) + if log[|log| - 1].Emitted? then [log[|log| - 1].event] else []
  }

  lemma EventsSnoc(log: seq<Entry>, e: Entry)
    ensures Events(log + [e]) == Events(log) + if e.Emitted? then [e.event] else []
  {
    assert (log + [e])[..|log + [e]| - 1] == log;
  }

  /** What the locks protect, with the history beside it. */
  datatype Shared = Shared(sessions: Table, blacklist: set<string>, active: bool, log: seq<Entry>)

  function Emit(sh: Shared, imsi: string, action: SessionAction, at: int, wall: int): Shared
  {
    sh.(log := sh.log + [Emitted(SessionEvent(imsi, action, wall), at)])
  }

  /** create_session up to and including the blacklist check; true when the call goes on. */
  function CheckSection(sh: Shared, imsi: string, at: int, wall: int): (Shared, bool)
  {
    if !ValidImsi(imsi) then (sh, false)
    else if imsi in sh.blacklist then (Emit(sh, imsi, REJECTED, at, wall), false)
    else (sh, true)
  }

  /** create_session under sessions_mutex_. The constructor of Session reads the clock twice:
      `created`, then `at`. */
  function UpdateSection(sh: Shared, imsi: string, created: int, at: int, wall: int): (Shared, CreateResult)
  {
    if imsi in sh.sessions then
      (sh.(sessions := sh.sessions[imsi := sh.sessions[imsi].(lastActivity := at)]), AlreadyExists)
    else
      (Emit(sh.(sessions := sh.sessions[imsi := SessionInfo(imsi, created, at)]), imsi, CREATED, at, wall), Created)
  }

  function RefreshSection(sh: Shared, imsi: string, at: int): Shared
  {
    if imsi in sh.sessions then
      sh.(sessions := sh.sessions[imsi := sh.sessions[imsi].(lastActivity := at)])
    else sh
  }

  function RemoveSection(sh: Shared, imsi: string, at: int): Shared
  {
    if imsi in sh.sessions then sh.(sessions := sh.sessions - {imsi}, log := sh.log + [Removed(imsi, at)])
    else sh
  }

  predicate Expired(info: SessionInfo, now: int, timeout: nat) { now - info.lastActivity >= timeout }

  /** One turn of the erase loop of cleanup_thread. */
  function SweepOne(sh: Shared, imsi: string, now: int, timeout: nat, at: int, wall: int): Shared
  {
    if imsi in sh.sessions && Expired(sh.sessions[imsi], now, timeout) then
      Emit(sh.(sessions := sh.sessions - {imsi}), imsi, TIMEOUT, at, wall)
    else sh
  }

  /** The first n turns of the erase loop over the list the scan collected. */
  function SweepSection(sh: Shared, list: seq<string>, n: nat, now: int, timeout: nat, at: int, walls: seq<int>): Shared
    requires n <= |list| == |walls|
  {
    if n == 0 then sh
    else SweepOne(SweepSection(sh, list, n - 1, now, timeout, at, walls), list[n - 1], now, timeout, at, walls[n - 1])
  }

  /** The erasing half of one shutdown iteration. */
  function ReapSection(sh: Shared, victim: string, at: int, wall: int): Shared
  {
    if victim in sh.sessions then
      Emit(sh.(sessions := sh.sessions - {victim}), victim, GRACEFUL_SHUTDOWN, at, wall)
    else sh
  }

  // ----------------------------------------------------- what the sections mean to their callers

  /** Nothing changed but the entry of x. */
  predicate OnlyTouches(before: Table, after: Table, x: string) { before - {x} == after - {x} }

  /** Outside the table and the history nothing changed. */
  predicate SameFlags(before: Shared, after: Shared)
  {
    before.blacklist == after.blacklist && before.active == after.active
  }

  /** create_session's update: "created" exactly for an IMSI without a session, which gets a fresh
      one that is logged; the session of any other is re-stamped, and keeps its creation time. */
  ghost predicate Updated(before: Shared, after: Shared, r: CreateResult, imsi: string, created: int, at: int,
                          wall: int)
  {
    && r != Blacklisted && (r == Created <==> imsi !in before.sessions)
    && SameFlags(before, after) && OnlyTouches(before.sessions, after.sessions, imsi) && imsi in after.sessions
    && (r == Created ==>
          && after.sessions[imsi] == SessionInfo(imsi, created, at)
          && after.log == before.log + [Emitted(SessionEvent(imsi, CREATED, wall), at)])
    && (r == AlreadyExists ==> Restamped(before, after, imsi, at))
  }

  /** The session of imsi is stamped now, and nothing else changes. */
  ghost predicate Restamped(before: Shared, after: Shared, imsi: string, at: int)
  {
    && imsi in before.sessions && imsi in after.sessions
    && OnlyTouches(before.sessions, after.sessions, imsi)
    && after.sessions[imsi].lastActivity == at
    && after.sessions[imsi].createdAt == before.sessions[imsi].createdAt
    && after.sessions[imsi].imsi == before.sessions[imsi].imsi
    && SameFlags(before, after) && after.log == before.log
  }

  /** The session of imsi, if there was one, is gone and its end on record; nothing else changes. */
  ghost predicate Dropped(before: Shared, after: Shared, imsi: string, e: Entry)
  {
    && imsi !in after.sessions && OnlyTouches(before.sessions, after.sessions, imsi) && SameFlags(before, after)
    && after.log == before.log + if imsi in before.sessions then [e] else []
  }

  /** The check: it lets through exactly the valid IMSIs that are not blacklisted, and records
      the valid ones it does not. */
  ghost predicate Screened(before: Shared, after: Shared, passed: bool, imsi: string, at: int, wall: int)
  {
    && (passed <==> ValidImsi(imsi) && imsi !in before.blacklist)
    && after.sessions == before.sessions && SameFlags(before, after)
    && after.log == before.log + if ValidImsi(imsi) && imsi in before.blacklist
                                 then [Emitted(SessionEvent(imsi, REJECTED, wall), at)] else []
  }

  lemma CheckMeans(sh: Shared, imsi: string, at: int, wall: int)
    ensures var (sh', passed) := CheckSection(sh, imsi, at, wall); Screened(sh, sh', passed, imsi, at, wall)
  {
  }

  lemma UpdateMeans(sh: Shared, imsi: string, created: int, at: int, wall: int)
    ensures var (sh', r) := UpdateSection(sh, imsi, created, at, wall); Updated(sh, sh', r, imsi, created, at, wall)
  {
  }

  lemma RefreshMeans(sh: Shared, imsi: string, at: int)
    ensures var sh' := RefreshSection(sh, imsi, at);
            if imsi in sh.sessions then Restamped(sh, sh', imsi, at) else sh' == sh
  {
  }

  lemma RemoveMeans(sh: Shared, imsi: string, at: int)
    ensures Dropped(sh, RemoveSection(sh, imsi, at), imsi, Removed(imsi, at))
  {
  }

  lemma ReapMeans(sh: Shared, victim: string, at: int, wall: int)
    ensures var e := Emitted(SessionEvent(victim, GRACEFUL_SHUTDOWN, wall), at);
            Dropped(sh, ReapSection(sh, victim, at, wall), victim, e)
  {
  }

  /** The reference: a sweep that decides and erases under a single lock. */
  function OneLockSweep(t: Table, now: int, timeout: nat): Table
  {
    map k | k in t && !Expired(t[k], now, timeout) :: t[k]
  }

  /** Exactly the listed sessions that are expired on the re-check go, each with one TIMEOUT. */
  lemma SweepErasesListedExpired(sh: Shared, list: seq<string>, n: nat, now: int, timeout: nat, at: int,
                                 walls: seq<int>)
    requires n <= |list| == |walls|
    ensures var sh' := SweepSection(sh, list, n, now, timeout, at, walls);
            && sh' == sh.(sessions := sh'.sessions, log := sh'.log)
            && sh'.sessions == (map k | k in sh.sessions && !(k in list[..n] && Expired(sh.sessions[k], now, timeout))
                               :: sh.sessions[k])
            && TimeoutsFor(sh.log, sh'.log, sh.sessions.Keys - sh'.sessions.Keys, at)
            && TimedBy(sh.log, sh'.log, list, n, walls)
  {
    SweepLeaves(sh, list, n, now, timeout, at, walls);
    SweepLogs(sh, list, n, now, timeout, at, walls);
    SweepIsTimed(sh, list, n, now, timeout, at, walls);
  }

  lemma {:induction false} SweepLeaves(sh: Shared, list: seq<string>, n: nat, now: int, timeout: nat, at: int,
                                       walls: seq<int>)
    requires n <= |list| == |walls|
    ensures var sh' := SweepSection(sh, list, n, now, timeout, at, walls);
            && sh' == sh.(sessions := sh'.sessions, log := sh'.log)
            && sh'.sessions == (map k | k in sh.sessions && !(k in list[..n] && Expired(sh.sessions[k], now, timeout))
                               :: sh.sessions[k])
  {
    if n > 0 {
      SweepLeaves(sh, list, n - 1, now, timeout, at, walls);
      assert list[..n] == list[..n - 1] + [list[n - 1]];
    }
  }

  lemma {:induction false} SweepLogs(sh: Shared, list: seq<string>, n: nat, now: int, timeout: nat, at: int,
                                     walls: seq<int>)
    requires n <= |list| == |walls|
    ensures var sh' := SweepSection(sh, list, n, now, timeout, at, walls);
            TimeoutsFor(sh.log, sh'.log, sh.sessions.Keys - sh'.sessions.Keys, at)
  {
    if n > 0 {
      SweepLogs(sh, list, n - 1, now, timeout, at, walls);
      SweepLeaves(sh, list, n - 1, now, timeout, at, walls);
      var mid := SweepSection(sh, list, n - 1, now, timeout, at, walls);
      var x := list[n - 1];
      if x in mid.sessions && Expired(mid.sessions[x], now, timeout) {
        var sh' := SweepOne(mid, x, now, timeout, at, walls[n - 1]);
        assert sh.sessions.Keys - sh'.sessions.Keys == sh.sessions.Keys - mid.sessions.Keys + {x};
        TimeoutsForOneMore(sh.log, mid.log, sh.sessions.Keys - mid.sessions.Keys, at, x, walls[n - 1]);
      }
    }
  }

  lemma {:induction false} SweepIsTimed(sh: Shared, list: seq<string>, n: nat, now: int, timeout: nat, at: int,
                                        walls: seq<int>)
    requires n <= |list| == |walls|
    ensures TimedBy(sh.log, SweepSection(sh, list, n, now, timeout, at, walls).log, list, n, walls)
  {
    if n > 0 {
      SweepIsTimed(sh, list, n - 1, now, timeout, at, walls);
      var log := SweepSection(sh, list, n - 1, now, timeout, at, walls).log;
      assert TimedBy(sh.log, log, list, n, walls);
    }
  }

  /** `after` is `before` followed by one TIMEOUT entry, made at `at`, for each IMSI in `gone`. */
  ghost predicate TimeoutsFor(before: seq<Entry>, after: seq<Entry>, gone: set<string>, at: int)
  {
    && before <= after
    && (forall i :: |before| <= i < |after| ==>
          after[i].Is(TIMEOUT) && after[i].at == at && after[i].event.imsi in gone)
    && (forall i, j :: |before| <= i < j < |after| ==> after[i].event.imsi != after[j].event.imsi)
    && (forall x :: x in gone ==> exists i :: |before| <= i < |after| && after[i].event.imsi == x)
  }

  /** The event of each new entry bears the system-clock reading made on its turn of the loop. */
  ghost predicate TimedBy(before: seq<Entry>, after: seq<Entry>, list: seq<string>, n: nat, walls: seq<int>)
    requires n <= |list| == |walls|
  {
    forall i :: |before| <= i < |after| ==>
      after[i].Emitted?
      && exists j :: 0 <= j < n && list[j] == after[i].event.imsi && walls[j] == after[i].event.timestamp
  }

  lemma TimeoutsForOneMore(before: seq<Entry>, after: seq<Entry>, gone: set<string>, at: int, x: string, wall: int)
    requires TimeoutsFor(before, after, gone, at) && x !in gone
    ensures TimeoutsFor(before, after + [Emitted(SessionEvent(x, TIMEOUT, wall), at)], gone + {x}, at)
  {
    var next := after + [Emitted(SessionEvent(x, TIMEOUT, wall), at)];
    forall y | y in gone + {x} ensures exists i :: |before| <= i < |next| && next[i].event.imsi == y {
      if y == x {
        assert next[|after|].event.imsi == y;
      } else {
        var i :| |before| <= i < |after| && after[i].event.imsi == y;
        assert next[i].event.imsi == y;
      }
    }
  }
}
