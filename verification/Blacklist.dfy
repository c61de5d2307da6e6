/** Blacklist safety when create_session is two critical sections under different locks. */
module Blacklist {
  import opened Imsi
  import opened Machine

  /** Call c has passed the check for x and is on its way to the table. */
  predicate InFlight(s: State, c: nat, x: string) { c in s.calls && s.calls[c] == x }

  predicate NeverUnbans(steps: seq<Step>, x: string)
  {
    forall i :: 0 <= i < |steps| ==> steps[i].act != Unban(x)
  }

  /** Step i of the run is call c reaching the table for x, to insert or to refresh. */
  predicate ActsFor(cfg: Config, s: State, steps: seq<Step>, i: nat, c: nat, x: string)
    requires i < |steps| && Run(cfg, s, steps[..i])
  {
    steps[i].act.Update? && steps[i].act.call == c && InFlight(End(cfg, s, steps[..i]), c, x)
  }

  /** While x stays banned, a call not already past the check for x does not get past it. */
  lemma {:induction false} BannedStaysOut(cfg: Config, s: State, steps: seq<Step>, x: string, c: nat)
    requires Run(cfg, s, steps) && NeverUnbans(steps, x)
    requires x in s.shared.blacklist && !InFlight(s, c, x)
    ensures x in End(cfg, s, steps).shared.blacklist && !InFlight(End(cfg, s, steps), c, x)
    decreases |steps|
  {
    if steps != [] {
      var s' := Next(cfg, s, steps[0]);
      assert steps[0].act != Unban(x);
      BanHolds(cfg, s, steps[0], x, c);
      assert forall i :: 0 <= i < |steps[1..]| ==> steps[1..][i] == steps[i + 1];
      BannedStaysOut(cfg, s', steps[1..], x, c);
    }
  }

  lemma BanHolds(cfg: Config, s: State, st: Step, x: string, c: nat)
    requires Allowed(cfg, s, st) && st.act != Unban(x)
    requires x in s.shared.blacklist && !InFlight(s, c, x)
    ensures x in Next(cfg, s, st).shared.blacklist && !InFlight(Next(cfg, s, st), c, x)
  {
    if st.act.Sweep? {
      SweepStepErases(cfg, s, st);
    }
  }

  /** After x is banned, and with no later unban, a call that starts later never inserts or
      refreshes x. */
  lemma LaterCallsNeverAct(cfg: Config, s: State, steps: seq<Step>, x: string, c: nat, i: nat)
    requires Run(cfg, s, steps) && NeverUnbans(steps, x) && i < |steps|
    requires x in s.shared.blacklist && !InFlight(s, c, x)
    ensures Run(cfg, s, steps[..i]) && !ActsFor(cfg, s, steps, i, c, x)
  {
    RunPrefix(cfg, s, steps, i);
    BannedStaysOut(cfg, s, steps[..i], x, c);
  }

  /** If moreover no call for x was in flight when the ban fell, no session of x is created. */
  lemma {:induction false} BannedNeverCreated(cfg: Config, s: State, steps: seq<Step>, x: string)
    requires Run(cfg, s, steps) && NeverUnbans(steps, x)
    requires x in s.shared.blacklist && forall c :: !InFlight(s, c, x)
    ensures s.shared.log <= End(cfg, s, steps).shared.log
    ensures var log := End(cfg, s, steps).shared.log;
            forall i :: |s.shared.log| <= i < |log| ==> !log[i].Creates(x)
    ensures x !in s.shared.sessions ==> x !in End(cfg, s, steps).shared.sessions
    decreases |steps|
  {
    if steps != [] {
      var s' := Next(cfg, s, steps[0]);
      assert steps[0].act != Unban(x);
      forall c ensures !InFlight(s', c, x) { BanHolds(cfg, s, steps[0], x, c); }
      BanHolds(cfg, s, steps[0], x, 0);
      NoCreationOf(cfg, s, steps[0], x);
      assert forall i :: 0 <= i < |steps[1..]| ==> steps[1..][i] == steps[i + 1];
      BannedNeverCreated(cfg, s', steps[1..], x);
    }
  }

  lemma NoCreationOf(cfg: Config, s: State, st: Step, x: string)
    requires Allowed(cfg, s, st) && forall c :: !InFlight(s, c, x)
    ensures s.shared.log <= Next(cfg, s, st).shared.log
    ensures var log := Next(cfg, s, st).shared.log;
            forall i :: |s.shared.log| <= i < |log| ==> !log[i].Creates(x)
    ensures x !in s.shared.sessions ==> x !in Next(cfg, s, st).shared.sessions
  {
    match st.act
    case Sweep(_) => SweepStepErases(cfg, s, st);
    case Update(c, _, _) => assert !InFlight(s, c, x);
    case _ =>
  }

  // ---------------------------------------------- when a banned IMSI can still gain a session

  predicate ScanAct(act: Act) { act.ScanOne? || act.EndScan? }

  /** A scan in progress can always be finished, which frees the lock and changes nothing else. */
  lemma {:induction false} FinishScan(cfg: Config, s: State) returns (steps: seq<Step>)
    requires s.cleaner.Scanning? && ScanOk(s)
    ensures Run(cfg, s, steps) && forall i :: 0 <= i < |steps| ==> ScanAct(steps[i].act)
    ensures var s' := End(cfg, s, steps);
            !s'.cleaner.Scanning? && s'.clock == s.clock && s'.shared == s.shared && s'.calls == s.calls
    decreases s.shared.sessions.Keys - s.cleaner.seen
  {
    var rest := s.shared.sessions.Keys - s.cleaner.seen;
    var st: Step;
    if rest == {} {
      assert forall k :: k in s.shared.sessions.Keys && k !in s.cleaner.seen ==> k in rest;
      st := Step(s.clock, EndScan);
      var s' := Next(cfg, s, st);
      assert Run(cfg, s', []) && End(cfg, s', []) == s';
      steps := [];
    } else {
      var k :| k in rest;
      st := Step(s.clock, ScanOne(k));
      steps := FinishScan(cfg, Next(cfg, s, st));
    }
    assert ([st] + steps)[1..] == steps;
    steps := [st] + steps;
  }

  /** A call past its check reaches the table, whatever has been banned meanwhile. */
  lemma InFlightGetsThrough(cfg: Config, s: State, c: nat, x: string) returns (steps: seq<Step>)
    requires ScanOk(s) && InFlight(s, c, x)
    ensures Run(cfg, s, steps) && NeverUnbans(steps, x)
    ensures x in End(cfg, s, steps).shared.sessions
  {
    steps := [];
    if s.cleaner.Scanning? {
      steps := FinishScan(cfg, s);
      assert forall i :: 0 <= i < |steps| ==> ScanAct(steps[i].act);
    }
    var st := Step(s.clock, Update(c, s.clock, 0));
    RunSnoc(cfg, s, steps, st);
    steps := steps + [st];
  }

  /** Some continuation without an unban of x ends with a session of x. */
  ghost predicate CanHaveSession(cfg: Config, s: State, x: string)
  {
    exists steps :: Run(cfg, s, steps) && NeverUnbans(steps, x) && x in End(cfg, s, steps).shared.sessions
  }

  lemma CanHaveSessionIff(cfg: Config, s: State, x: string)
    requires ScanOk(s) && x in s.shared.blacklist
    ensures CanHaveSession(cfg, s, x) <==> x in s.shared.sessions || exists c :: InFlight(s, c, x)
  {
    if x in s.shared.sessions {
      assert Run(cfg, s, []) && NeverUnbans([], x) && x in End(cfg, s, []).shared.sessions;
    } else if c :| InFlight(s, c, x) {
      var steps := InFlightGetsThrough(cfg, s, c, x);
    } else if CanHaveSession(cfg, s, x) {
      var steps :| Run(cfg, s, steps) && NeverUnbans(steps, x) && x in End(cfg, s, steps).shared.sessions;
      BannedNeverCreated(cfg, s, steps, x);
    }
  }

  /** In any reachable state, a banned IMSI can have a session, now or before it is unbanned, if
      and only if it has one now or a call for it had passed its check. */
  lemma BannedHasSessionIff(cfg: Config, start: int, blacklist: set<string>, before: seq<Step>, x: string)
    requires Run(cfg, Initial(start, blacklist), before)
    requires x in End(cfg, Initial(start, blacklist), before).shared.blacklist
    ensures var s := End(cfg, Initial(start, blacklist), before);
            CanHaveSession(cfg, s, x) <==> x in s.shared.sessions || exists c :: InFlight(s, c, x)
  {
    RunKeepsScanOk(cfg, Initial(start, blacklist), before);
    CanHaveSessionIff(cfg, End(cfg, Initial(start, blacklist), before), x);
  }

  /** So a ban made in any reachable state takes full effect, for as long as it lasts, if and
      only if at that moment its IMSI has neither a session nor a call past its check. */
  lemma BanIsEffectiveIff(cfg: Config, start: int, blacklist: set<string>, before: seq<Step>, at: int, x: string)
    requires Run(cfg, Initial(start, blacklist), before)
    requires Allowed(cfg, End(cfg, Initial(start, blacklist), before), Step(at, Ban(x)))
    ensures var s := End(cfg, Initial(start, blacklist), before);
            !CanHaveSession(cfg, Next(cfg, s, Step(at, Ban(x))), x)
            <==> x !in s.shared.sessions && forall c :: !InFlight(s, c, x)
  {
    var s := End(cfg, Initial(start, blacklist), before);
    var s' := Next(cfg, s, Step(at, Ban(x)));
    RunKeepsScanOk(cfg, Initial(start, blacklist), before);
    CanHaveSessionIff(cfg, s', x);
    assert forall c :: InFlight(s', c, x) <==> InFlight(s, c, x);
  }

  // ------------------------------------------------------------------------ disjointness

  /** No banned IMSI has a session or is on its way to one. */
  predicate Clear(s: State)
  {
    && s.shared.sessions.Keys !! s.shared.blacklist
    && forall c :: c in s.calls ==> s.calls[c] !in s.shared.blacklist
  }

  /** The step bans an IMSI that has a session or a call in flight. */
  predicate BansLive(s: State, st: Step)
  {
    st.act.Ban? && (st.act.imsi in s.shared.sessions || exists c :: c in s.calls && s.calls[c] == st.act.imsi)
  }

  /** Banning an IMSI with a session or a call in flight is the one step that breaks Clear. */
  lemma StepKeepsClearIff(cfg: Config, s: State, st: Step)
    requires Clear(s) && Allowed(cfg, s, st)
    ensures Clear(Next(cfg, s, st)) <==> !BansLive(s, st)
  {
    var s' := Next(cfg, s, st);
    match st.act
    case Sweep(_) => SweepStepErases(cfg, s, st);
    case Update(c, _, _) =>
      assert s'.shared.sessions.Keys == s.shared.sessions.Keys + {s.calls[c]};
    case Ban(x) =>
      if BansLive(s, st) {
        assert x in s'.shared.blacklist;
        if x in s.shared.sessions { assert x in s'.shared.sessions.Keys; }
      }
    case Refresh(x) => assert s'.shared.sessions.Keys == s.shared.sessions.Keys;
    case _ =>
  }

  predicate NeverBansLive(cfg: Config, s: State, steps: seq<Step>)
    requires Run(cfg, s, steps)
    decreases |steps|
  {
    steps != [] ==> !BansLive(s, steps[0]) && NeverBansLive(cfg, Next(cfg, s, steps[0]), steps[1..])
  }

  lemma {:induction false} RunKeepsClear(cfg: Config, s: State, steps: seq<Step>)
    requires Clear(s) && Run(cfg, s, steps) && NeverBansLive(cfg, s, steps)
    ensures Clear(End(cfg, s, steps))
    decreases |steps|
  {
    if steps != [] {
      StepKeepsClearIff(cfg, s, steps[0]);
      RunKeepsClear(cfg, Next(cfg, s, steps[0]), steps[1..]);
    }
  }

  lemma {:induction false} NoBansAtAll(cfg: Config, s: State, steps: seq<Step>)
    requires Run(cfg, s, steps) && forall i :: 0 <= i < |steps| ==> !steps[i].act.Ban?
    ensures NeverBansLive(cfg, s, steps)
    decreases |steps|
  {
    if steps != [] {
      assert forall i :: 0 <= i < |steps[1..]| ==> steps[1..][i] == steps[i + 1];
      NoBansAtAll(cfg, Next(cfg, s, steps[0]), steps[1..]);
    }
  }

  /** With no IMSI added after construction, no blacklisted IMSI ever has a session. */
  lemma FixedBlacklistHasNoSessions(cfg: Config, start: int, blacklist: set<string>, steps: seq<Step>)
    requires Run(cfg, Initial(start, blacklist), steps)
    requires forall i :: 0 <= i < |steps| ==> !steps[i].act.Ban?
    ensures var sh := End(cfg, Initial(start, blacklist), steps).shared; sh.sessions.Keys !! sh.blacklist
  {
    NoBansAtAll(cfg, Initial(start, blacklist), steps);
    RunKeepsClear(cfg, Initial(start, blacklist), steps);
  }

  /** An IMSI blacklisted by the configuration has no session until it is taken off the list. */
  lemma ConfiguredBanHolds(cfg: Config, start: int, blacklist: set<string>, steps: seq<Step>, x: string)
    requires Run(cfg, Initial(start, blacklist), steps) && x in blacklist && NeverUnbans(steps, x)
    ensures var sh := End(cfg, Initial(start, blacklist), steps).shared; x in sh.blacklist && x !in sh.sessions
  {
    var s0 := Initial(start, blacklist);
    BannedStaysOut(cfg, s0, steps, x, 0);
    BannedNeverCreated(cfg, s0, steps, x);
  }

  /** A later addition may come too late: the ban falls between the check and the table update of
      one call, and the banned IMSI gets its session, with no session of it there before. */
  lemma RacingBanIsMissed(cfg: Config) returns (steps: seq<Step>)
    ensures Run(cfg, Initial(0, {}), steps) && |steps| == 3 && steps[1].act == Ban("1")
    ensures "1" in End(cfg, Initial(0, {}), steps).shared.sessions
    ensures "1" in End(cfg, Initial(0, {}), steps).shared.blacklist
  {
    var s0 := Initial(0, {});
    steps := [Step(0, Check(0, "1", 0))];
    assert Run(cfg, s0, []);
    RunSnoc(cfg, s0, [], steps[0]);
    assert [] + steps == steps;
    RunSnoc(cfg, s0, steps, Step(0, Ban("1")));
    steps := steps + [Step(0, Ban("1"))];
    RunSnoc(cfg, s0, steps, Step(0, Update(0, 0, 0)));
    steps := steps + [Step(0, Update(0, 0, 0))];
  }

  // ------------------------------------------------------------------------- unbanning

  predicate KeepsBlacklist(steps: seq<Step>)
  {
    forall i :: 0 <= i < |steps| ==> !steps[i].act.Ban? && !steps[i].act.Unban?
  }

  /** An IMSI can be given a session again, without a change of the blacklist. */
  ghost predicate Readmitted(cfg: Config, s: State, x: string)
  {
    exists steps :: Run(cfg, s, steps) && KeepsBlacklist(steps) && x in End(cfg, s, steps).shared.sessions
  }

  lemma CreatesFor(cfg: Config, s: State, x: string) returns (steps: seq<Step>)
    requires ScanOk(s) && ValidImsi(x) && x !in s.shared.blacklist
    ensures Run(cfg, s, steps) && KeepsBlacklist(steps)
    ensures x in End(cfg, s, steps).shared.sessions
  {
    var c := FreshCall(s.calls.Keys);
    var check := Step(s.clock, Check(c, x, 0));
    var s1 := Next(cfg, s, check);
    StepKeepsScanOk(cfg, s, check);
    assert Run(cfg, s, []) && [] + [check] == [check];
    RunSnoc(cfg, s, [], check);
    var rest := [];
    if s1.cleaner.Scanning? {
      rest := FinishScan(cfg, s1);
      assert forall i :: 0 <= i < |rest| ==> ScanAct(rest[i].act);
    }
    RunSnoc(cfg, s1, rest, Step(s.clock, Update(c, s.clock, 0)));
    rest := rest + [Step(s.clock, Update(c, s.clock, 0))];
    RunConcat(cfg, s, [check], rest);
    steps := [check] + rest;
  }

  lemma {:induction false} FreshCall(used: set<nat>) returns (c: nat)
    ensures forall d :: d in used ==> d < c
  {
    c := 0;
    if used != {} {
      var d :| d in used;
      var rest := FreshCall(used - {d});
      c := if rest > d then rest else d + 1;
      assert forall e :: e in used ==> e == d || e in used - {d};
    }
  }

  /** Lifting a ban in any reachable state admits the IMSI again, if it is one at all. */
  lemma UnbanReadmitsIff(cfg: Config, start: int, blacklist: set<string>, before: seq<Step>, at: int, x: string)
    requires Run(cfg, Initial(start, blacklist), before)
    requires Allowed(cfg, End(cfg, Initial(start, blacklist), before), Step(at, Unban(x)))
    ensures var s := End(cfg, Initial(start, blacklist), before);
            Readmitted(cfg, Next(cfg, s, Step(at, Unban(x))), x) <==> ValidImsi(x)
  {
    var s0, unban := Initial(start, blacklist), Step(at, Unban(x));
    var s' := Next(cfg, End(cfg, s0, before), unban);
    RunKeepsScanOk(cfg, s0, before);
    RunKeepsTableOk(cfg, s0, before);
    if ValidImsi(x) {
      var steps := CreatesFor(cfg, s', x);
    } else if Readmitted(cfg, s', x) {
      var steps :| Run(cfg, s', steps) && KeepsBlacklist(steps) && x in End(cfg, s', steps).shared.sessions;
      RunKeepsTableOk(cfg, s', steps);
    }
  }
}
