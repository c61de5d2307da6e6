/** The CDR file of a run: read back, it is the run's event list, and replaying it rebuilds the
    session table, except for what was removed by hand. */
module CdrHistory {
  import Imsi
  import opened Sessions
  import opened Machine
  import opened History
  import opened Cdr

  /** Replay of parsed lines: a reader of the file knows only these. */
  function ReplayRecords(rs: seq<Record>): set<string>
  {
    if rs == [] then {}
    else
      var live, r := ReplayRecords(rs[..|rs| - 1]), rs[|rs| - 1];
      match r.action
      case CREATED => live + {r.imsi}
      case REJECTED => live
      case TIMEOUT => live - {r.imsi}
      case GRACEFUL_SHUTDOWN => live - {r.imsi}
  }

  lemma {:induction false} EventsCarryImsis(log: seq<Entry>)
    requires Coherent(log)
    ensures forall e :: e in Events(log) ==> Imsi.ValidImsi(e.imsi)
  {
    if log != [] {
      var rest := log[..|log| - 1];
      assert forall i :: 0 <= i < |rest| ==> log[..i] == rest[..i];
      EventsCarryImsis(rest);
      assert Fits(Replay(rest), log[|log| - 1]);
    }
  }

  /** x's session ended in a manual removal and has not been created since. */
  ghost predicate RemovedLast(log: seq<Entry>, x: string)
  {
    exists i ::
      && 0 <= i < |log| && log[i].Removed? && log[i].removed == x
      && forall j :: i < j < |log| ==> !log[j].Creates(x)
  }

  lemma RemovedLastSnoc(log: seq<Entry>, e: Entry, x: string)
    ensures RemovedLast(log + [e], x) <==> (e.Removed? && e.removed == x) || (RemovedLast(log, x) && !e.Creates(x))
  {
    var next := log + [e];
    assert next[|log|] == e && forall j :: 0 <= j < |log| ==> next[j] == log[j];
    if RemovedLast(log, x) && !e.Creates(x) {
      var i :|
        && 0 <= i < |log| && log[i].Removed? && log[i].removed == x
        && forall j :: i < j < |log| ==> !log[j].Creates(x);
      assert next[i].Removed? && forall j :: i < j < |next| ==> !next[j].Creates(x);
    }
    if RemovedLast(next, x) && !(e.Removed? && e.removed == x) {
      var i :|
        && 0 <= i < |next| && next[i].Removed? && next[i].removed == x
        && forall j :: i < j < |next| ==> !next[j].Creates(x);
      assert !next[|log|].Creates(x);
      assert log[i].Removed? && forall j :: i < j < |log| ==> !next[j].Creates(x);
    }
  }

  /** A reader of the file sees x live exactly when it is, or when its session was removed by
      hand, which left no line. */
  lemma {:induction false} ReaderSees(cal: Calendar, log: seq<Entry>, x: string)
    requires Coherent(log) && forall e :: e in Events(log) ==> Printable(e)
    ensures x in ReplayRecords(ToRecords(cal, Events(log))) <==> x in Replay(log) || RemovedLast(log, x)
    ensures !(x in Replay(log) && RemovedLast(log, x))
  {
    if log != [] {
      var rest, e := log[..|log| - 1], log[|log| - 1];
      assert log == rest + [e];
      assert forall i :: 0 <= i < |rest| ==> log[..i] == rest[..i];
      EventsSnoc(rest, e);
      RemovedLastSnoc(rest, e, x);
      ReaderSees(cal, rest, x);
      assert Fits(Replay(rest), e);
      if e.Emitted? {
        assert Events(log) == Events(rest) + [e.event];
        OneLineMore(cal, Events(rest), e.event);
      } else {
        assert Events(log) == Events(rest);
      }
    }
  }

  /** A printed event acts on the reader's view as it acts on the history's. */
  lemma OneLineMore(cal: Calendar, events: seq<SessionEvent>, e: SessionEvent)
    requires forall ev :: ev in events + [e] ==> Printable(ev)
    ensures forall ev :: ev in events ==> Printable(ev)
    ensures ReplayRecords(ToRecords(cal, events + [e]))
            == ReplayOne(ReplayRecords(ToRecords(cal, events)), Emitted(e, 0))
  {
    assert forall ev :: ev in events ==> ev in events + [e];
    assert e in events + [e];
    assert ToRecords(cal, events + [e]) == ToRecords(cal, events) + [ToRecord(cal, e)];
    RecordsSnoc(ToRecords(cal, events), ToRecord(cal, e));
  }

  lemma RecordsSnoc(rs: seq<Record>, r: Record)
    ensures ReplayRecords(rs + [r]) ==
            match r.action
            case CREATED => ReplayRecords(rs) + {r.imsi}
            case REJECTED => ReplayRecords(rs)
            case TIMEOUT => ReplayRecords(rs) - {r.imsi}
            case GRACEFUL_SHUTDOWN => ReplayRecords(rs) - {r.imsi}
  {
    assert (rs + [r])[..|rs + [r]| - 1] == rs;
  }

  /** Every event is stamped with a millisecond remainder that is not negative, as any time past
      the epoch has. */
  predicate Legible(log: seq<Entry>) { forall e :: e in Events(log) ==> Printable(e) }

  /** Replay of the file of a legible history. */
  function FileReplay(cal: Calendar, log: seq<Entry>): set<string>
    requires Legible(log)
  {
    ReplayRecords(ToRecords(cal, Events(log)))
  }

  lemma ReplayMatchesIff(cal: Calendar, sh: Shared)
    requires HistoryOk(sh) && Legible(sh.log)
    ensures FileReplay(cal, sh.log) == sh.sessions.Keys <==> forall x :: !RemovedLast(sh.log, x)
  {
    var read := FileReplay(cal, sh.log);
    forall x ensures x in read <==> x in sh.sessions.Keys || RemovedLast(sh.log, x)
             ensures !(x in sh.sessions.Keys && RemovedLast(sh.log, x))
    {
      ReaderSees(cal, sh.log, x);
    }
    if x :| RemovedLast(sh.log, x) {
      assert x in read && x !in sh.sessions.Keys;
    }
  }

  /** The log text of any run can be read back exactly when its history is legible. It then
      parses to exactly the run's events, and its replay gives the keys of the table exactly
      when no session was last ended by hand. */
  lemma FileRebuildsTable(cfg: Config, start: int, blacklist: set<string>, steps: seq<Step>, cal: Calendar)
    requires Run(cfg, Initial(start, blacklist), steps) && CleanCalendar(cal)
    ensures var sh := End(cfg, Initial(start, blacklist), steps).shared;
            var read := ParseFile(FileText(cal, Events(sh.log)));
            && (read != None <==> Legible(sh.log))
            && (Legible(sh.log) ==>
                  && read == Some(ToRecords(cal, Events(sh.log)))
                  && (FileReplay(cal, sh.log) == sh.sessions.Keys <==> forall x :: !RemovedLast(sh.log, x)))
  {
    var sh := End(cfg, Initial(start, blacklist), steps).shared;
    RunKeepsHistory(cfg, Initial(start, blacklist), steps);
    EventsCarryImsis(sh.log);
    FileReadsBackIff(cal, Events(sh.log));
    if Legible(sh.log) {
      FileRoundTrip(cal, Events(sh.log));
      ReplayMatchesIff(cal, sh);
    }
  }

  predicate NoRemovals(log: seq<Entry>) { forall i :: 0 <= i < |log| ==> !log[i].Removed? }

  lemma {:induction false} RunWithoutRemove(cfg: Config, s: State, steps: seq<Step>)
    requires Run(cfg, s, steps) && NoRemovals(s.shared.log)
    requires forall i :: 0 <= i < |steps| ==> !steps[i].act.Remove?
    ensures NoRemovals(End(cfg, s, steps).shared.log)
    decreases |steps|
  {
    if steps != [] {
      if steps[0].act.Sweep? { SweepStepErases(cfg, s, steps[0]); }
      assert s.shared.log <= Next(cfg, s, steps[0]).shared.log;
      assert NoRemovals(Next(cfg, s, steps[0]).shared.log);
      assert forall i :: 0 <= i < |steps[1..]| ==> steps[1..][i] == steps[i + 1];
      RunWithoutRemove(cfg, Next(cfg, s, steps[0]), steps[1..]);
    }
  }

  /** The server itself never calls remove_session; then a file that can be read rebuilds the
      table alone. */
  lemma FileAloneRebuildsTable(cfg: Config, start: int, blacklist: set<string>, steps: seq<Step>, cal: Calendar)
    requires Run(cfg, Initial(start, blacklist), steps) && CleanCalendar(cal)
    requires forall i :: 0 <= i < |steps| ==> !steps[i].act.Remove?
    ensures var sh := End(cfg, Initial(start, blacklist), steps).shared;
            var read := ParseFile(FileText(cal, Events(sh.log)));
            && (read != None <==> Legible(sh.log))
            && (read.Some? ==> ReplayRecords(read.value) == sh.sessions.Keys)
  {
    FileRebuildsTable(cfg, start, blacklist, steps, cal);
    RunWithoutRemove(cfg, Initial(start, blacklist), steps);
  }
}
