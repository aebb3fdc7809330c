/** Duplicate suppression over whole runs: services/crash.py and repositories/crash.py. */
module Ingestion {
  import opened Wrappers
  import opened Arithmetic
  import opened Sets
  import opened CrashDatabase
  import opened GroupAccounting

  function Gap(a: int, b: int): nat { if a < b then b - a else a - b }

  /** From the same device, of the same fault type and at the same program counter, which both
      may lack. */
  predicate Alike(a: Fault, b: Fault) { a.device == b.device && a.faultType == b.faultType && a.pc == b.pc }

  /** Two stored reports of one crash lie more than a minute apart. */
  ghost predicate Separated(db: Database) {
    forall r, s :: r in db.reports && s in db.reports && r != s && Alike(db.reports[r].fault, db.reports[s].fault) ==>
      Gap(db.reports[r].fault.occurredAt, db.reports[s].fault.occurredAt) > 60_000_000
  }

  /** Steps other than ingestion store no new fault and change none. */
  lemma FaultsOnlyComeFromIngestion(db: Database, e: Event, hash: string -> string)
    requires Keyed(db) && !e.Ingest?
    ensures forall r :: r in Apply(db, e, hash).reports ==>
              r in db.reports && Apply(db, e, hash).reports[r].fault == db.reports[r].fault
  {
    if e.File? && e.report in db.reports {
      FilingByGroup(db, e.report, e.frames, e.now, hash);
    }
  }

  lemma IngestKeepsSeparated(db: Database, fault: Fault, level: Severity)
    requires Keyed(db) && Separated(db)
    ensures Separated(Ingested(db, fault, level))
  {
    var db' := Ingested(db, fault, level);
    forall r, s | r in db'.reports && s in db'.reports && r != s && Alike(db'.reports[r].fault, db'.reports[s].fault)
      ensures Gap(db'.reports[r].fault.occurredAt, db'.reports[s].fault.occurredAt) > 60_000_000
    {
      if !HasDuplicate(db, fault) {
        var other := if r == db.nextReport then s else r;
        assert other in db.reports;
        assert !Duplicates(db.reports[other], fault);
        DuplicatesRepeat(db.reports[other], fault);
      }
    }
  }

  lemma StepKeepsSeparated(db: Database, e: Event, hash: string -> string)
    requires Keyed(db) && Separated(db)
    ensures Separated(Apply(db, e, hash))
  {
    if e.Ingest? {
      IngestKeepsSeparated(db, e.fault, e.level);
    } else {
      FaultsOnlyComeFromIngestion(db, e, hash);
    }
  }

  /** Over any run, whatever else happens between ingests, two distinct stored reports with the
      same device, fault type and program counter occurred more than sixty seconds apart. */
  lemma {:induction false} RunsKeepSeparated(events: seq<Event>, hash: string -> string)
    ensures Keyed(Run(EMPTY, events, hash)) && Separated(Run(EMPTY, events, hash))
  {
    HistoryRunsTheTables(events, hash);
    HistoryKeepsInv(events, hash);
    if events != [] {
      var n := |events| - 1;
      RunsKeepSeparated(events[..n], hash);
      StepKeepsSeparated(Run(EMPTY, events[..n], hash), events[n], hash);
    }
  }

  /** Times pairwise more than `gap` apart: few of them fit into a span. */
  lemma {:induction false} SparseTimes(times: set<int>, gap: nat, from: int, span: nat)
    requires times != {}
    requires forall s, t :: s in times && t in times && s != t ==> Gap(s, t) > gap
    requires forall t :: t in times ==> from <= t <= from + span
    ensures (|times| - 1) * gap <= span
    decreases |times|
  {
    var last := Greatest(times);
    var rest := times - {last};
    assert times == rest + {last};
    SizeOfAdd(rest, last);
    if rest == {} {
      assert (|times| - 1) * gap == 0;
    } else {
      forall t | t in rest ensures from <= t <= from + (last - gap - from) {
        assert Gap(t, last) > gap;
      }
      var some := SomeElement(rest);
      SparseTimes(rest, gap, from, last - gap - from);
      assert (|times| - 1) * gap == (|rest| - 1) * gap + gap;
    }
  }

  lemma {:induction false} DistinctTimes(reports: map<ReportId, Report>, ids: set<ReportId>)
    requires forall r :: r in ids ==> r in reports
    requires forall r, s :: r in ids && s in ids && r != s ==>
               reports[r].fault.occurredAt != reports[s].fault.occurredAt
    ensures |set r | r in ids :: reports[r].fault.occurredAt| == |ids|
  {
    var times := set r | r in ids :: reports[r].fault.occurredAt;
    if ids != {} {
      var r := SomeElement(ids);
      var rest := ids - {r};
      DistinctTimes(reports, rest);
      assert ids == rest + {r};
      SizeOfAdd(rest, r);
      var others := set s | s in rest :: reports[s].fault.occurredAt;
      assert times == others + {reports[r].fault.occurredAt};
      assert reports[r].fault.occurredAt !in others;
      SizeOfAdd(others, reports[r].fault.occurredAt);
    }
  }

  /** A crash loop cannot flood the table: any span of T holds at most T/60s + 1 stored reports
      of one device, fault type and program counter. */
  lemma BurstsAreBounded(events: seq<Event>, ids: set<ReportId>, from: int, span: nat, hash: string -> string)
    requires forall r :: r in ids ==> r in Run(EMPTY, events, hash).reports
    requires var reports := Run(EMPTY, events, hash).reports;
             forall r, s :: r in ids && s in ids ==> Alike(reports[r].fault, reports[s].fault)
    requires var reports := Run(EMPTY, events, hash).reports;
             forall r :: r in ids ==> from <= reports[r].fault.occurredAt <= from + span
    ensures |ids| <= span / 60_000_000 + 1
  {
    RunsKeepSeparated(events, hash);
    SeparatedBurst(Run(EMPTY, events, hash), ids, from, span);
  }

  lemma SeparatedBurst(db: Database, ids: set<ReportId>, from: int, span: nat)
    requires Separated(db) && forall r :: r in ids ==> r in db.reports
    requires forall r, s :: r in ids && s in ids ==> Alike(db.reports[r].fault, db.reports[s].fault)
    requires forall r :: r in ids ==> from <= db.reports[r].fault.occurredAt <= from + span
    ensures |ids| <= span / 60_000_000 + 1
  {
    var times := set r | r in ids :: db.reports[r].fault.occurredAt;
    DistinctTimes(db.reports, ids);
    if times != {} {
      SparseTimes(times, 60_000_000, from, span);
    }
    CountFromProduct(|ids|, 60_000_000, span);
  }

  /** Uploading a stored payload again is answered with that very report, and nothing else
      could be answered; the tables stay as they are. */
  lemma ResubmissionIsRecognised(events: seq<Event>, r: ReportId, level: Severity, hash: string -> string)
    requires r in Run(EMPTY, events, hash).reports
    ensures var db := Run(EMPTY, events, hash);
            var fault := db.reports[r].fault;
            && (forall s :: IsReply(db, fault, s) <==> s == r)
            && Ingested(db, fault, level) == db
  {
    RunsKeepSeparated(events, hash);
    var db := Run(EMPTY, events, hash);
    var fault := db.reports[r].fault;
    assert Duplicates(db.reports[r], fault);
    assert HasDuplicate(db, fault);
    forall s | s in db.reports ensures Duplicates(db.reports[s], fault) <==> s == r {
      DuplicatesRepeat(db.reports[s], fault);
    }
  }

  /** In every reachable state a fault is stored exactly when each report of the same device,
      fault type and program counter lies more than a minute away: then the answer is a new
      row holding it, not yet in any group. Otherwise nothing changes and the answer is one of
      the reports that lie nearer. */
  lemma IngestStoresIff(events: seq<Event>, fault: Fault, level: Severity, r: ReportId, hash: string -> string)
    requires IsReply(Run(EMPTY, events, hash), fault, r)
    ensures var db := Run(EMPTY, events, hash);
            var db' := Ingested(db, fault, level);
            var far := forall s :: s in db.reports && db.reports[s].fault.device == fault.device
                                   && db.reports[s].fault.faultType == fault.faultType
                                   && db.reports[s].fault.pc == fault.pc ==>
                         Gap(db.reports[s].fault.occurredAt, fault.occurredAt) > 60_000_000;
            && db'.groups == db.groups
            && (if far then r !in db.reports &&
                            db'.reports == db.reports[r := Report(fault, level, None, None, None, None)]
                else db'.reports == db.reports && r in db.reports
                     && db.reports[r].fault.device == fault.device && db.reports[r].fault.faultType == fault.faultType
                     && db.reports[r].fault.pc == fault.pc
                     && Gap(db.reports[r].fault.occurredAt, fault.occurredAt) <= 60_000_000)
  {
    RunsKeepSeparated(events, hash);
    var db := Run(EMPTY, events, hash);
    forall s | s in db.reports ensures Duplicates(db.reports[s], fault) <==> Repeats(db.reports[s].fault, fault) {
      DuplicatesRepeat(db.reports[s], fault);
    }
    hide Run, Duplicates, Keyed, Separated;
    if !HasDuplicate(db, fault) {
      forall s | s in db.reports && Alike(db.reports[s].fault, fault)
        ensures Gap(db.reports[s].fault.occurredAt, fault.occurredAt) > 60_000_000
      {
        assert !Duplicates(db.reports[s], fault);
      }
    }
  }

  /** So a device without stored reports is never refused, whatever others have sent. */
  lemma FirstReportIsStored(events: seq<Event>, fault: Fault, level: Severity, hash: string -> string)
    requires forall s :: s in Run(EMPTY, events, hash).reports ==>
               Run(EMPTY, events, hash).reports[s].fault.device != fault.device
    ensures var db := Run(EMPTY, events, hash);
            && db.nextReport !in db.reports
            && Ingested(db, fault, level).reports == db.reports[db.nextReport := Report(fault, level, None, None, None, None)]
  {
    var db := Run(EMPTY, events, hash);
    RunsKeepSeparated(events, hash);
    forall s | s in db.reports ensures !Duplicates(db.reports[s], fault) {
      DuplicatesRepeat(db.reports[s], fault);
    }
  }
}
