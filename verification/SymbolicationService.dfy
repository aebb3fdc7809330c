/** The rows as objects and the services that update them in place:
    services/symbolication.py, services/crash.py, repositories/crash_group.py. */
module SymbolicationService {
  import opened Wrappers
  import opened Sets
  import opened StackAnalyzer
  import opened Signature
  import opened CrashDatabase
  import opened GroupAccounting
  import opened Refiling

  class CrashReport {
    const fault: Fault
    var severity: Severity
    var groupId: Option<GroupId>
    var signature: Option<string>
    var topFunction: Option<string>
    var symbolicatedAt: Option<int>

    constructor (fault: Fault, severity: Severity)
      ensures Row() == Report(fault, severity, None, None, None, None)
    {
      this.fault, this.severity := fault, severity;
      groupId, signature, topFunction, symbolicatedAt := None, None, None, None;
    }

    ghost function Row(): Report
      reads this
    {
      Report(fault, severity, groupId, signature, topFunction, symbolicatedAt)
    }
  }

  class CrashGroup {
    const signature: string
    const components: Components
    const title: string
    const faultType: string
    const taskName: Option<string>
    const topFunction: Option<string>
    var severity: Severity
    var status: GroupStatus
    var occurrences: int
    var devices: int
    var firstSeen: int
    var lastSeen: int
    var versions: set<string>
    var regressedAt: Option<int>

    constructor (signature: string, components: Components, title: string, fault: Fault,
                 topFunction: Option<string>, severity: Severity)
      ensures Row() == Group(signature, components, title, fault.faultType, fault.taskName, topFunction,
                             severity, Open, 0, 0, fault.occurredAt, fault.occurredAt, {}, None)
    {
      this.signature, this.components, this.title := signature, components, title;
      this.faultType, this.taskName, this.topFunction := fault.faultType, fault.taskName, topFunction;
      this.severity, status, occurrences, devices := severity, Open, 0, 0;
      firstSeen, lastSeen, versions, regressedAt := fault.occurredAt, fault.occurredAt, {}, None;
    }

    ghost function Row(): Group
      reads this
    {
      Group(signature, components, title, faultType, taskName, topFunction, severity, status,
            occurrences, devices, firstSeen, lastSeen, versions, regressedAt)
    }

    method WidenWindow(report: CrashReport)
      modifies this
      ensures Row() == Widened(old(Row()), report.fault.occurredAt)
    {
      var occurred := report.fault.occurredAt;
      if occurred < firstSeen {
        firstSeen := occurred;
      }
      if occurred > lastSeen {
        lastSeen := occurred;
      }
    }

    method EscalateSeverity(report: CrashReport)
      modifies this
      ensures Row() == Escalated(old(Row()), old(report.severity))
      ensures severity == if MoreSevere(old(report.severity), old(severity)) then old(report.severity) else old(severity)
    {
      RankIsTheOrder(report.severity, severity);
      if Rank(report.severity) > Rank(severity) {
        severity := report.severity;
      }
    }

    method RecordFirmwareVersion(report: CrashReport)
      modifies this
      ensures Row() == WithVersion(old(Row()), report.fault.firmware)
    {
      if report.fault.firmware !in versions {
        versions := versions + {report.fault.firmware};
      }
      assert versions == old(versions) + {report.fault.firmware};
    }

    method MaybeRegress(now: int)
      modifies this
      ensures Row() == AfterRegression(old(Row()), now)
    {
      if status == Resolved {
        status, regressedAt := Regressed, Some(now);
      }
    }

    method SetStatus(newStatus: GroupStatus)
      modifies this
      ensures Row() == WithStatus(old(Row()), newStatus)
    {
      status := newStatus;
      if status != Regressed {
        regressedAt := None;
      }
    }
  }

  datatype ServiceError = NotFound | NoChanges

  /** The group rows once a report has moved from `previous` into `g`. */
  function Transferred(groups: map<GroupId, Group>, reports: map<ReportId, Report>, row: Report,
                       previous: Option<GroupId>, g: GroupId, now: int): map<GroupId, Group>
    requires g in groups
  {
    var left := AfterLeaving(groups, reports, previous, g);
    left[g := AfterJoining(left[g], reports, row, g, previous == Some(g), now)]
  }

  /** A filing, put together from the stages the service goes through. */
  lemma FiledByStages(db: Database, r: ReportId, frames: seq<Frame>, now: int, hash: string -> string)
    requires r in db.reports
    requires db.reports[r] == Stamped(db.reports[r], frames, SignatureFor(db.reports[r].fault, frames, hash), now)
    ensures var signature := SignatureFor(db.reports[r].fault, frames, hash);
            var g := GroupFor(db, signature);
            var row := db.reports[r].(groupId := Some(g));
            var rows := db.reports[r := row];
            var present := WithGroup(db, db.reports[r], frames, signature);
            g in present &&
            Filed(db, r, frames, now, hash) ==
            Database(rows, Transferred(present, rows, row, db.reports[r].groupId, g, now), db.nextReport,
                     if HasSignature(db.groups, signature) then db.nextGroup else db.nextGroup + 1)
  {
  }

  lemma AddingKeepsKeys(db: Database, fault: Fault, severity: Severity)
    requires Keyed(db)
    ensures Keyed(db.(reports := db.reports[db.nextReport := Report(fault, severity, None, None, None, None)],
                      nextReport := db.nextReport + 1))
    ensures db.nextReport !in db.reports
  {
  }

  lemma IngestedIs(db: Database, fault: Fault, severity: Severity)
    ensures Ingested(db, fault, severity) ==
            if HasDuplicate(db, fault) then db
            else db.(reports := db.reports[db.nextReport := Report(fault, severity, None, None, None, None)],
                     nextReport := db.nextReport + 1)
  {
  }

  lemma DeletingKeepsKeys(db: Database, r: ReportId)
    requires Keyed(db)
    ensures Keyed(Deleted(db, r))
  {
  }

  lemma TriageReportKeepsKeys(db: Database, r: ReportId, severity: Severity)
    requires Keyed(db)
    ensures Keyed(ReportTriaged(db, r, severity))
  {
  }

  predicate AnyResolved(frames: seq<Frame>) {
    exists i :: 0 <= i < |frames| && frames[i].resolved
  }

  /** How many reports of a batch got at least one resolved frame. */
  function Upgraded(batch: seq<ReportId>, frames: ReportId -> seq<Frame>): nat {
    if batch == [] then 0
    else Upgraded(batch[..|batch| - 1], frames) + if AnyResolved(frames(batch[|batch| - 1])) then 1 else 0
  }

  /** The places of a batch whose report gets a resolved frame. */
  ghost function WithNames(batch: seq<ReportId>, frames: ReportId -> seq<Frame>): set<nat> {
    set i: nat | i < |batch| && exists k :: 0 <= k < |frames(batch[i])| && frames(batch[i])[k].resolved
  }

  lemma {:induction false} UpgradedCounts(batch: seq<ReportId>, frames: ReportId -> seq<Frame>)
    ensures Upgraded(batch, frames) == |WithNames(batch, frames)|
  {
    if batch == [] {
      assert WithNames(batch, frames) == {};
    } else {
      var n := |batch| - 1;
      var before := WithNames(batch[..n], frames);
      UpgradedCounts(batch[..n], frames);
      SizeOfAdd(before, n);
      assert WithNames(batch, frames) == if AnyResolved(frames(batch[n])) then before + {n} else before;
    }
  }

  lemma UnknownReportFiled(db: Database, r: ReportId, frames: seq<Frame>, now: int, hash: string -> string)
    requires r !in db.reports
    ensures Filed(db, r, frames, now, hash) == db
  {
  }

  /** The destination depends on the groups alone. */
  lemma SameDestination(a: Database, b: Database, signature: string)
    requires Keyed(a) && Keyed(b) && a.groups == b.groups && a.nextGroup == b.nextGroup
    ensures GroupFor(a, signature) == GroupFor(b, signature)
  {
    GroupForIsUnique(a, signature);
    GroupForIsUnique(b, signature);
  }

  lemma NewGroupIgnoresTheStamp(report: Report, frames: seq<Frame>, now: int, signature: string)
    ensures var row := Stamped(report, frames, signature, now);
            NewGroup(row, frames, signature) == NewGroup(report, frames, signature)
            && Stamped(row, frames, signature, now) == row && row.fault == report.fault && row.groupId == report.groupId
  {
  }

  lemma StampKeepsKeys(db: Database, r: ReportId, row: Report)
    requires Keyed(db) && r in db.reports && row.groupId == db.reports[r].groupId
    ensures Keyed(db.(reports := db.reports[r := row]))
  {
  }

  /** Stamping a report first does not change where it is filed. */
  lemma FilingIgnoresTheStamp(db: Database, r: ReportId, frames: seq<Frame>, now: int, hash: string -> string)
    requires Keyed(db) && r in db.reports
    ensures var signature := SignatureFor(db.reports[r].fault, frames, hash);
            var row := Stamped(db.reports[r], frames, signature, now);
            var stamped := db.(reports := db.reports[r := row]);
            && Stamped(row, frames, signature, now) == row
            && Keyed(stamped)
            && Filed(stamped, r, frames, now, hash) == Filed(db, r, frames, now, hash)
  {
    hide Keyed, GroupFor, HasSignature, Stamped, NewGroup, SignatureFor, AfterJoining, AfterLeaving;
    var signature := SignatureFor(db.reports[r].fault, frames, hash);
    var row := Stamped(db.reports[r], frames, signature, now);
    var stamped := db.(reports := db.reports[r := row]);
    NewGroupIgnoresTheStamp(db.reports[r], frames, now, signature);
    StampKeepsKeys(db, r, row);
    SameDestination(db, stamped, signature);
    var filed := row.(groupId := Some(GroupFor(db, signature)));
    assert stamped.reports[r := filed] == db.reports[r := filed];
    assert WithGroup(stamped, row, frames, signature) == WithGroup(db, db.reports[r], frames, signature);
  }

  lemma TouchedReadsNoGroup(group: Group, report: Report, id: Option<GroupId>, now: int)
    ensures Touched(group, report.(groupId := id), now) == Touched(group, report, now)
  {
  }

  class CrashStore {
    const hash: string -> string
    var reports: map<ReportId, CrashReport>
    var groups: map<GroupId, CrashGroup>
    var nextReport: ReportId
    var nextGroup: GroupId

    /** One object per row, and the keys in order. */
    ghost predicate Valid()
      reads this, reports.Values, groups.Values
    {
      Distinct() && Keyed(Tables())
    }

    ghost predicate Distinct()
      reads this
    {
      && (forall r, s :: r in reports && s in reports && r != s ==> reports[r] != reports[s])
      && (forall g, h :: g in groups && h in groups && g != h ==> groups[g] != groups[h])
    }

    ghost function ReportRows(): map<ReportId, Report>
      reads this, reports.Values
    {
      map r | r in reports :: reports[r].Row()
    }

    ghost function GroupRows(): map<GroupId, Group>
      reads this, groups.Values
    {
      map g | g in groups :: groups[g].Row()
    }

    /** The contents of the tables. */
    ghost function Tables(): Database
      reads this, reports.Values, groups.Values
    {
      Database(ReportRows(), GroupRows(), nextReport, nextGroup)
    }

    constructor (hash: string -> string)
      ensures Valid() && Tables() == EMPTY && this.hash == hash
    {
      this.hash := hash;
      reports, groups, nextReport, nextGroup := map[], map[], 0, 0;
    }

    lemma RowIn(r: ReportId)
      requires r in reports
      ensures r in ReportRows() && ReportRows()[r] == reports[r].Row()
      ensures reports[r].Row().groupId == reports[r].groupId && reports[r].Row().fault == reports[r].fault
    {
    }

    lemma RowFault(report: CrashReport)
      ensures report.Row().fault == report.fault && report.Row().severity == report.severity
    {
    }

    lemma GroupIn(g: GroupId)
      requires g in groups
      ensures g in GroupRows() && GroupRows()[g] == groups[g].Row()
    {
    }

    lemma RowKeys()
      ensures ReportRows().Keys == reports.Keys && GroupRows().Keys == groups.Keys
    {
    }

    /** Writing one report object changes one row. */
    twostate lemma ReportWritten(r: ReportId)
      requires old(r in reports) && reports == old(reports)
      requires forall s :: s in reports && s != r ==> unchanged(reports[s])
      ensures ReportRows() == old(ReportRows())[r := reports[r].Row()]
    {
    }

    /** A new group object adds one row. */
    twostate lemma GroupAdded(g: GroupId)
      requires g !in old(groups) && g in groups && groups == old(groups)[g := groups[g]]
      requires forall h :: h in old(groups) ==> unchanged(old(groups)[h])
      ensures GroupRows() == old(GroupRows())[g := groups[g].Row()]
    {
    }

    /** A new report object adds one row. */
    twostate lemma ReportAdded(r: ReportId)
      requires r !in old(reports) && r in reports && reports == old(reports)[r := reports[r]]
      requires forall s :: s in old(reports) ==> unchanged(old(reports)[s])
      ensures ReportRows() == old(ReportRows())[r := reports[r].Row()]
    {
    }

    twostate lemma ReportsUnwritten()
      requires reports == old(reports) && forall s :: s in reports ==> unchanged(reports[s])
      ensures ReportRows() == old(ReportRows())
    {
    }

    twostate lemma GroupsUnwritten()
      requires groups == old(groups) && forall h :: h in groups ==> unchanged(groups[h])
      ensures GroupRows() == old(GroupRows())
    {
    }

    twostate lemma GroupWritten(g: GroupId)
      requires old(g in groups) && groups == old(groups)
      requires forall h :: h in groups && h != g ==> unchanged(groups[h])
      ensures GroupRows() == old(GroupRows())[g := groups[g].Row()]
    {
    }

    method GetBySignature(signature: string) returns (found: Option<GroupId>)
      requires Valid()
      ensures found.Some? <==> HasSignature(GroupRows(), signature)
      ensures GroupFor(Tables(), signature) == if found.Some? then found.value else nextGroup
      ensures if found.Some? then found.value in groups else nextGroup !in groups
    {
      GroupForIsUnique(Tables(), signature);
      if g :| g in groups && groups[g].signature == signature {
        assert GroupRows()[g].signature == signature;
        found := Some(g);
      } else {
        found := None;
        forall g | g in GroupRows() ensures GroupRows()[g].signature != signature {
          assert GroupRows()[g].signature == groups[g].signature;
        }
      }
    }

    method SelectMembers(g: GroupId) returns (members: set<ReportId>)
      ensures members == Members(ReportRows(), g)
    {
      members := set r | r in reports && reports[r].groupId == Some(g);
    }

    method DistinctDeviceCount(g: GroupId) returns (count: nat)
      ensures count == |Devices(ReportRows(), g)|
    {
      var members := SelectMembers(g);
      var devices := set r | r in members :: reports[r].fault.device;
      assert devices == Devices(ReportRows(), g);
      count := |devices|;
    }

    lemma SelectionsAgree(g: GroupId, members: set<ReportId>)
      requires members == Members(ReportRows(), g)
      ensures members <= reports.Keys
      ensures (set r | r in members :: reports[r].fault.device) == Devices(ReportRows(), g)
      ensures (set r | r in members :: reports[r].fault.occurredAt) == Times(ReportRows(), g)
      ensures (set r | r in members :: reports[r].fault.firmware) == Versions(ReportRows(), g)
    {
    }

    method RecomputeCounters(g: GroupId)
      requires g in groups
      modifies groups[g]
      ensures groups[g].Row() == Recomputed(old(ReportRows()), g, old(groups[g].Row()))
    {
      hide Members, Devices, Times, Versions, ReportRows, Least, Greatest;
      var group := groups[g];
      var members := SelectMembers(g);
      SelectionsAgree(g, members);
      var devices := set r | r in members :: reports[r].fault.device;
      var times := set r | r in members :: reports[r].fault.occurredAt;
      var seen := set r | r in members :: reports[r].fault.firmware;
      group.occurrences := |members|;
      group.devices := |devices|;
      if times != {} {
        group.firstSeen := Least(times);
        group.lastSeen := Greatest(times);
      }
      group.versions := seen;
    }

    /** A new, empty group for a signature no group has. */
    method CreateGroup(report: CrashReport, signature: string, components: Components, frames: seq<Frame>)
      returns (g: GroupId)
      requires Distinct() && nextGroup !in groups
      requires components == ComponentsFor(report.fault, frames)
      modifies this`groups, this`nextGroup
      ensures Distinct() && g == old(nextGroup) && g in groups && groups == old(groups)[g := groups[g]]
      ensures fresh(groups[g]) && nextGroup == g + 1
      ensures ReportRows() == old(ReportRows())
      ensures GroupRows() == old(GroupRows())[g := NewGroup(report.Row(), frames, signature)]
    {
      var title := BuildTitle(report.fault.faultType, frames, report.fault.taskName);
      var top := TopFunctionOf(frames);
      hide ComponentsFor, Title, TopFunction, ResolvedNames, CrashReport.Row, ReportRows, GroupRows;
      RowFault(report);
      var group := new CrashGroup(signature, components, title, report.fault, top, report.severity);
      g := nextGroup;
      groups := groups[g := group];
      nextGroup := nextGroup + 1;
      GroupAdded(g);
      ReportsUnwritten();
    }

    /** The group to file into, created if there is none with this signature. */
    method FindOrCreate(report: CrashReport, signature: string, components: Components, frames: seq<Frame>)
      returns (g: GroupId)
      requires Valid()
      requires components == ComponentsFor(report.fault, frames)
      modifies this`groups, this`nextGroup
      ensures Distinct() && g in groups && g == old(GroupFor(Tables(), signature))
      ensures ReportRows() == old(ReportRows())
      ensures GroupRows() == WithGroup(old(Tables()), report.Row(), frames, signature)
      ensures nextGroup == old(if HasSignature(GroupRows(), signature) then nextGroup else nextGroup + 1)
      ensures fresh(groups.Values - old(groups.Values))
    {
      hide GroupFor, Keyed, HasSignature, Distinct, ReportRows, GroupRows, ComponentsFor;
      var found := GetBySignature(signature);
      if found.Some? {
        g := found.value;
      } else {
        g := CreateGroup(report, signature, components, frames);
      }
    }

    /** The group a report has just left must not keep counting it. */
    method Leave(r: ReportId, report: CrashReport, previous: Option<GroupId>, g: GroupId)
      requires Distinct() && r in reports && report == reports[r] && g in groups && report.groupId == previous
      modifies report`groupId, groups.Values
      ensures var rows := old(ReportRows())[r := old(report.Row()).(groupId := Some(g))];
              && ReportRows()[r := report.Row().(groupId := Some(g))] == rows
              && GroupRows() == AfterLeaving(old(GroupRows()), rows, previous, g)
      ensures report.Row().(groupId := Some(g)) == old(report.Row()).(groupId := Some(g))
    {
      hide Recomputed, ReportRows, GroupRows;
      RowIn(r);
      RowKeys();
      if previous.Some? && previous.value != g && previous.value in groups {
        GroupIn(previous.value);
        report.groupId := Some(g);
        ReportWritten(r);
        RecomputeCounters(previous.value);
        GroupWritten(previous.value);
      }
    }

    /** Count the report in, if it was not in already, and make the updates every filing makes. */
    method Join(r: ReportId, report: CrashReport, previous: Option<GroupId>, g: GroupId, now: int)
      requires Distinct() && r in reports && report == reports[r] && g in groups
      modifies report`groupId, groups[g]
      ensures var row := old(report.Row()).(groupId := Some(g));
              var rows := old(ReportRows())[r := row];
              && ReportRows() == rows
              && GroupRows() == old(GroupRows())[g := AfterJoining(old(groups[g].Row()), rows, row, g, previous == Some(g), now)]
    {
      hide Touched, Devices, ReportRows, GroupRows;
      var group := groups[g];
      TouchedReadsNoGroup(group.Row().(occurrences := group.occurrences + if previous == Some(g) then 0 else 1),
                          report.Row(), Some(g), now);
      CountAndTouch(report, group, previous == Some(g), now);
      report.groupId := Some(g);
      ReportWritten(r);
      var devices := DistinctDeviceCount(g);
      group.devices := devices;
      GroupWritten(g);
    }

    method CountAndTouch(report: CrashReport, group: CrashGroup, alreadyCounted: bool, now: int)
      modifies group
      ensures group.Row() ==
              Touched(old(group.Row()).(occurrences := old(group.occurrences) + if alreadyCounted then 0 else 1),
                      report.Row(), now)
    {
      if !alreadyCounted {
        group.occurrences := group.occurrences + 1;
      }
      group.WidenWindow(report);
      group.EscalateSeverity(report);
      group.RecordFirmwareVersion(report);
      group.MaybeRegress(now);
    }

    method Transfer(r: ReportId, report: CrashReport, g: GroupId, now: int)
      requires Distinct() && r in reports && report == reports[r] && g in groups
      modifies report`groupId, groups.Values
      ensures var row := old(report.Row()).(groupId := Some(g));
              var rows := old(ReportRows())[r := row];
              && ReportRows() == rows
              && GroupRows() == Transferred(old(GroupRows()), rows, row, old(report.groupId), g, now)
    {
      var previous := report.groupId;
      Leave(r, report, previous, g);
      Join(r, report, previous, g, now);
    }

    /** `_assign_group`, for a report already stamped with the outcome of its symbolication. */
    method AssignGroup(r: ReportId, report: CrashReport, signature: string, components: Components,
                       frames: seq<Frame>, now: int)
      returns (g: GroupId)
      requires Valid() && r in reports && report == reports[r]
      requires components == ComponentsFor(report.fault, frames)
      requires signature == SignatureFor(report.fault, frames, hash)
      requires report.Row() == Stamped(report.Row(), frames, signature, now)
      modifies this`groups, this`nextGroup, report`groupId, groups.Values
      ensures Valid() && Tables() == Filed(old(Tables()), r, frames, now, hash)
      ensures report.groupId == Some(g)
      ensures fresh(groups.Values - old(groups.Values))
    {
      hide Filed, Keyed, Transferred, WithGroup, Stamped, SignatureFor, ComponentsFor, HasSignature, GroupFor;
      hide ReportRows, GroupRows, CrashReport.Row, Distinct;
      ghost var before := Tables();
      RowIn(r);
      FiledByStages(before, r, frames, now, hash);
      FilingKeepsKeys(before, r, frames, now, hash);
      g := FindOrCreate(report, signature, components, frames);
      Transfer(r, report, g, now);
      RowIn(r);
      assert Tables() == Filed(before, r, frames, now, hash);
    }

    /** Record the outcome of symbolication on the report. */
    method Stamp(r: ReportId, report: CrashReport, frames: seq<Frame>, now: int)
      returns (signature: string, components: Components)
      requires Distinct() && r in reports && report == reports[r]
      modifies report`symbolicatedAt, report`topFunction, report`signature
      ensures components == ComponentsFor(report.fault, frames)
      ensures signature == SignatureFor(report.fault, frames, hash)
      ensures report.Row() == Stamped(old(report.Row()), frames, signature, now)
      ensures ReportRows() == old(ReportRows())[r := report.Row()]
    {
      report.symbolicatedAt := Some(now);
      report.topFunction := TopFunctionOf(frames);
      signature, components := BuildSignature(report.fault.faultType, report.fault.taskName, frames,
                                              report.fault.pc, report.fault.firmware, hash);
      report.signature := Some(signature);
      ReportWritten(r);
    }

    /** `symbolicate_report`: stamp the report, then group it. */
    method Symbolicate(r: ReportId, frames: seq<Frame>, now: int) returns (result: Result<GroupId, ServiceError>)
      requires Valid()
      modifies this`groups, this`nextGroup, reports.Values, groups.Values
      ensures Valid()
      ensures Tables() == Filed(old(Tables()), r, frames, now, hash)
      ensures result == if r in reports && reports[r].groupId.Some? then Ok(reports[r].groupId.value) else Err(NotFound)
      ensures result.Ok? <==> r in reports
      ensures fresh(groups.Values - old(groups.Values))
    {
      hide Filed, Keyed, Stamped, SignatureFor, ComponentsFor, Distinct, ReportRows, GroupRows, CrashReport.Row;
      ghost var before := Tables();
      RowKeys();
      if r !in reports {
        UnknownReportFiled(before, r, frames, now, hash);
        return Err(NotFound);
      }
      var report := reports[r];
      RowIn(r);
      var signature, components := Stamp(r, report, frames, now);
      RowIn(r);
      FilingIgnoresTheStamp(before, r, frames, now, hash);
      var g := AssignGroup(r, report, signature, components, frames, now);
      result := Ok(g);
    }

    /** `resymbolicate_for_build`: symbolicate the reports the search returned, one by one. */
    method ResymbolicateForBuild(batch: seq<ReportId>, frames: ReportId -> seq<Frame>, nows: seq<int>)
      returns (processed: nat, upgraded: nat)
      requires Valid() && |nows| == |batch|
      modifies this`groups, this`nextGroup, reports.Values, groups.Values
      ensures Valid()
      ensures Tables() == Run(old(Tables()), Filings(batch, frames, nows), hash)
      ensures processed == |batch| && upgraded == |WithNames(batch, frames)|
      ensures fresh(groups.Values - old(groups.Values))
    {
      hide Filed, Keyed, Distinct, ReportRows, GroupRows, CrashReport.Row;
      upgraded := 0;
      for i := 0 to |batch|
        invariant Valid() && fresh(groups.Values - old(groups.Values))
        invariant Tables() == Run(old(Tables()), Filings(batch[..i], frames, nows[..i]), hash)
        invariant upgraded == Upgraded(batch[..i], frames)
      {
        var r := batch[i];
        assert batch[..i + 1][..i] == batch[..i] && nows[..i + 1][..i] == nows[..i];
        RunFilings(old(Tables()), batch[..i + 1], frames, nows[..i + 1], hash);
        var outcome := Symbolicate(r, frames(r), nows[i]);
        if AnyResolved(frames(r)) {
          upgraded := upgraded + 1;
        }
      }
      assert batch[..|batch|] == batch && nows[..|batch|] == nows;
      UpgradedCounts(batch, frames);
      processed := |batch|;
    }

    /** `find_recent_duplicate`: any stored report of the same crash within a minute. */
    method FindRecentDuplicate(fault: Fault) returns (found: Option<ReportId>)
      requires Valid()
      ensures found.Some? <==> HasDuplicate(Tables(), fault)
      ensures found.Some? ==> IsReply(Tables(), fault, found.value)
      ensures found.Some? ==> found.value in reports && Repeats(reports[found.value].fault, fault)
      ensures found.None? ==> forall r :: r in reports ==> !Repeats(reports[r].fault, fault)
    {
      RowKeys();
      forall r | r in reports ensures Repeats(reports[r].fault, fault) <==> Duplicates(reports[r].Row(), fault) {
        DuplicatesRepeat(reports[r].Row(), fault);
      }
      if r :| r in reports && reports[r].fault.device == fault.device && reports[r].fault.faultType == fault.faultType
              && reports[r].fault.pc == fault.pc
              && fault.occurredAt - DUPLICATE_WINDOW <= reports[r].fault.occurredAt
              && reports[r].fault.occurredAt <= fault.occurredAt + DUPLICATE_WINDOW {
        assert Duplicates(ReportRows()[r], fault);
        found := Some(r);
      } else {
        found := None;
        forall r | r in ReportRows() ensures !Duplicates(ReportRows()[r], fault) {
          assert ReportRows()[r].fault == reports[r].fault;
        }
      }
    }

    /** Store a report nothing duplicates. */
    method AddReport(fault: Fault, severity: Severity) returns (r: ReportId)
      requires Valid()
      modifies this`reports, this`nextReport
      ensures Valid()
      ensures r == old(nextReport) && r !in old(reports) && reports.Keys == old(reports.Keys) + {r}
      ensures Tables() == old(Tables()).(reports := old(ReportRows())[r := Report(fault, severity, None, None, None, None)],
                                         nextReport := r + 1)
      ensures fresh(reports.Values - old(reports.Values)) && groups == old(groups)
    {
      hide Keyed, GroupRows, ReportRows;
      AddingKeepsKeys(Tables(), fault, severity);
      RowKeys();
      r := nextReport;
      var report := new CrashReport(fault, severity);
      reports := reports[r := report];
      nextReport := nextReport + 1;
      ReportAdded(r);
      GroupsUnwritten();
    }

    /** `ingest`: answer with a duplicate if there is one; otherwise store the report and then
        try to symbolicate it, which fails when there are no `frames`. */
    method Ingest(fault: Fault, severity: Severity, frames: Option<seq<Frame>>, now: int)
      returns (r: ReportId, duplicate: bool)
      requires Valid()
      modifies this, reports.Values, groups.Values
      ensures Valid()
      ensures duplicate == HasDuplicate(old(Tables()), fault) && IsReply(old(Tables()), fault, r)
      ensures duplicate ==> r in old(reports) && Repeats(old(reports)[r].fault, fault)
      ensures !duplicate ==> r !in old(reports) && forall s :: s in old(reports) ==> !Repeats(old(reports)[s].fault, fault)
      ensures var stored := Ingested(old(Tables()), fault, severity);
              Tables() == if duplicate || frames.None? then stored else Filed(stored, r, frames.value, now, hash)
    {
      hide Filed, Keyed, Distinct, ReportRows, GroupRows, CrashReport.Row, HasDuplicate, Repeats, Ingested;
      IngestedIs(Tables(), fault, severity);
      var existing := FindRecentDuplicate(fault);
      if existing.Some? {
        return existing.value, true;
      }
      duplicate := false;
      r := AddReport(fault, severity);
      if frames.Some? {
        var outcome := Symbolicate(r, frames.value, now);
      }
    }

    /** Triage of a report; `others` says whether fields that are not modelled are supplied. */
    method UpdateReport(r: ReportId, severity: Option<Severity>, others: bool) returns (result: Result<(), ServiceError>)
      requires Valid()
      modifies reports.Values
      ensures Valid()
      ensures Tables() == if severity.Some? then ReportTriaged(old(Tables()), r, severity.value) else old(Tables())
      ensures result == if r !in reports then Err(NotFound)
                        else if severity.None? && !others then Err(NoChanges) else Ok(())
    {
      hide Keyed, GroupRows, ReportRows;
      RowKeys();
      if r !in reports {
        return Err(NotFound);
      }
      if severity.None? && !others {
        return Err(NoChanges);
      }
      if severity.Some? {
        TriageReportKeepsKeys(Tables(), r, severity.value);
        RowIn(r);
        reports[r].severity := severity.value;
        ReportWritten(r);
      }
      result := Ok(());
    }

    /** Triage of a group; `others` says whether fields that are not modelled are supplied. */
    method UpdateGroup(g: GroupId, status: Option<GroupStatus>, others: bool) returns (result: Result<(), ServiceError>)
      requires Valid()
      modifies groups.Values
      ensures Valid()
      ensures Tables() == if status.Some? then GroupTriaged(old(Tables()), g, status.value) else old(Tables())
      ensures result == if g !in groups then Err(NotFound)
                        else if status.None? && !others then Err(NoChanges) else Ok(())
    {
      hide Keyed, GroupRows, ReportRows;
      RowKeys();
      if g !in groups {
        return Err(NotFound);
      }
      if status.None? && !others {
        return Err(NoChanges);
      }
      if status.Some? {
        TriageKeepsKeys(Tables(), g, status.value);
        GroupIn(g);
        groups[g].SetStatus(status.value);
        GroupWritten(g);
      }
      result := Ok(());
    }

    method DeleteReport(r: ReportId) returns (result: Result<(), ServiceError>)
      requires Valid()
      modifies this`reports
      ensures Valid() && Tables() == Deleted(old(Tables()), r)
      ensures result.Ok? <==> r in old(reports)
    {
      hide Keyed;
      DeletingKeepsKeys(Tables(), r);
      if r !in reports {
        assert ReportRows() - {r} == ReportRows();
        return Err(NotFound);
      }
      reports := reports - {r};
      assert ReportRows() == old(ReportRows()) - {r};
      assert GroupRows() == old(GroupRows());
      result := Ok(());
    }
  }
}
