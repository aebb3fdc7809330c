/** The crash-report and crash-group tables and what each service call does to them, as
    functions: backend/app/services/symbolication.py, crash.py, repositories/crash_group.py,
    repositories/crash.py and api/v1/endpoints/crash_groups.py. */
module CrashDatabase {
  import opened Wrappers
  import opened Sets
  import opened StackAnalyzer
  import opened Signature

  type ReportId = nat
  type GroupId = nat

  datatype Severity = Low | Medium | High | Critical

  function Rank(s: Severity): nat {
    match s case Low => 0 case Medium => 1 case High => 2 case Critical => 3
  }

  /** `a` is worse than `b`: critical before high before medium before low. */
  predicate MoreSevere(a: Severity, b: Severity) {
    match a
    case Critical => b != Critical
    case High => b == Medium || b == Low
    case Medium => b == Low
    case Low => false
  }

  lemma RankIsTheOrder(a: Severity, b: Severity)
    ensures Rank(a) > Rank(b) <==> MoreSevere(a, b)
  {
  }

  datatype GroupStatus = Open | Investigating | Resolved | Ignored | Regressed

  /** What a device sent, as the parser normalised it. Nothing changes it afterwards. */
  datatype Fault = Fault(device: nat, firmware: string, occurredAt: int, faultType: string,
                         taskName: Option<string>, pc: Option<nat>)

  datatype Report = Report(fault: Fault, severity: Severity, groupId: Option<GroupId>,
                           signature: Option<string>, topFunction: Option<string>,
                           symbolicatedAt: Option<int>)

  datatype Group = Group(signature: string, components: Components, title: string, faultType: string,
                         taskName: Option<string>, topFunction: Option<string>,
                         severity: Severity, status: GroupStatus,
                         occurrences: int, devices: int, firstSeen: int, lastSeen: int,
                         versions: set<string>, regressedAt: Option<int>)

  datatype Database = Database(reports: map<ReportId, Report>, groups: map<GroupId, Group>,
                               nextReport: ReportId, nextGroup: GroupId)

  const EMPTY := Database(map[], map[], 0, 0)

  // ---------------------------------------------------------------------------
  // Queries over the reports of a group
  // ---------------------------------------------------------------------------

  function Members(reports: map<ReportId, Report>, g: GroupId): set<ReportId> {
    set r | r in reports && reports[r].groupId == Some(g)
  }

  function Devices(reports: map<ReportId, Report>, g: GroupId): set<nat> {
    set r | r in Members(reports, g) :: reports[r].fault.device
  }

  function Versions(reports: map<ReportId, Report>, g: GroupId): set<string> {
    set r | r in Members(reports, g) :: reports[r].fault.firmware
  }

  function Times(reports: map<ReportId, Report>, g: GroupId): set<int> {
    set r | r in Members(reports, g) :: reports[r].fault.occurredAt
  }

  ghost predicate IsLeast(m: int, s: set<int>) { m in s && forall x :: x in s ==> m <= x }

  ghost predicate IsGreatest(m: int, s: set<int>) { m in s && forall x :: x in s ==> x <= m }

  lemma {:induction false} LeastExists(s: set<int>)
    requires s != {}
    ensures exists m :: IsLeast(m, s)
  {
    var x := SomeElement(s);
    if s == {x} {
      assert IsLeast(x, s);
    } else {
      LeastExists(s - {x});
      var m :| IsLeast(m, s - {x});
      assert forall y :: y in s ==> y == x || y in s - {x};
      assert IsLeast(if x < m then x else m, s);
    }
  }

  /** SQL `MIN` over a non-empty selection. */
  function Least(s: set<int>): (m: int)
    requires s != {}
    ensures IsLeast(m, s)
  {
    LeastExists(s);
    var m :| m in s && forall x :: x in s ==> m <= x;
    m
  }

  lemma {:induction false} GreatestExists(s: set<int>)
    requires s != {}
    ensures exists m :: IsGreatest(m, s)
  {
    var x := SomeElement(s);
    if s == {x} {
      assert IsGreatest(x, s);
    } else {
      GreatestExists(s - {x});
      var m :| IsGreatest(m, s - {x});
      assert forall y :: y in s ==> y == x || y in s - {x};
      assert IsGreatest(if x > m then x else m, s);
    }
  }

  /** SQL `MAX` over a non-empty selection. */
  function Greatest(s: set<int>): (m: int)
    requires s != {}
    ensures IsGreatest(m, s)
  {
    GreatestExists(s);
    var m :| m in s && forall x :: x in s ==> x <= m;
    m
  }

  /** `recompute_counters`: what a group's counters are, told from the reports alone. The
      window of a group without reports is left as it was. */
  function Recomputed(reports: map<ReportId, Report>, g: GroupId, group: Group): Group {
    var times := Times(reports, g);
    group.(occurrences := |Members(reports, g)|,
           devices := |Devices(reports, g)|,
           firstSeen := if times == {} then group.firstSeen else Least(times),
           lastSeen := if times == {} then group.lastSeen else Greatest(times),
           versions := Versions(reports, g))
  }

  // ---------------------------------------------------------------------------
  // Filing one report
  // ---------------------------------------------------------------------------

  function Widened(group: Group, occurredAt: int): Group {
    group.(firstSeen := if occurredAt < group.firstSeen then occurredAt else group.firstSeen,
           lastSeen := if occurredAt > group.lastSeen then occurredAt else group.lastSeen)
  }

  function Escalated(group: Group, severity: Severity): Group {
    if Rank(severity) > Rank(group.severity) then group.(severity := severity) else group
  }

  function WithVersion(group: Group, version: string): Group {
    group.(versions := group.versions + {version})
  }

  function AfterRegression(group: Group, now: int): Group {
    if group.status == Resolved then group.(status := Regressed, regressedAt := Some(now)) else group
  }

  /** The four updates every filing makes to the group it files into. */
  function Touched(group: Group, report: Report, now: int): Group {
    AfterRegression(WithVersion(Escalated(Widened(group, report.fault.occurredAt), report.severity),
                                report.fault.firmware), now)
  }

  function ComponentsFor(fault: Fault, frames: seq<Frame>): Components {
    ComponentsOf(fault.faultType, fault.taskName, SignatureNames(frames), fault.pc, fault.firmware)
  }

  function SignatureFor(fault: Fault, frames: seq<Frame>, hash: string -> string): string {
    hash(Payload(ComponentsFor(fault, frames)))
  }

  function NewGroup(report: Report, frames: seq<Frame>, signature: string): Group {
    var fault := report.fault;
    var names := ResolvedNames(frames);
    Group(signature, ComponentsFor(fault, frames), Title(fault.faultType, names, fault.taskName),
          fault.faultType, fault.taskName, TopFunction(names), report.severity, Open,
          0, 0, fault.occurredAt, fault.occurredAt, {}, None)
  }

  ghost predicate HasSignature(groups: map<GroupId, Group>, signature: string) {
    exists g :: g in groups && groups[g].signature == signature
  }

  /** The group with this signature, or the identifier a new one will get. */
  ghost function GroupFor(db: Database, signature: string): GroupId {
    if HasSignature(db.groups, signature)
    then var g :| g in db.groups && db.groups[g].signature == signature; g
    else db.nextGroup
  }

  /** The group table with the destination group present. */
  ghost function WithGroup(db: Database, report: Report, frames: seq<Frame>, signature: string): map<GroupId, Group> {
    if HasSignature(db.groups, signature) then db.groups
    else db.groups[db.nextGroup := NewGroup(report, frames, signature)]
  }

  /** The group a report leaves is recounted; one it stays in is not. */
  function AfterLeaving(groups: map<GroupId, Group>, reports: map<ReportId, Report>,
                        previous: Option<GroupId>, g: GroupId): map<GroupId, Group>
  {
    if previous.Some? && previous.value != g && previous.value in groups
    then groups[previous.value := Recomputed(reports, previous.value, groups[previous.value])]
    else groups
  }

  /** The destination group once the report is in it. */
  function AfterJoining(group: Group, reports: map<ReportId, Report>, report: Report,
                        g: GroupId, alreadyCounted: bool, now: int): Group
  {
    var counted := group.(occurrences := group.occurrences + if alreadyCounted then 0 else 1);
    Touched(counted, report, now).(devices := |Devices(reports, g)|)
  }

  function Stamped(report: Report, frames: seq<Frame>, signature: string, now: int): Report {
    report.(symbolicatedAt := Some(now), topFunction := TopFunction(ResolvedNames(frames)),
            signature := Some(signature))
  }

  /** `symbolicate_report` followed by `_assign_group`, for whatever frames the build at hand
      resolved. An unknown report is an error and changes nothing. */
  ghost function Filed(db: Database, r: ReportId, frames: seq<Frame>, now: int, hash: string -> string): Database {
    if r !in db.reports then db
    else
      var report := db.reports[r];
      var signature := SignatureFor(report.fault, frames, hash);
      var g := GroupFor(db, signature);
      var filed := Stamped(report, frames, signature, now).(groupId := Some(g));
      var reports := db.reports[r := filed];
      var groups := AfterLeaving(WithGroup(db, report, frames, signature), reports, report.groupId, g);
      db.(reports := reports,
          groups := groups[g := AfterJoining(groups[g], reports, filed, g, report.groupId == Some(g), now)],
          nextGroup := if HasSignature(db.groups, signature) then db.nextGroup else db.nextGroup + 1)
  }

  // ---------------------------------------------------------------------------
  // Ingestion, triage, deletion
  // ---------------------------------------------------------------------------

  /** Sixty seconds, in the microseconds timestamps are kept in. */
  const DUPLICATE_WINDOW: int := 60 * 1_000_000

  predicate Duplicates(stored: Report, fault: Fault) {
    && stored.fault.device == fault.device && stored.fault.faultType == fault.faultType && stored.fault.pc == fault.pc
    && fault.occurredAt - DUPLICATE_WINDOW <= stored.fault.occurredAt
    && stored.fault.occurredAt <= fault.occurredAt + DUPLICATE_WINDOW
  }

  /** The same device, fault type and program counter, or none in both, a minute apart at most. */
  predicate Repeats(stored: Fault, fault: Fault) {
    && stored.device == fault.device && stored.faultType == fault.faultType && stored.pc == fault.pc
    && stored.occurredAt - fault.occurredAt <= 60_000_000 && fault.occurredAt - stored.occurredAt <= 60_000_000
  }

  lemma DuplicatesRepeat(stored: Report, fault: Fault)
    ensures Duplicates(stored, fault) <==> Repeats(stored.fault, fault)
  {
  }

  ghost predicate HasDuplicate(db: Database, fault: Fault) {
    exists r :: r in db.reports && Duplicates(db.reports[r], fault)
  }

  /** `ingest` up to its first commit; filing the stored report is a step of its own, because
      it may fail and leave the report without a group. */
  ghost function Ingested(db: Database, fault: Fault, severity: Severity): Database {
    if HasDuplicate(db, fault) then db
    else db.(reports := db.reports[db.nextReport := Report(fault, severity, None, None, None, None)],
             nextReport := db.nextReport + 1)
  }

  /** A report `ingest` may answer with: some stored duplicate, or else the new row. */
  ghost predicate IsReply(db: Database, fault: Fault, r: ReportId) {
    if HasDuplicate(db, fault) then r in db.reports && Duplicates(db.reports[r], fault)
    else r == db.nextReport
  }

  function ReportTriaged(db: Database, r: ReportId, severity: Severity): Database {
    if r !in db.reports then db
    else db.(reports := db.reports[r := db.reports[r].(severity := severity)])
  }

  function WithStatus(group: Group, status: GroupStatus): Group {
    group.(status := status, regressedAt := if status != Regressed then None else group.regressedAt)
  }

  function GroupTriaged(db: Database, g: GroupId, status: GroupStatus): Database {
    if g !in db.groups then db
    else db.(groups := db.groups[g := WithStatus(db.groups[g], status)])
  }

  /** Deleting a report leaves every group as it was. */
  function Deleted(db: Database, r: ReportId): Database {
    db.(reports := db.reports - {r})
  }

  datatype Event =
    | Ingest(fault: Fault, level: Severity)
    | File(report: ReportId, frames: seq<Frame>, now: int)
    | TriageReport(report: ReportId, level: Severity)
    | TriageGroup(group: GroupId, status: GroupStatus)
    | Delete(report: ReportId)

  ghost function Apply(db: Database, e: Event, hash: string -> string): Database {
    match e
    case Ingest(fault, level) => Ingested(db, fault, level)
    case File(r, frames, now) => Filed(db, r, frames, now, hash)
    case TriageReport(r, level) => ReportTriaged(db, r, level)
    case TriageGroup(g, status) => GroupTriaged(db, g, status)
    case Delete(r) => Deleted(db, r)
  }

  ghost function Run(db: Database, events: seq<Event>, hash: string -> string): Database {
    if events == [] then db
    else Apply(Run(db, events[..|events| - 1], hash), events[|events| - 1], hash)
  }
}
