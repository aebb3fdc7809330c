/** Every grouped report agrees with its group about what the bug is. */
module GroupAgreement {
  import opened Wrappers
  import opened StackAnalyzer
  import opened Signature
  import opened CrashDatabase
  import opened GroupAccounting

  function NamesIn(c: Components): seq<string> { if c.Symbolized? then c.names else [] }

  /** What a group says of the bug follows from the components its signature was hashed from. */
  ghost predicate Explained(group: Group, hash: string -> string) {
    && Clean(group.components)
    && group.signature == hash(Payload(group.components))
    && group.faultType == group.components.faultType
    && OrEmpty(group.taskName) == group.components.task
    && group.title == Title(group.components.faultType, NamesIn(group.components), Some(group.components.task))
    && group.topFunction == TopFunction(NamesIn(group.components))
  }

  /** The report says of the bug what the group says. */
  ghost predicate Agrees(report: Report, group: Group) {
    && report.signature == Some(group.signature)
    && report.fault.faultType == group.faultType
    && OrEmpty(report.fault.taskName) == OrEmpty(group.taskName)
    && report.topFunction == group.topFunction
    && (group.components.Unsymbolized? ==>
          report.fault.pc == group.components.pc && report.fault.firmware == group.components.firmware)
  }

  ghost predicate CleanFault(fault: Fault) { Free('|', fault.faultType) && Free('|', fault.firmware) }

  /** The names in the frames, and the firmware and fault type of the payloads, are free of
      the characters the hashed text uses as separators. */
  ghost predicate CleanEvent(e: Event) {
    match e
    case Ingest(fault, _) => CleanFault(fault)
    case File(_, frames, _) => CleanNames(SignatureNames(frames))
    case _ => true
  }

  ghost predicate Agreement(db: Database, hash: string -> string) {
    && Keyed(db)
    && (forall r :: r in db.reports ==> CleanFault(db.reports[r].fault))
    && (forall g :: g in db.groups ==> Explained(db.groups[g], hash))
    && (forall r :: r in db.reports && db.reports[r].groupId.Some? ==>
          Agrees(db.reports[r], db.groups[db.reports[r].groupId.value]))
  }

  /** Two rows say the same of the bug, whatever their counters and status. */
  ghost predicate SameBug(a: Group, b: Group) {
    && a.signature == b.signature && a.components == b.components && a.title == b.title
    && a.faultType == b.faultType && a.taskName == b.taskName && a.topFunction == b.topFunction
  }

  lemma TitleIgnoresMissingTask(faultType: string, names: seq<string>, task: Option<string>)
    ensures Title(faultType, names, task) == Title(faultType, names, Some(OrEmpty(task)))
  {
  }

  /** Title and top function need only the first of the names. */
  lemma HeadDecides(faultType: string, frames: seq<Frame>, task: Option<string>)
    ensures Title(faultType, ResolvedNames(frames), task) == Title(faultType, SignatureNames(frames), task)
    ensures TopFunction(ResolvedNames(frames)) == TopFunction(SignatureNames(frames))
  {
    SignatureNamesHead(frames);
  }

  lemma NewGroupIsExplained(report: Report, frames: seq<Frame>, hash: string -> string)
    requires CleanFault(report.fault) && CleanNames(SignatureNames(frames))
    ensures Clean(ComponentsFor(report.fault, frames))
    ensures Explained(NewGroup(report, frames, SignatureFor(report.fault, frames, hash)), hash)
  {
    HeadDecides(report.fault.faultType, frames, report.fault.taskName);
    TitleIgnoresMissingTask(report.fault.faultType, SignatureNames(frames), report.fault.taskName);
    var names := SignatureNames(frames);
    assert forall i :: 0 <= i < |names| ==> names[i] in names;
  }

  /** A filed report agrees with any explained group of its signature. */
  lemma FiledReportAgrees(report: Report, frames: seq<Frame>, now: int, group: Group, hash: string -> string)
    requires Injective(hash) && Explained(group, hash)
    requires Clean(ComponentsFor(report.fault, frames))
    requires group.signature == SignatureFor(report.fault, frames, hash)
    ensures Agrees(Stamped(report, frames, group.signature, now), group)
  {
    PayloadIsInjective(ComponentsFor(report.fault, frames), group.components);
    HeadDecides(report.fault.faultType, frames, report.fault.taskName);
  }

  lemma FilingKeepsTheBug(db: Database, r: ReportId, frames: seq<Frame>, now: int, hash: string -> string, h: GroupId)
    requires Keyed(db) && r in db.reports && h in Filed(db, r, frames, now, hash).groups
    ensures var report := db.reports[r];
            SameBug(Filed(db, r, frames, now, hash).groups[h],
                    if h in db.groups then db.groups[h]
                    else NewGroup(report, frames, SignatureFor(report.fault, frames, hash)))
  {
    hide Filed, SignatureFor, GroupFor, SameBug, AfterJoining, Recomputed, NewGroup, Keyed;
    var report, db' := db.reports[r], Filed(db, r, frames, now, hash);
    var signature := SignatureFor(report.fault, frames, hash);
    FilingByGroup(db, r, frames, now, hash);
    var group := if h in db.groups then db.groups[h] else NewGroup(report, frames, signature);
    JoiningKeepsTheBug(group, db'.reports, db'.reports[r], h, report.groupId == Some(h), now);
    RecountKeepsTheBug(db'.reports, h, group);
  }

  lemma JoiningKeepsTheBug(group: Group, reports: map<ReportId, Report>, report: Report, g: GroupId,
                           counted: bool, now: int)
    ensures SameBug(AfterJoining(group, reports, report, g, counted, now), group)
  {
    hide Devices;
  }

  lemma RecountKeepsTheBug(reports: map<ReportId, Report>, g: GroupId, group: Group)
    ensures SameBug(Recomputed(reports, g, group), group) && SameBug(group, group)
  {
    hide Members, Devices, Versions, Times;
  }

  lemma ExplainedCarriesOver(a: Group, b: Group, hash: string -> string)
    requires SameBug(a, b)
    ensures Explained(a, hash) == Explained(b, hash)
    ensures forall report :: Agrees(report, a) == Agrees(report, b)
  {
  }

  lemma FiledGroupIsExplained(db: Database, r: ReportId, frames: seq<Frame>, now: int, hash: string -> string, h: GroupId)
    requires Agreement(db, hash) && r in db.reports
    requires CleanEvent(File(r, frames, now)) && h in Filed(db, r, frames, now, hash).groups
    ensures Explained(Filed(db, r, frames, now, hash).groups[h], hash)
  {
    var report := db.reports[r];
    var before := if h in db.groups then db.groups[h]
                  else NewGroup(report, frames, SignatureFor(report.fault, frames, hash));
    NewGroupIsExplained(report, frames, hash);
    FilingKeepsTheBug(db, r, frames, now, hash, h);
    ExplainedCarriesOver(Filed(db, r, frames, now, hash).groups[h], before, hash);
  }

  lemma GroupedReportStillAgrees(db: Database, r: ReportId, frames: seq<Frame>, now: int, hash: string -> string,
                                 s: ReportId)
    requires Agreement(db, hash) && Injective(hash) && r in db.reports && CleanEvent(File(r, frames, now))
    requires s in db.reports && (s == r || db.reports[s].groupId.Some?)
    ensures var db' := Filed(db, r, frames, now, hash);
            && s in db'.reports && db'.reports[s].groupId.Some? && db'.reports[s].groupId.value in db'.groups
            && Agrees(db'.reports[s], db'.groups[db'.reports[s].groupId.value])
  {
    var db' := Filed(db, r, frames, now, hash);
    var report := db.reports[r];
    FilingByGroup(db, r, frames, now, hash);
    var h := db'.reports[s].groupId.value;
    FilingKeepsTheBug(db, r, frames, now, hash, h);
    if s == r {
      var signature := SignatureFor(report.fault, frames, hash);
      GroupForIsUnique(db, signature);
      NewGroupIsExplained(report, frames, hash);
      FiledGroupIsExplained(db, r, frames, now, hash, h);
      FiledReportAgrees(report, frames, now, db'.groups[h], hash);
    } else {
      assert db'.reports[s] == db.reports[s];
      assert Agrees(db.reports[s], db.groups[h]);
    }
  }

  lemma FilingKeepsAgreement(db: Database, r: ReportId, frames: seq<Frame>, now: int, hash: string -> string)
    requires Agreement(db, hash) && Injective(hash) && r in db.reports && CleanEvent(File(r, frames, now))
    ensures Agreement(Filed(db, r, frames, now, hash), hash)
  {
    hide Filed, Explained, Agrees, SignatureFor, GroupFor, AfterJoining, Recomputed, NewGroup, CleanEvent, Injective;
    var db' := Filed(db, r, frames, now, hash);
    FilingKeepsKeys(db, r, frames, now, hash);
    FilingByGroup(db, r, frames, now, hash);
    forall h | h in db'.groups ensures Explained(db'.groups[h], hash) {
      FiledGroupIsExplained(db, r, frames, now, hash, h);
    }
    forall s | s in db'.reports && db'.reports[s].groupId.Some?
      ensures Agrees(db'.reports[s], db'.groups[db'.reports[s].groupId.value])
    {
      GroupedReportStillAgrees(db, r, frames, now, hash, s);
    }
  }

  lemma DeletingKeepsAgreement(db: Database, r: ReportId, hash: string -> string)
    requires Agreement(db, hash)
    ensures Agreement(Deleted(db, r), hash)
  {
  }

  lemma TriagingKeepsAgreement(db: Database, g: GroupId, status: GroupStatus, hash: string -> string)
    requires Agreement(db, hash)
    ensures Agreement(GroupTriaged(db, g, status), hash)
  {
    TriageKeepsKeys(db, g, status);
  }

  lemma UnnoticedKeepsAgreement(db: Database, e: Event, hash: string -> string)
    requires Agreement(db, hash) && CleanEvent(e) && (e.Ingest? || e.TriageReport?)
    ensures Agreement(Apply(db, e, hash), hash)
  {
    if e.Ingest? {
      IngestIsUnnoticed(db, e.fault, e.level);
    } else {
      ReportTriageIsUnnoticed(db, e.report, e.level);
    }
  }

  lemma StepKeepsAgreement(db: Database, e: Event, hash: string -> string)
    requires Agreement(db, hash) && Injective(hash) && CleanEvent(e)
    ensures Agreement(Apply(db, e, hash), hash)
  {
    hide Agreement, Injective, GroupTriaged, Deleted;
    match e
    case Ingest(_, _) => UnnoticedKeepsAgreement(db, e, hash);
    case File(r, frames, now) => if r in db.reports { FilingKeepsAgreement(db, r, frames, now, hash); }
    case TriageReport(_, _) => UnnoticedKeepsAgreement(db, e, hash);
    case TriageGroup(g, status) => TriagingKeepsAgreement(db, g, status, hash);
    case Delete(r) => DeletingKeepsAgreement(db, r, hash);
  }

  lemma {:induction false} RunsAgree(events: seq<Event>, hash: string -> string)
    requires Injective(hash) && forall i :: 0 <= i < |events| ==> CleanEvent(events[i])
    ensures Agreement(Run(EMPTY, events, hash), hash)
  {
    if events != [] {
      var n := |events| - 1;
      RunsAgree(events[..n], hash);
      StepKeepsAgreement(Run(EMPTY, events[..n], hash), events[n], hash);
    }
  }

  // ---------------------------------------------------------------------------
  // What each report was filed with
  // ---------------------------------------------------------------------------

  /** The frames each report had when it was last filed. */
  ghost function FiledFrames(events: seq<Event>, hash: string -> string): map<ReportId, seq<Frame>> {
    if events == [] then map[]
    else
      var front, e := events[..|events| - 1], events[|events| - 1];
      var earlier := FiledFrames(front, hash);
      if e.File? && e.report in Run(EMPTY, front, hash).reports then earlier[e.report := e.frames] else earlier
  }

  /** The group was made of what its member was last filed with. */
  ghost predicate AlikeAt(db: Database, filed: map<ReportId, seq<Frame>>, r: ReportId)
    requires r in db.reports
  {
    var g := db.reports[r].groupId;
    g.Some? ==> r in filed && g.value in db.groups
                && db.groups[g.value].components == ComponentsFor(db.reports[r].fault, filed[r])
  }

  ghost predicate Alike(db: Database, filed: map<ReportId, seq<Frame>>) {
    forall r :: r in db.reports ==> AlikeAt(db, filed, r)
  }

  lemma SamePayloadSameComponents(report: Report, frames: seq<Frame>, group: Group, hash: string -> string)
    requires Injective(hash) && Explained(group, hash) && Clean(ComponentsFor(report.fault, frames))
    requires group.signature == SignatureFor(report.fault, frames, hash)
    ensures group.components == ComponentsFor(report.fault, frames)
  {
    PayloadIsInjective(ComponentsFor(report.fault, frames), group.components);
  }

  lemma FilingKeepsAlikeAt(db: Database, filed: map<ReportId, seq<Frame>>, r: ReportId, frames: seq<Frame>, now: int,
                           hash: string -> string, s: ReportId)
    requires Agreement(db, hash) && Alike(db, filed) && Injective(hash) && CleanEvent(File(r, frames, now))
    requires r in db.reports && s in Filed(db, r, frames, now, hash).reports
    ensures AlikeAt(Filed(db, r, frames, now, hash), filed[r := frames], s)
  {
    hide Filed, Explained, Agrees, Keyed, GroupFor, SignatureFor, ComponentsFor;
    var db' := Filed(db, r, frames, now, hash);
    FilingByGroup(db, r, frames, now, hash);
    FilingKeepsKeys(db, r, frames, now, hash);
    GroupForIsUnique(db, SignatureFor(db.reports[r].fault, frames, hash));
    NewGroupIsExplained(db.reports[r], frames, hash);
    assert AlikeAt(db, filed, s);
    var g := db'.reports[s].groupId;
    if g.Some? {
      FilingKeepsTheBug(db, r, frames, now, hash, g.value);
      FiledGroupIsExplained(db, r, frames, now, hash, g.value);
      if s == r {
        SamePayloadSameComponents(db.reports[r], frames, db'.groups[g.value], hash);
      }
    }
  }

  lemma OtherStepsKeepAlike(db: Database, filed: map<ReportId, seq<Frame>>, e: Event, hash: string -> string)
    requires Keyed(db) && Alike(db, filed) && !(e.File? && e.report in db.reports)
    ensures Alike(Apply(db, e, hash), filed)
  {
    hide ComponentsFor;
    var db' := Apply(db, e, hash);
    forall s | s in db'.reports ensures AlikeAt(db', filed, s) {
      assert s in db.reports ==> AlikeAt(db, filed, s);
    }
  }

  lemma {:induction false} RunsAreAlike(events: seq<Event>, hash: string -> string)
    requires Injective(hash) && forall i :: 0 <= i < |events| ==> CleanEvent(events[i])
    ensures Alike(Run(EMPTY, events, hash), FiledFrames(events, hash))
  {
    if events != [] {
      var front, e := events[..|events| - 1], events[|events| - 1];
      var db, filed := Run(EMPTY, front, hash), FiledFrames(front, hash);
      RunsAreAlike(front, hash);
      RunsAgree(front, hash);
      hide Agreement, AlikeAt;
      if e.File? && e.report in db.reports {
        forall s | s in Filed(db, e.report, e.frames, e.now, hash).reports
          ensures AlikeAt(Filed(db, e.report, e.frames, e.now, hash), filed[e.report := e.frames], s)
        {
          FilingKeepsAlikeAt(db, filed, e.report, e.frames, e.now, hash, s);
        }
      } else {
        OtherStepsKeepAlike(db, filed, e, hash);
      }
    }
  }

  /** The group says of the bug what this report and its frames say. */
  ghost predicate Describes(group: Group, report: Report, frames: seq<Frame>, hash: string -> string) {
    var fault, names := report.fault, ResolvedNames(frames);
    && group.components == ComponentsFor(fault, frames)
    && group.signature == SignatureFor(fault, frames, hash) && report.signature == Some(group.signature)
    && group.faultType == fault.faultType && OrEmpty(group.taskName) == OrEmpty(fault.taskName)
    && group.title == Title(fault.faultType, names, fault.taskName)
    && group.topFunction == TopFunction(names) && report.topFunction == group.topFunction
  }

  lemma AlikeIsDescribed(group: Group, report: Report, frames: seq<Frame>, hash: string -> string)
    requires Explained(group, hash) && Agrees(report, group) && group.components == ComponentsFor(report.fault, frames)
    ensures Describes(group, report, frames, hash)
  {
    HeadDecides(report.fault.faultType, frames, report.fault.taskName);
    TitleIgnoresMissingTask(report.fault.faultType, SignatureNames(frames), report.fault.taskName);
    hide Title, TopFunction;
  }

  /** In every reachable state each grouped report and the frames it was last filed with say of
      the bug what its group says: signature, components, fault type, task, top function and
      the title it would be given today. */
  lemma GroupedReportsAgree(events: seq<Event>, hash: string -> string, r: ReportId)
    requires Injective(hash) && forall i :: 0 <= i < |events| ==> CleanEvent(events[i])
    requires var db := Run(EMPTY, events, hash);
             r in db.reports && db.reports[r].groupId.Some?
    ensures var db, filed := Run(EMPTY, events, hash), FiledFrames(events, hash);
            var g := db.reports[r].groupId.value;
            g in db.groups && r in filed && Describes(db.groups[g], db.reports[r], filed[r], hash)
  {
    RunsAgree(events, hash);
    RunsAreAlike(events, hash);
    var db, filed := Run(EMPTY, events, hash), FiledFrames(events, hash);
    assert AlikeAt(db, filed, r);
    hide Run, FiledFrames, Describes;
    AlikeIsDescribed(db.groups[db.reports[r].groupId.value], db.reports[r], filed[r], hash);
  }
}
