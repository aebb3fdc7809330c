/** The denormalised columns of a crash group agree with a recount of its reports, in every
    state any run reaches: services/symbolication.py against repositories/crash_group.py. */
module GroupAccounting {
  import opened Wrappers
  import opened Sets
  import opened StackAnalyzer
  import opened CrashDatabase

  datatype Filing = Filing(group: GroupId, severity: Severity)

  /** The tables together with what history has to be remembered to explain them: per group
      the reports deleted since its counters were last rebuilt, the times its window still
      covers although no report is there any more, and every filing so far. */
  datatype Ledger = Ledger(db: Database, drift: map<GroupId, nat>,
                           remembered: map<GroupId, set<int>>, filings: seq<Filing>)

  const START := Ledger(EMPTY, map[], map[], [])

  // ---------------------------------------------------------------------------
  // History
  // ---------------------------------------------------------------------------

  /** The group a filing takes its report out of, if it takes it out of one. */
  ghost function Left(db: Database, r: ReportId, g: GroupId): Option<GroupId>
    requires r in db.reports
  {
    var previous := db.reports[r].groupId;
    if previous.Some? && previous.value != g && previous.value in db.groups then previous else None
  }

  /** Remember a filing into `g` that took its report out of `left`, if any. */
  ghost function NoteFiling(l: Ledger, db: Database, g: GroupId, left: Option<GroupId>, severity: Severity): Ledger
    requires left.Some? ==> left.value in l.db.groups
  {
    var drift := if g in l.drift then l.drift else l.drift[g := 0];
    var remembered := if g in l.remembered then l.remembered else l.remembered[g := {}];
    var filings := l.filings + [Filing(g, severity)];
    if left.None? then Ledger(db, drift, remembered, filings)
    else
      var h := left.value;
      var stale := if Members(db.reports, h) != {} then {}
                   else {l.db.groups[h].firstSeen, l.db.groups[h].lastSeen};
      Ledger(db, drift[h := 0], remembered[h := stale], filings)
  }

  ghost function TrackFiling(l: Ledger, r: ReportId, frames: seq<Frame>, now: int, hash: string -> string): Ledger {
    if r !in l.db.reports then l
    else
      var report := l.db.reports[r];
      var g := GroupFor(l.db, SignatureFor(report.fault, frames, hash));
      NoteFiling(l, Filed(l.db, r, frames, now, hash), g, Left(l.db, r, g), report.severity)
  }

  ghost function TrackDelete(l: Ledger, r: ReportId): Ledger {
    var db := Deleted(l.db, r);
    if r in l.db.reports && l.db.reports[r].groupId.Some? then
      var g := l.db.reports[r].groupId.value;
      if g in l.drift && g in l.remembered then
        Ledger(db, l.drift[g := l.drift[g] + 1],
               l.remembered[g := l.remembered[g] + {l.db.reports[r].fault.occurredAt}], l.filings)
      else l.(db := db)
    else l.(db := db)
  }

  ghost function Track(l: Ledger, e: Event, hash: string -> string): Ledger {
    match e
    case File(r, frames, now) => TrackFiling(l, r, frames, now, hash)
    case Delete(r) => TrackDelete(l, r)
    case _ => l.(db := Apply(l.db, e, hash))
  }

  ghost function History(events: seq<Event>, hash: string -> string): Ledger {
    if events == [] then START
    else Track(History(events[..|events| - 1], hash), events[|events| - 1], hash)
  }

  /** The history is kept beside the tables; the tables evolve as they would without it. */
  lemma {:induction false} HistoryRunsTheTables(events: seq<Event>, hash: string -> string)
    ensures History(events, hash).db == Run(EMPTY, events, hash)
  {
    if events != [] {
      HistoryRunsTheTables(events[..|events| - 1], hash);
    }
  }

  // ---------------------------------------------------------------------------
  // The invariant
  // ---------------------------------------------------------------------------

  /** Signatures are unique and a fresh group identifier is fresh. */
  ghost predicate GroupsKeyed(groups: map<GroupId, Group>, next: GroupId) {
    && (forall g, h :: g in groups && h in groups && groups[g].signature == groups[h].signature ==> g == h)
    && (forall g :: g in groups ==> g < next)
  }

  /** Group references point at groups and a fresh report identifier is fresh. */
  ghost predicate ReportsKeyed(reports: map<ReportId, Report>, groups: set<GroupId>, next: ReportId) {
    && (forall r :: r in reports && reports[r].groupId.Some? ==> reports[r].groupId.value in groups)
    && (forall r :: r in reports ==> r < next)
  }

  ghost predicate Keyed(db: Database) {
    GroupsKeyed(db.groups, db.nextGroup) && ReportsKeyed(db.reports, db.groups.Keys, db.nextReport)
  }

  ghost predicate Counted(reports: map<ReportId, Report>, g: GroupId, group: Group, drift: nat) {
    && group.occurrences == |Members(reports, g)| + drift
    && Versions(reports, g) <= group.versions
    && (drift == 0 ==> group.devices == |Devices(reports, g)| && group.versions == Versions(reports, g))
  }

  /** The window is the hull of the members' times and the remembered ones. */
  ghost predicate Windowed(reports: map<ReportId, Report>, g: GroupId, group: Group, remembered: set<int>) {
    && IsLeast(group.firstSeen, Times(reports, g) + remembered)
    && IsGreatest(group.lastSeen, Times(reports, g) + remembered)
  }

  /** The severity is the worst of those its filings carried. */
  ghost predicate Worst(severity: Severity, g: GroupId, filings: seq<Filing>) {
    && Filing(g, severity) in filings
    && forall f :: f in filings && f.group == g ==> !MoreSevere(f.severity, severity)
  }

  ghost predicate Sound(reports: map<ReportId, Report>, g: GroupId, group: Group,
                        drift: nat, remembered: set<int>, filings: seq<Filing>)
  {
    && Counted(reports, g, group, drift)
    && Windowed(reports, g, group, remembered)
    && Worst(group.severity, g, filings)
    && (group.regressedAt.Some? ==> group.status == Regressed)
  }

  /** The history speaks of the groups there are. */
  ghost predicate Tracked(l: Ledger) {
    && l.drift.Keys == l.db.groups.Keys && l.remembered.Keys == l.db.groups.Keys
    && forall f :: f in l.filings ==> f.group in l.db.groups
  }

  ghost predicate SoundAt(l: Ledger, g: GroupId)
    requires g in l.db.groups && g in l.drift && g in l.remembered
  {
    Sound(l.db.reports, g, l.db.groups[g], l.drift[g], l.remembered[g], l.filings)
  }

  ghost predicate AllSound(l: Ledger)
    requires Tracked(l)
  {
    forall g :: g in l.db.groups ==> SoundAt(l, g)
  }

  ghost predicate Inv(l: Ledger) { Keyed(l.db) && Tracked(l) && AllSound(l) }

  // ---------------------------------------------------------------------------
  // How a change of the report table shows in the queries
  // ---------------------------------------------------------------------------

  /** Rows that keep their fault and their group are the same to every query. */
  lemma QueriesUnchanged(before: map<ReportId, Report>, after: map<ReportId, Report>, g: GroupId)
    requires Members(before, g) == Members(after, g)
    requires forall r :: r in Members(before, g) ==> after[r].fault == before[r].fault
    ensures Devices(before, g) == Devices(after, g)
    ensures Versions(before, g) == Versions(after, g)
    ensures Times(before, g) == Times(after, g)
  {
    assert forall r :: r in Members(before, g) <==> r in Members(after, g);
  }

  lemma QueriesGrow(before: map<ReportId, Report>, after: map<ReportId, Report>, g: GroupId, r: ReportId)
    requires Members(after, g) == Members(before, g) + {r}
    requires forall x :: x in Members(before, g) ==> after[x].fault == before[x].fault
    ensures Versions(after, g) == Versions(before, g) + {after[r].fault.firmware}
    ensures Times(after, g) == Times(before, g) + {after[r].fault.occurredAt}
  {
    assert forall x :: x in Members(after, g) <==> x in Members(before, g) || x == r;
    forall v ensures v in Versions(after, g) <==> v in Versions(before, g) + {after[r].fault.firmware} {
      if v in Versions(before, g) {
        var x :| x in Members(before, g) && before[x].fault.firmware == v;
        assert x in Members(after, g) && after[x].fault.firmware == v;
      }
    }
    forall v ensures v in Times(after, g) <==> v in Times(before, g) + {after[r].fault.occurredAt} {
      if v in Times(before, g) {
        var x :| x in Members(before, g) && before[x].fault.occurredAt == v;
        assert x in Members(after, g) && after[x].fault.occurredAt == v;
      }
    }
  }

  // ---------------------------------------------------------------------------
  // Filing
  // ---------------------------------------------------------------------------

  /** Group membership after the report has been put into `g`. */
  lemma MembersAfterFiling(reports: map<ReportId, Report>, r: ReportId, row: Report, g: GroupId, h: GroupId)
    requires r in reports && row.groupId == Some(g) && row.fault == reports[r].fault
    ensures var after := reports[r := row];
            Members(after, h) == if h == g then Members(reports, h) + {r} else Members(reports, h) - {r}
  {
  }

  lemma BystanderStaysSound(reports: map<ReportId, Report>, r: ReportId, row: Report, g: GroupId, h: GroupId,
                            group: Group, drift: nat, remembered: set<int>, filings: seq<Filing>, f: Filing)
    requires r in reports && row.groupId == Some(g) && row.fault == reports[r].fault
    requires h != g && f.group == g && reports[r].groupId != Some(h)
    requires Sound(reports, h, group, drift, remembered, filings)
    ensures Sound(reports[r := row], h, group, drift, remembered, filings + [f])
  {
    MembersAfterFiling(reports, r, row, g, h);
    QueriesUnchanged(reports, reports[r := row], h);
  }

  lemma LeftGroupIsRecounted(reports: map<ReportId, Report>, h: GroupId, group: Group,
                             filings: seq<Filing>, f: Filing)
    requires f.group != h && Worst(group.severity, h, filings)
    requires group.firstSeen <= group.lastSeen
    requires group.regressedAt.Some? ==> group.status == Regressed
    ensures var remembered := if Members(reports, h) != {} then {} else {group.firstSeen, group.lastSeen};
            Sound(reports, h, Recomputed(reports, h, group), 0, remembered, filings + [f])
  {
    var times := Times(reports, h);
    if Members(reports, h) != {} {
      var r := SomeElement(Members(reports, h));
      assert reports[r].fault.occurredAt in times;
      assert times + {} == times;
    } else {
      assert times == {};
    }
  }

  lemma WidenedIsHull(group: Group, times: set<int>, t: int)
    requires (times == {} && group.firstSeen == t && group.lastSeen == t) ||
             (IsLeast(group.firstSeen, times) && IsGreatest(group.lastSeen, times))
    ensures IsLeast(Widened(group, t).firstSeen, times + {t})
    ensures IsGreatest(Widened(group, t).lastSeen, times + {t})
  {
  }

  lemma EscalatedIsWorst(group: Group, g: GroupId, severity: Severity, filings: seq<Filing>)
    requires Worst(group.severity, g, filings) ||
             (group.severity == severity && forall f :: f in filings ==> f.group != g)
    ensures Worst(Escalated(group, severity).severity, g, filings + [Filing(g, severity)])
  {
    RankIsTheOrder(severity, group.severity);
    var longer := filings + [Filing(g, severity)];
    assert longer[|filings|] == Filing(g, severity);
    assert forall f :: f in filings ==> f in longer;
  }

  /** What the destination must satisfy before the report joins: either it is sound, or it has
      just been created for this report. */
  ghost predicate Welcoming(reports: map<ReportId, Report>, g: GroupId, group: Group, report: Report,
                            drift: nat, remembered: set<int>, filings: seq<Filing>)
  {
    || Sound(reports, g, group, drift, remembered, filings)
    || (&& Members(reports, g) == {} && drift == 0 && remembered == {}
        && group.occurrences == 0 && group.devices == 0 && group.versions == {} && group.regressedAt == None
        && group.firstSeen == report.fault.occurredAt && group.lastSeen == report.fault.occurredAt
        && group.severity == report.severity && forall f :: f in filings ==> f.group != g)
  }

  lemma JoinedFields(group: Group, reports: map<ReportId, Report>, row: Report, g: GroupId,
                     alreadyCounted: bool, now: int)
    ensures var joined := AfterJoining(group, reports, row, g, alreadyCounted, now);
            && joined.occurrences == group.occurrences + (if alreadyCounted then 0 else 1)
            && joined.devices == |Devices(reports, g)|
            && joined.versions == group.versions + {row.fault.firmware}
            && joined.firstSeen == Widened(group, row.fault.occurredAt).firstSeen
            && joined.lastSeen == Widened(group, row.fault.occurredAt).lastSeen
            && joined.severity == Escalated(group, row.severity).severity
            && joined.signature == group.signature
            && joined.status != Resolved
            && ((group.regressedAt.Some? ==> group.status == Regressed) ==>
                (joined.regressedAt.Some? ==> joined.status == Regressed))
  {
  }

  lemma JoinedIsCounted(reports: map<ReportId, Report>, r: ReportId, row: Report, g: GroupId, group: Group,
                        drift: nat, now: int)
    requires r in reports && row.groupId == Some(g) && row.fault == reports[r].fault
    requires Counted(reports, g, group, drift)
    ensures var after := reports[r := row];
            Counted(after, g, AfterJoining(group, after, row, g, reports[r].groupId == Some(g), now), drift)
  {
    var after := reports[r := row];
    MembersAfterFiling(reports, r, row, g, g);
    QueriesGrow(reports, after, g, r);
    JoinedFields(group, after, row, g, reports[r].groupId == Some(g), now);
    SizeOfAdd(Members(reports, g), r);
  }

  lemma JoinedIsWindowed(reports: map<ReportId, Report>, r: ReportId, row: Report, g: GroupId, group: Group,
                         remembered: set<int>, now: int)
    requires r in reports && row.groupId == Some(g) && row.fault == reports[r].fault
    requires Windowed(reports, g, group, remembered) ||
             (Times(reports, g) + remembered == {} &&
              group.firstSeen == row.fault.occurredAt && group.lastSeen == row.fault.occurredAt)
    ensures var after := reports[r := row];
            Windowed(after, g, AfterJoining(group, after, row, g, reports[r].groupId == Some(g), now), remembered)
  {
    var after := reports[r := row];
    MembersAfterFiling(reports, r, row, g, g);
    QueriesGrow(reports, after, g, r);
    JoinedFields(group, after, row, g, reports[r].groupId == Some(g), now);
    var times := Times(reports, g) + remembered;
    WidenedIsHull(group, times, row.fault.occurredAt);
    assert Times(after, g) + remembered == times + {row.fault.occurredAt};
  }

  lemma JoinedGroupIsSound(reports: map<ReportId, Report>, r: ReportId, row: Report, g: GroupId, group: Group,
                           drift: nat, remembered: set<int>, filings: seq<Filing>, now: int)
    requires r in reports && row.groupId == Some(g) && row.fault == reports[r].fault
    requires row.severity == reports[r].severity
    requires Welcoming(reports, g, group, reports[r], drift, remembered, filings)
    ensures var after := reports[r := row];
            Sound(after, g, AfterJoining(group, after, row, g, reports[r].groupId == Some(g), now),
                  drift, remembered, filings + [Filing(g, row.severity)])
  {
    var after := reports[r := row];
    if Members(reports, g) == {} {
      assert Times(reports, g) == {} && Versions(reports, g) == {} && Devices(reports, g) == {};
      assert Times(reports, g) + remembered == remembered;
    }
    JoinedIsCounted(reports, r, row, g, group, drift, now);
    JoinedIsWindowed(reports, r, row, g, group, remembered, now);
    EscalatedIsWorst(group, g, row.severity, filings);
    JoinedFields(group, after, row, g, reports[r].groupId == Some(g), now);
  }

  lemma GroupForIsUnique(db: Database, signature: string)
    requires Keyed(db)
    ensures HasSignature(db.groups, signature) <==> GroupFor(db, signature) in db.groups
    ensures forall g :: g in db.groups && db.groups[g].signature == signature ==> g == GroupFor(db, signature)
  {
  }

  lemma LeavingByGroup(groups: map<GroupId, Group>, reports: map<ReportId, Report>,
                       previous: Option<GroupId>, g: GroupId, h: GroupId)
    requires h in groups
    ensures var after := AfterLeaving(groups, reports, previous, g);
            && after.Keys == groups.Keys
            && after[h] == if previous == Some(h) && h != g then Recomputed(reports, h, groups[h]) else groups[h]
  {
  }

  /** The three kinds of group a filing meets: the destination, the one left, the others. */
  lemma FilingByGroup(db: Database, r: ReportId, frames: seq<Frame>, now: int, hash: string -> string)
    requires Keyed(db) && r in db.reports
    ensures var db' := Filed(db, r, frames, now, hash);
            var report := db.reports[r];
            var signature := SignatureFor(report.fault, frames, hash);
            var g := GroupFor(db, signature);
            var row := Stamped(report, frames, signature, now).(groupId := Some(g));
            && db'.reports == db.reports[r := row]
            && db'.groups.Keys == db.groups.Keys + {g}
            && db'.groups[g] == AfterJoining(if g in db.groups then db.groups[g] else NewGroup(report, frames, signature),
                                             db'.reports, row, g, report.groupId == Some(g), now)
            && (forall h :: h in db.groups && h != g ==>
                  && (Left(db, r, g) == Some(h) <==> report.groupId == Some(h))
                  && db'.groups[h] ==
                     if report.groupId == Some(h) then Recomputed(db'.reports, h, db.groups[h]) else db.groups[h])
  {
    var report := db.reports[r];
    var signature := SignatureFor(report.fault, frames, hash);
    var g := GroupFor(db, signature);
    var row := Stamped(report, frames, signature, now).(groupId := Some(g));
    var groups := WithGroup(db, report, frames, signature);
    forall h | h in groups
      ensures AfterLeaving(groups, db.reports[r := row], report.groupId, g).Keys == groups.Keys
      ensures AfterLeaving(groups, db.reports[r := row], report.groupId, g)[h] ==
              if report.groupId == Some(h) && h != g then Recomputed(db.reports[r := row], h, groups[h]) else groups[h]
    {
      LeavingByGroup(groups, db.reports[r := row], report.groupId, g, h);
    }
  }

  lemma FiledSignature(db: Database, r: ReportId, frames: seq<Frame>, now: int, hash: string -> string, h: GroupId)
    requires Keyed(db) && r in db.reports && h in Filed(db, r, frames, now, hash).groups
    ensures Filed(db, r, frames, now, hash).groups[h].signature ==
            if h in db.groups then db.groups[h].signature
            else SignatureFor(db.reports[r].fault, frames, hash)
  {
    hide Filed, Keyed, SignatureFor, GroupFor;
    FilingByGroup(db, r, frames, now, hash);
    GroupForIsUnique(db, SignatureFor(db.reports[r].fault, frames, hash));
  }

  lemma KeyedWithGroup(groups: map<GroupId, Group>, next: GroupId, after: map<GroupId, Group>, g: GroupId,
                       signature: string)
    requires GroupsKeyed(groups, next) && after.Keys == groups.Keys + {g}
    requires forall h :: h in after ==>
               after[h].signature == if h in groups then groups[h].signature else signature
    requires g !in groups ==> g == next && forall h :: h in groups ==> groups[h].signature != signature
    ensures GroupsKeyed(after, if g in groups then next else next + 1)
  {
  }

  lemma FilingKeepsKeys(db: Database, r: ReportId, frames: seq<Frame>, now: int, hash: string -> string)
    requires Keyed(db) && r in db.reports
    ensures Keyed(Filed(db, r, frames, now, hash))
  {
    var db' := Filed(db, r, frames, now, hash);
    var signature := SignatureFor(db.reports[r].fault, frames, hash);
    var g := GroupFor(db, signature);
    FilingByGroup(db, r, frames, now, hash);
    GroupForIsUnique(db, signature);
    forall h | h in db'.groups
      ensures db'.groups[h].signature == if h in db.groups then db.groups[h].signature else signature
    {
      FiledSignature(db, r, frames, now, hash, h);
    }
    KeyedWithGroup(db.groups, db.nextGroup, db'.groups, g, signature);
  }

  lemma DestinationWelcomes(l: Ledger, r: ReportId, frames: seq<Frame>, hash: string -> string)
    requires Inv(l) && r in l.db.reports
    ensures var report := l.db.reports[r];
            var signature := SignatureFor(report.fault, frames, hash);
            var g := GroupFor(l.db, signature);
            Welcoming(l.db.reports, g,
                      if g in l.db.groups then l.db.groups[g] else NewGroup(report, frames, signature), report,
                      if g in l.drift then l.drift[g] else 0, if g in l.remembered then l.remembered[g] else {},
                      l.filings)
  {
    var g := GroupFor(l.db, SignatureFor(l.db.reports[r].fault, frames, hash));
    if g in l.db.groups {
      assert SoundAt(l, g);
    } else {
      assert Members(l.db.reports, g) == {};
    }
  }

  /** The ledger's own columns after a filing. */
  lemma LedgerAfterFiling(l: Ledger, db: Database, g: GroupId, left: Option<GroupId>, severity: Severity)
    requires left.Some? ==> left.value in l.db.groups
    requires Tracked(l) && db.groups.Keys == l.db.groups.Keys + {g}
    ensures var l' := NoteFiling(l, db, g, left, severity);
            && l'.db == db && l'.filings == l.filings + [Filing(g, severity)] && Tracked(l')
            && (forall h :: h in l.drift && left != Some(h) ==>
                  l'.drift[h] == l.drift[h] && l'.remembered[h] == l.remembered[h])
            && (g !in l.drift ==> l'.drift[g] == 0 && l'.remembered[g] == {})
    ensures left.Some? ==>
              var l' := NoteFiling(l, db, g, left, severity);
              var group := l.db.groups[left.value];
              && l'.drift[left.value] == 0
              && l'.remembered[left.value] ==
                 (if Members(db.reports, left.value) != {} then {} else {group.firstSeen, group.lastSeen})
  {
  }

  lemma FiledGroupIsSound(l: Ledger, r: ReportId, frames: seq<Frame>, now: int, hash: string -> string, h: GroupId)
    requires Inv(l) && r in l.db.reports
    requires h in l.db.groups || h == GroupFor(l.db, SignatureFor(l.db.reports[r].fault, frames, hash))
    ensures var l' := TrackFiling(l, r, frames, now, hash);
            h in l'.db.groups && h in l'.drift && h in l'.remembered && SoundAt(l', h)
  {
    hide Filed, SignatureFor, GroupFor, AfterJoining, Recomputed;
    var db, db' := l.db, Filed(l.db, r, frames, now, hash);
    var report := db.reports[r];
    var signature := SignatureFor(report.fault, frames, hash);
    var g := GroupFor(db, signature);
    var row := Stamped(report, frames, signature, now).(groupId := Some(g));
    FilingByGroup(db, r, frames, now, hash);
    LedgerAfterFiling(l, db', g, Left(db, r, g), report.severity);
    if h == g {
      DestinationWelcomes(l, r, frames, hash);
      JoinedGroupIsSound(db.reports, r, row, g,
                         if g in db.groups then db.groups[g] else NewGroup(report, frames, signature),
                         if g in l.drift then l.drift[g] else 0,
                         if g in l.remembered then l.remembered[g] else {}, l.filings, now);
    } else {
      assert SoundAt(l, h);
      if Left(db, r, g) == Some(h) {
        LeftGroupIsRecounted(db'.reports, h, db.groups[h], l.filings, Filing(g, report.severity));
      } else {
        BystanderStaysSound(db.reports, r, row, g, h, db.groups[h], l.drift[h], l.remembered[h], l.filings,
                            Filing(g, report.severity));
      }
    }
  }

  lemma FilingKeepsTracked(l: Ledger, r: ReportId, frames: seq<Frame>, now: int, hash: string -> string)
    requires Inv(l) && r in l.db.reports
    ensures Tracked(TrackFiling(l, r, frames, now, hash))
    ensures TrackFiling(l, r, frames, now, hash).db == Filed(l.db, r, frames, now, hash)
    ensures Filed(l.db, r, frames, now, hash).groups.Keys ==
            l.db.groups.Keys + {GroupFor(l.db, SignatureFor(l.db.reports[r].fault, frames, hash))}
  {
    var report := l.db.reports[r];
    var g := GroupFor(l.db, SignatureFor(report.fault, frames, hash));
    FilingByGroup(l.db, r, frames, now, hash);
    LedgerAfterFiling(l, Filed(l.db, r, frames, now, hash), g, Left(l.db, r, g), report.severity);
  }

  lemma FilingKeepsInv(l: Ledger, r: ReportId, frames: seq<Frame>, now: int, hash: string -> string)
    requires Inv(l) && r in l.db.reports
    ensures Inv(TrackFiling(l, r, frames, now, hash))
  {
    var l' := TrackFiling(l, r, frames, now, hash);
    FilingKeepsKeys(l.db, r, frames, now, hash);
    FilingKeepsTracked(l, r, frames, now, hash);
    forall h | h in l'.db.groups ensures SoundAt(l', h) {
      FiledGroupIsSound(l, r, frames, now, hash, h);
    }
  }

  // ---------------------------------------------------------------------------
  // The other steps
  // ---------------------------------------------------------------------------

  lemma DeleteKeepsSound(reports: map<ReportId, Report>, r: ReportId, g: GroupId, group: Group,
                         drift: nat, remembered: set<int>, filings: seq<Filing>)
    requires Sound(reports, g, group, drift, remembered, filings)
    ensures var after := reports - {r};
            if r in reports && reports[r].groupId == Some(g)
            then Sound(after, g, group, drift + 1, remembered + {reports[r].fault.occurredAt}, filings)
            else Sound(after, g, group, drift, remembered, filings)
  {
    var after := reports - {r};
    assert forall x :: x in after ==> after[x] == reports[x];
    if r in reports && reports[r].groupId == Some(g) {
      assert Members(reports, g) == Members(after, g) + {r};
      QueriesGrow(after, reports, g, r);
      SizeOfAdd(Members(after, g), r);
      var t := reports[r].fault.occurredAt;
      assert Times(after, g) + (remembered + {t}) == Times(reports, g) + remembered;
    } else {
      assert Members(reports, g) == Members(after, g);
      QueriesUnchanged(reports, after, g);
    }
  }

  lemma DeletedGroupIsSound(l: Ledger, r: ReportId, g: GroupId)
    requires Tracked(l) && Tracked(TrackDelete(l, r)) && g in l.db.groups && SoundAt(l, g)
    ensures SoundAt(TrackDelete(l, r), g)
  {
    DeleteKeepsSound(l.db.reports, r, g, l.db.groups[g], l.drift[g], l.remembered[g], l.filings);
  }

  lemma DeleteKeepsTracked(l: Ledger, r: ReportId)
    requires Keyed(l.db) && Tracked(l)
    ensures Keyed(TrackDelete(l, r).db) && Tracked(TrackDelete(l, r))
    ensures TrackDelete(l, r).db.groups == l.db.groups
  {
  }

  lemma DeleteKeepsInv(l: Ledger, r: ReportId)
    requires Inv(l)
    ensures Inv(TrackDelete(l, r))
  {
    var l' := TrackDelete(l, r);
    DeleteKeepsTracked(l, r);
    forall g | g in l'.db.groups ensures SoundAt(l', g) {
      DeletedGroupIsSound(l, r, g);
    }
  }

  /** Rows added without a group, or changed in neither fault nor group: no query notices. */
  ghost predicate SameToGroups(before: map<ReportId, Report>, after: map<ReportId, Report>) {
    && (forall r :: r in before ==> r in after && after[r].fault == before[r].fault && after[r].groupId == before[r].groupId)
    && (forall r :: r in after && r !in before ==> after[r].groupId == None)
  }

  lemma UnnoticedKeepsSound(l: Ledger, reports: map<ReportId, Report>, g: GroupId)
    requires Tracked(l) && g in l.db.groups && SoundAt(l, g) && SameToGroups(l.db.reports, reports)
    ensures Sound(reports, g, l.db.groups[g], l.drift[g], l.remembered[g], l.filings)
  {
    assert Members(l.db.reports, g) == Members(reports, g);
    QueriesUnchanged(l.db.reports, reports, g);
  }

  lemma UnnoticedKeepsInv(l: Ledger, db: Database)
    requires Inv(l) && Keyed(db) && db.groups == l.db.groups && SameToGroups(l.db.reports, db.reports)
    ensures Inv(l.(db := db))
  {
    var l' := l.(db := db);
    assert Tracked(l');
    forall g | g in l'.db.groups ensures SoundAt(l', g) {
      UnnoticedKeepsSound(l, db.reports, g);
    }
  }

  lemma IngestIsUnnoticed(db: Database, fault: Fault, level: Severity)
    requires Keyed(db)
    ensures var db' := Ingested(db, fault, level);
            Keyed(db') && db'.groups == db.groups && SameToGroups(db.reports, db'.reports)
  {
  }

  lemma ReportTriageIsUnnoticed(db: Database, r: ReportId, level: Severity)
    requires Keyed(db)
    ensures var db' := ReportTriaged(db, r, level);
            Keyed(db') && db'.groups == db.groups && SameToGroups(db.reports, db'.reports)
  {
  }

  lemma TriageKeepsSound(reports: map<ReportId, Report>, g: GroupId, group: Group, status: GroupStatus,
                         drift: nat, remembered: set<int>, filings: seq<Filing>)
    requires Sound(reports, g, group, drift, remembered, filings)
    ensures Sound(reports, g, WithStatus(group, status), drift, remembered, filings)
  {
  }

  lemma TriageKeepsKeys(db: Database, g: GroupId, status: GroupStatus)
    requires Keyed(db)
    ensures Keyed(GroupTriaged(db, g, status)) && GroupTriaged(db, g, status).groups.Keys == db.groups.Keys
  {
    var db' := GroupTriaged(db, g, status);
    assert forall h :: h in db'.groups ==> db'.groups[h].signature == db.groups[h].signature;
  }

  lemma TriagedGroupIsSound(l: Ledger, g: GroupId, status: GroupStatus, h: GroupId)
    requires Tracked(l) && h in l.db.groups && SoundAt(l, h)
    ensures var l' := l.(db := GroupTriaged(l.db, g, status));
            h in l'.db.groups && SoundAt(l', h)
  {
    TriageKeepsSound(l.db.reports, h, l.db.groups[h], status, l.drift[h], l.remembered[h], l.filings);
  }

  lemma TriageKeepsInv(l: Ledger, g: GroupId, status: GroupStatus)
    requires Inv(l)
    ensures Inv(l.(db := GroupTriaged(l.db, g, status)))
  {
    var l' := l.(db := GroupTriaged(l.db, g, status));
    TriageKeepsKeys(l.db, g, status);
    forall h | h in l'.db.groups ensures SoundAt(l', h) {
      TriagedGroupIsSound(l, g, status, h);
    }
  }

  lemma StepKeepsInv(l: Ledger, e: Event, hash: string -> string)
    requires Inv(l)
    ensures Inv(Track(l, e, hash))
  {
    match e
    case Ingest(fault, level) =>
      IngestIsUnnoticed(l.db, fault, level);
      UnnoticedKeepsInv(l, Ingested(l.db, fault, level));
    case File(r, frames, now) =>
      if r in l.db.reports { FilingKeepsInv(l, r, frames, now, hash); }
    case TriageReport(r, level) =>
      ReportTriageIsUnnoticed(l.db, r, level);
      UnnoticedKeepsInv(l, ReportTriaged(l.db, r, level));
    case TriageGroup(g, status) => TriageKeepsInv(l, g, status);
    case Delete(r) => DeleteKeepsInv(l, r);
  }

  lemma {:induction false} HistoryKeepsInv(events: seq<Event>, hash: string -> string)
    ensures Inv(History(events, hash))
  {
    if events != [] {
      HistoryKeepsInv(events[..|events| - 1], hash);
      StepKeepsInv(History(events[..|events| - 1], hash), events[|events| - 1], hash);
    }
  }

  lemma ReachableIsKeyed(events: seq<Event>, hash: string -> string)
    ensures Keyed(Run(EMPTY, events, hash))
  {
    HistoryRunsTheTables(events, hash);
    HistoryKeepsInv(events, hash);
  }
}
