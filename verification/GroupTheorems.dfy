/** What holds of crash groups in every state any run of ingests, filings, triage and
    deletions reaches. */
module GroupTheorems {
  import opened Wrappers
  import opened StackAnalyzer
  import opened CrashDatabase
  import opened GroupAccounting

  /** The counters are those of the reports the group has. */
  ghost predicate CountersMatch(db: Database, g: GroupId)
    requires g in db.groups
  {
    var group, reports := db.groups[g], db.reports;
    && group.occurrences == |set r | r in reports && reports[r].groupId == Some(g)|
    && group.devices == |set r | r in reports && reports[r].groupId == Some(g) :: reports[r].fault.device|
    && group.versions == set r | r in reports && reports[r].groupId == Some(g) :: reports[r].fault.firmware
  }

  /** The window shows the first and the last of the times of the group's reports, if any. */
  ghost predicate WindowMatches(db: Database, g: GroupId)
    requires g in db.groups
  {
    var group, reports := db.groups[g], db.reports;
    var times := set r | r in reports && reports[r].groupId == Some(g) :: reports[r].fault.occurredAt;
    times != {} ==> IsLeast(group.firstSeen, times) && IsGreatest(group.lastSeen, times)
  }

  /** What the queries select, and so what a recount gives. */
  lemma QueriesSelect(reports: map<ReportId, Report>, g: GroupId)
    ensures Members(reports, g) == set r | r in reports && reports[r].groupId == Some(g)
    ensures Devices(reports, g) == set r | r in reports && reports[r].groupId == Some(g) :: reports[r].fault.device
    ensures Versions(reports, g) == set r | r in reports && reports[r].groupId == Some(g) :: reports[r].fault.firmware
    ensures Times(reports, g) == set r | r in reports && reports[r].groupId == Some(g) :: reports[r].fault.occurredAt
  {
  }

  /** A recount makes counters and window those of the reports and leaves everything else, the
      window of a group without reports included. */
  lemma RecountMatches(db: Database, g: GroupId)
    requires g in db.groups
    ensures var group := Recomputed(db.reports, g, db.groups[g]);
            var after := db.(groups := db.groups[g := group]);
            && CountersMatch(after, g) && WindowMatches(after, g)
            && group == db.groups[g].(occurrences := group.occurrences, devices := group.devices,
                                      versions := group.versions, firstSeen := group.firstSeen, lastSeen := group.lastSeen)
            && (group.occurrences == 0 ==>
                  group.firstSeen == db.groups[g].firstSeen && group.lastSeen == db.groups[g].lastSeen)
  {
    QueriesSelect(db.reports, g);
  }

  lemma MatchesByQueries(db: Database, g: GroupId)
    requires g in db.groups
    ensures var group, times := db.groups[g], Times(db.reports, g);
            && (CountersMatch(db, g) <==>
                  && group.occurrences == |Members(db.reports, g)| && group.devices == |Devices(db.reports, g)|
                  && group.versions == Versions(db.reports, g))
            && (WindowMatches(db, g) <==>
                  times == {} || (group.firstSeen == Least(times) && group.lastSeen == Greatest(times)))
  {
    QueriesSelect(db.reports, g);
  }

  // ---------------------------------------------------------------------------
  // Counters
  // ---------------------------------------------------------------------------

  /** The incrementally kept counters equal a recount exactly when no member was deleted since
      they were last rebuilt, and the occurrence count is off by just the number deleted. */
  lemma CountersMatchIffNoDrift(events: seq<Event>, hash: string -> string, g: GroupId)
    requires g in Run(EMPTY, events, hash).groups
    ensures var l := History(events, hash);
            && l.db == Run(EMPTY, events, hash) && g in l.drift
            && l.db.groups[g].occurrences == |Members(l.db.reports, g)| + l.drift[g]
            && (CountersMatch(l.db, g) <==> l.drift[g] == 0)
  {
    hide CountersMatch, Members, Devices, Versions, Run, History, Windowed, Worst;
    HistoryRunsTheTables(events, hash);
    HistoryKeepsInv(events, hash);
    assert SoundAt(History(events, hash), g);
    MatchesByQueries(History(events, hash).db, g);
  }

  ghost predicate NoDeletes(events: seq<Event>) {
    forall i :: 0 <= i < |events| ==> !events[i].Delete?
  }

  ghost predicate NoDrift(l: Ledger) { forall g :: g in l.drift ==> l.drift[g] == 0 }

  lemma StepWithoutDelete(l: Ledger, e: Event, hash: string -> string)
    requires !e.Delete? && NoDrift(l)
    ensures NoDrift(Track(l, e, hash))
  {
    if e.File? && e.report in l.db.reports {
      var report, db := l.db.reports[e.report], Filed(l.db, e.report, e.frames, e.now, hash);
      var g := GroupFor(l.db, SignatureFor(report.fault, e.frames, hash));
      NotingAddsNoDrift(l, db, g, Left(l.db, e.report, g), report.severity);
    }
  }

  lemma NotingAddsNoDrift(l: Ledger, db: Database, g: GroupId, left: Option<GroupId>, severity: Severity)
    requires NoDrift(l) && (left.Some? ==> left.value in l.db.groups)
    ensures NoDrift(NoteFiling(l, db, g, left, severity))
  {
  }

  /** How a filing shows in the ledger. */
  lemma FilingNoted(l: Ledger, r: ReportId, frames: seq<Frame>, now: int, hash: string -> string)
    returns (l': Ledger, g: GroupId, left: Option<GroupId>)
    requires Keyed(l.db) && Tracked(l) && r in l.db.reports
    ensures l' == TrackFiling(l, r, frames, now, hash)
    ensures left.Some? ==> left.value in l.db.groups && left.value != g
    ensures && Tracked(l') && l'.db.groups.Keys == l.db.groups.Keys + {g}
            && l'.filings == l.filings + [Filing(g, l.db.reports[r].severity)]
            && l'.db.reports[r].groupId == Some(g)
            && (forall h :: h in l.drift && left != Some(h) ==>
                  l'.drift[h] == l.drift[h] && l'.remembered[h] == l.remembered[h])
            && (g !in l.drift ==> l'.drift[g] == 0 && l'.remembered[g] == {})
            && (left.Some? ==> l'.drift[left.value] == 0)
            && (left.Some? && Members(l'.db.reports, left.value) != {} ==> l'.remembered[left.value] == {})
  {
    var report := l.db.reports[r];
    g := GroupFor(l.db, SignatureFor(report.fault, frames, hash));
    left := Left(l.db, r, g);
    l' := TrackFiling(l, r, frames, now, hash);
    FilingByGroup(l.db, r, frames, now, hash);
    LedgerAfterFiling(l, Filed(l.db, r, frames, now, hash), g, left, report.severity);
  }

  lemma {:induction false} NoDeletesNoDrift(events: seq<Event>, hash: string -> string)
    requires NoDeletes(events)
    ensures NoDrift(History(events, hash))
  {
    if events != [] {
      var earlier := events[..|events| - 1];
      NoDeletesNoDrift(earlier, hash);
      HistoryKeepsInv(earlier, hash);
      StepWithoutDelete(History(earlier, hash), events[|events| - 1], hash);
    }
  }

  /** Over every run without deletions, whatever builds appear between its steps, every group's
      counters, device count and version set are what recounting its reports would give. */
  lemma DeleteFreeRunsCountExactly(events: seq<Event>, hash: string -> string)
    requires NoDeletes(events)
    ensures var db := Run(EMPTY, events, hash);
            forall g :: g in db.groups ==> CountersMatch(db, g)
  {
    NoDeletesNoDrift(events, hash);
    forall g | g in Run(EMPTY, events, hash).groups ensures CountersMatch(Run(EMPTY, events, hash), g) {
      CountersMatchIffNoDrift(events, hash, g);
    }
  }

  /** Deletion does not rebuild anything, so deleting a grouped report always leaves its
      group's counters wrong. */
  lemma DeletingAMemberBreaksTheCounters(events: seq<Event>, r: ReportId, g: GroupId, hash: string -> string)
    requires r in Members(Run(EMPTY, events, hash).reports, g)
    ensures var db := Run(EMPTY, events + [Delete(r)], hash);
            g in db.groups && !CountersMatch(db, g)
  {
    hide CountersMatch, Apply, Run, Inv, TrackDelete, Deleted;
    var longer, l := events + [Delete(r)], History(events, hash);
    assert longer[..|longer| - 1] == events;
    HistoryRunsTheTables(events, hash);
    HistoryRunsTheTables(longer, hash);
    HistoryKeepsInv(events, hash);
    DeletionDrifts(l, r, g);
    assert History(longer, hash) == TrackDelete(l, r);
    CountersMatchIffNoDrift(longer, hash, g);
  }

  lemma DeletionDrifts(l: Ledger, r: ReportId, g: GroupId)
    requires Inv(l) && r in Members(l.db.reports, g)
    ensures var after := TrackDelete(l, r);
            g in after.db.groups && g in after.drift && after.drift[g] > 0
  {
    assert g in l.db.groups;
  }

  // ---------------------------------------------------------------------------
  // Window
  // ---------------------------------------------------------------------------

  /** The window always covers every member, and it is exactly theirs just when the times it
      still remembers, of deleted reports or from before the group was emptied, lie within. */
  lemma WindowCoversAndIsTightIff(events: seq<Event>, hash: string -> string, g: GroupId)
    requires g in Run(EMPTY, events, hash).groups
    ensures var db, l := Run(EMPTY, events, hash), History(events, hash);
            var group, times := db.groups[g], Times(db.reports, g);
            && l.db == db && g in l.remembered
            && (forall t :: t in times ==> group.firstSeen <= t <= group.lastSeen)
            && (times != {} ==>
                  (WindowMatches(db, g) <==>
                   forall t :: t in l.remembered[g] ==> Least(times) <= t <= Greatest(times)))
  {
    hide WindowMatches, Times, Members, Run, History, Counted, Worst, Least, Greatest;
    HistoryRunsTheTables(events, hash);
    HistoryKeepsInv(events, hash);
    var l := History(events, hash);
    assert SoundAt(l, g);
    MatchesByQueries(l.db, g);
    if Times(l.db.reports, g) != {} {
      HullIsTightIff(l.db.groups[g].firstSeen, l.db.groups[g].lastSeen, Times(l.db.reports, g), l.remembered[g]);
    }
  }

  lemma HullIsTightIff(first: int, last: int, times: set<int>, remembered: set<int>)
    requires times != {}
    requires IsLeast(first, times + remembered) && IsGreatest(last, times + remembered)
    ensures (first == Least(times) && last == Greatest(times)) <==>
            forall t :: t in remembered ==> Least(times) <= t <= Greatest(times)
  {
    var lo, hi := Least(times), Greatest(times);
    assert lo in times + remembered && hi in times + remembered;
  }

  /** Some state of the run had the group in it without any member. */
  ghost predicate WasEmptied(events: seq<Event>, hash: string -> string, g: GroupId) {
    exists n :: 0 <= n <= |events| && EmptyAt(events[..n], hash, g)
  }

  ghost predicate EmptyAt(events: seq<Event>, hash: string -> string, g: GroupId) {
    var db := Run(EMPTY, events, hash);
    g in db.groups && Members(db.reports, g) == {}
  }

  lemma RememberingStep(l: Ledger, e: Event, hash: string -> string, g: GroupId)
    requires Keyed(l.db) && Tracked(l) && !e.Delete? && g in l.remembered && l.remembered[g] == {}
    ensures var l' := Track(l, e, hash);
            g in l'.remembered && (l'.remembered[g] == {} || Members(l'.db.reports, g) == {})
  {
    if e.File? && e.report in l.db.reports {
      var _, _, _ := FilingNoted(l, e.report, e.frames, e.now, hash);
    }
  }

  lemma NewGroupRemembersNothing(l: Ledger, e: Event, hash: string -> string, g: GroupId)
    requires Keyed(l.db) && Tracked(l) && !e.Delete? && g !in l.remembered && g in Track(l, e, hash).remembered
    ensures Track(l, e, hash).remembered[g] == {}
  {
    if e.File? && e.report in l.db.reports {
      var l', _, _ := FilingNoted(l, e.report, e.frames, e.now, hash);
      assert l'.remembered[g] == {};
    }
  }

  lemma EmptiedEarlier(events: seq<Event>, n: nat, hash: string -> string, g: GroupId)
    requires n <= |events| && WasEmptied(events[..n], hash, g)
    ensures WasEmptied(events, hash, g)
  {
    var k :| 0 <= k <= n && EmptyAt(events[..n][..k], hash, g);
    assert events[..n][..k] == events[..k];
  }

  lemma EmptyNow(events: seq<Event>, hash: string -> string, g: GroupId)
    requires EmptyAt(events, hash, g)
    ensures WasEmptied(events, hash, g)
  {
    assert events[..|events|] == events;
  }

  lemma {:induction false} OnlyEmptiedGroupsRemember(events: seq<Event>, hash: string -> string, g: GroupId)
    requires NoDeletes(events)
    requires g in History(events, hash).remembered && History(events, hash).remembered[g] != {}
    ensures WasEmptied(events, hash, g)
  {
    if events != [] {
      var n := |events| - 1;
      var l := History(events[..n], hash);
      HistoryKeepsInv(events[..n], hash);
      if g !in l.remembered {
        NewGroupRemembersNothing(l, events[n], hash, g);
      } else if l.remembered[g] != {} {
        OnlyEmptiedGroupsRemember(events[..n], hash, g);
        EmptiedEarlier(events, n, hash, g);
      } else {
        RememberingStep(l, events[n], hash, g);
        HistoryRunsTheTables(events, hash);
        HistoryKeepsInv(events, hash);
        EmptyNow(events, hash, g);
      }
    }
  }

  /** Over a run without deletions, a group that never stood empty shows exactly the times of
      its first and last occurrence. */
  lemma NeverEmptiedIsTight(events: seq<Event>, hash: string -> string, g: GroupId)
    requires NoDeletes(events) && g in Run(EMPTY, events, hash).groups && !WasEmptied(events, hash, g)
    ensures WindowMatches(Run(EMPTY, events, hash), g)
  {
    WindowCoversAndIsTightIff(events, hash, g);
    if History(events, hash).remembered[g] != {} {
      OnlyEmptiedGroupsRemember(events, hash, g);
    }
  }

  lemma RunOneMore(events: seq<Event>, e: Event, hash: string -> string)
    ensures Run(EMPTY, events + [e], hash) == Apply(Run(EMPTY, events, hash), e, hash)
  {
    assert (events + [e])[..|events|] == events;
  }

  /** Deleting a member whose time lies outside those of the others, the single first or last
      occurrence, leaves the window too wide. */
  lemma DeletingAnExtremeLoosensTheWindow(events: seq<Event>, r: ReportId, g: GroupId, hash: string -> string)
    requires var db := Run(EMPTY, events, hash);
             && r in Members(db.reports, g)
             && var rest := Times(Deleted(db, r).reports, g);
                var t := db.reports[r].fault.occurredAt;
                rest != {} && (t < Least(rest) || t > Greatest(rest))
    ensures var db := Run(EMPTY, events + [Delete(r)], hash);
            g in db.groups && !WindowMatches(db, g)
  {
    hide Run, History, Members, Times, WindowMatches;
    MembersHaveAGroup(events, r, g, hash);
    RunOneMore(events, Delete(r), hash);
    WindowCoversAndIsTightIff(events, hash, g);
    ExtremeDeleted(Run(EMPTY, events, hash), r, g);
  }

  lemma MembersHaveAGroup(events: seq<Event>, r: ReportId, g: GroupId, hash: string -> string)
    requires r in Members(Run(EMPTY, events, hash).reports, g)
    ensures g in Run(EMPTY, events, hash).groups
  {
    HistoryRunsTheTables(events, hash);
    HistoryKeepsInv(events, hash);
    hide Run, History;
  }

  lemma ExtremeDeleted(db: Database, r: ReportId, g: GroupId)
    requires g in db.groups && r in Members(db.reports, g)
    requires forall t :: t in Times(db.reports, g) ==> db.groups[g].firstSeen <= t <= db.groups[g].lastSeen
    requires var rest, t := Times(Deleted(db, r).reports, g), db.reports[r].fault.occurredAt;
             rest != {} && (t < Least(rest) || t > Greatest(rest))
    ensures !WindowMatches(Deleted(db, r), g)
  {
    hide WindowMatches;
    MatchesByQueries(Deleted(db, r), g);
    assert db.reports[r].fault.occurredAt in Times(db.reports, g);
    hide Times, Members;
  }

  lemma FirstIsNotLater(events: seq<Event>, hash: string -> string, g: GroupId)
    requires g in Run(EMPTY, events, hash).groups
    ensures Run(EMPTY, events, hash).groups[g].firstSeen <= Run(EMPTY, events, hash).groups[g].lastSeen
  {
    HistoryRunsTheTables(events, hash);
    HistoryKeepsInv(events, hash);
    assert SoundAt(History(events, hash), g);
  }

  lemma JoinedWindow(group: Group, reports: map<ReportId, Report>, row: Report, g: GroupId, counted: bool, now: int)
    ensures var after, t := AfterJoining(group, reports, row, g, counted, now), row.fault.occurredAt;
            && after.firstSeen == (if t < group.firstSeen then t else group.firstSeen)
            && after.lastSeen == (if t > group.lastSeen then t else group.lastSeen)
  {
  }

  /** A report filed into a group without members stands there alone, but the window still
      remembers: it fits the report exactly if it showed just the report's time before. */
  lemma RefilledWindowFitsIff(events: seq<Event>, r: ReportId, frames: seq<Frame>, now: int, hash: string -> string)
    requires r in Run(EMPTY, events, hash).reports
    requires var db := Run(EMPTY, events, hash);
             var g := GroupFor(db, SignatureFor(db.reports[r].fault, frames, hash));
             g in db.groups && Members(db.reports, g) == {}
    ensures var db, db' := Run(EMPTY, events, hash), Run(EMPTY, events + [File(r, frames, now)], hash);
            var g, t := GroupFor(db, SignatureFor(db.reports[r].fault, frames, hash)), db.reports[r].fault.occurredAt;
            && g in db'.groups && Times(db'.reports, g) == {t}
            && (WindowMatches(db', g) <==> db.groups[g].firstSeen == t == db.groups[g].lastSeen)
  {
    var db := Run(EMPTY, events, hash);
    RunOneMore(events, File(r, frames, now), hash);
    HistoryRunsTheTables(events, hash);
    HistoryKeepsInv(events, hash);
    var g := GroupFor(db, SignatureFor(db.reports[r].fault, frames, hash));
    FirstIsNotLater(events, hash, g);
    hide Run, History;
    FiledAlone(db, r, frames, now, hash);
  }

  lemma FiledAlone(db: Database, r: ReportId, frames: seq<Frame>, now: int, hash: string -> string)
    requires Keyed(db) && r in db.reports
    requires var g := GroupFor(db, SignatureFor(db.reports[r].fault, frames, hash));
             g in db.groups && Members(db.reports, g) == {} && db.groups[g].firstSeen <= db.groups[g].lastSeen
    ensures var db' := Filed(db, r, frames, now, hash);
            var g, t := GroupFor(db, SignatureFor(db.reports[r].fault, frames, hash)), db.reports[r].fault.occurredAt;
            && g in db'.groups && Times(db'.reports, g) == {t}
            && (WindowMatches(db', g) <==> db.groups[g].firstSeen == t == db.groups[g].lastSeen)
  {
    hide WindowMatches, Least, Greatest, Devices, Versions;
    var signature := SignatureFor(db.reports[r].fault, frames, hash);
    var g, t := GroupFor(db, signature), db.reports[r].fault.occurredAt;
    var row := Stamped(db.reports[r], frames, signature, now).(groupId := Some(g));
    FilingByGroup(db, r, frames, now, hash);
    MembersAfterFiling(db.reports, r, row, g, g);
    assert Times(db.reports[r := row], g) == {t};
    JoinedWindow(db.groups[g], db.reports[r := row], row, g, false, now);
    assert db.reports[r].groupId != Some(g) by {
      assert r !in Members(db.reports, g);
    }
    MatchesByQueries(Filed(db, r, frames, now, hash), g);
    hide Filed, AfterJoining, Keyed, GroupFor, SignatureFor;
    var alone := {t};
    assert Least(alone) == t && Greatest(alone) == t;
  }

  // ---------------------------------------------------------------------------
  // Severity and status
  // ---------------------------------------------------------------------------

  /** A group's severity is the worst any filing into it ever carried, and a regression mark
      is only found on a group whose status says so. */
  lemma SeverityIsTheWorstFiled(events: seq<Event>, hash: string -> string, g: GroupId)
    requires g in Run(EMPTY, events, hash).groups
    ensures var group := Run(EMPTY, events, hash).groups[g];
            && Worst(group.severity, g, History(events, hash).filings)
            && (group.regressedAt.Some? ==> group.status == Regressed)
  {
    HistoryRunsTheTables(events, hash);
    HistoryKeepsInv(events, hash);
    assert SoundAt(History(events, hash), g);
  }

  /** The severity each report was last filed with. */
  ghost function FiledAs(events: seq<Event>, hash: string -> string): map<ReportId, Severity> {
    if events == [] then map[]
    else
      var front, e := events[..|events| - 1], events[|events| - 1];
      var reports, earlier := Run(EMPTY, front, hash).reports, FiledAs(front, hash);
      if e.File? && e.report in reports then earlier[e.report := reports[e.report].severity] else earlier
  }

  /** How each report was re-rated by hand since it was last filed, if it was. */
  ghost function ReRated(events: seq<Event>, hash: string -> string): map<ReportId, Severity> {
    if events == [] then map[]
    else
      var front, e := events[..|events| - 1], events[|events| - 1];
      var reports, earlier := Run(EMPTY, front, hash).reports, ReRated(front, hash);
      if e.File? && e.report in reports then earlier - {e.report}
      else if e.TriageReport? && e.report in reports then earlier[e.report := e.level]
      else earlier
  }

  /** A grouped report's last filing is on record, and its severity is what it was re-rated to
      since then or else what it was filed with. */
  ghost predicate Rated(l: Ledger, filed: map<ReportId, Severity>, rerated: map<ReportId, Severity>, r: ReportId)
    requires r in l.db.reports
  {
    var report := l.db.reports[r];
    report.groupId.Some? ==>
      && r in filed && Filing(report.groupId.value, filed[r]) in l.filings
      && report.severity == if r in rerated then rerated[r] else filed[r]
  }

  lemma StepRates(l: Ledger, e: Event, hash: string -> string, filed: map<ReportId, Severity>,
                  rerated: map<ReportId, Severity>, r: ReportId)
    requires r in Track(l, e, hash).db.reports
    requires r in l.db.reports ==> Rated(l, filed, rerated, r)
    requires e.Ingest? ==> Keyed(l.db)
    ensures var reports := l.db.reports;
            var filed' := if e.File? && e.report in reports then filed[e.report := reports[e.report].severity] else filed;
            var rerated' := if e.File? && e.report in reports then rerated - {e.report}
                            else if e.TriageReport? && e.report in reports then rerated[e.report := e.level]
                            else rerated;
            Rated(Track(l, e, hash), filed', rerated', r)
  {
    if e.File? && e.report in l.db.reports {
      var l' := Track(l, e, hash);
      assert l'.filings[|l.filings|] in l'.filings;
      assert forall f :: f in l.filings ==> f in l'.filings;
    }
  }

  lemma {:induction false} RunsRate(events: seq<Event>, hash: string -> string, r: ReportId)
    requires r in History(events, hash).db.reports
    ensures Rated(History(events, hash), FiledAs(events, hash), ReRated(events, hash), r)
  {
    hide Rated, Track;
    if events != [] {
      var front, e := events[..|events| - 1], events[|events| - 1];
      var l := History(front, hash);
      HistoryRunsTheTables(front, hash);
      HistoryKeepsInv(front, hash);
      if r in l.db.reports {
        RunsRate(front, hash, r);
      }
      StepRates(l, e, hash, FiledAs(front, hash), ReRated(front, hash), r);
    }
  }

  /** Over every run a member is more severe than its group exactly if it was re-rated by hand
      since it was last filed, to something worse than the group's severity. */
  lemma MemberIsWorseIffReRated(events: seq<Event>, hash: string -> string, r: ReportId)
    requires r in Run(EMPTY, events, hash).reports && Run(EMPTY, events, hash).reports[r].groupId.Some?
    ensures var db, rerated := Run(EMPTY, events, hash), ReRated(events, hash);
            var g := db.reports[r].groupId.value;
            && g in db.groups
            && (MoreSevere(db.reports[r].severity, db.groups[g].severity) <==>
                r in rerated && MoreSevere(rerated[r], db.groups[g].severity))
  {
    HistoryRunsTheTables(events, hash);
    HistoryKeepsInv(events, hash);
    RunsRate(events, hash, r);
    var l := History(events, hash);
    var g := l.db.reports[r].groupId.value;
    assert SoundAt(l, g);
    RankIsTheOrder(l.db.reports[r].severity, l.db.groups[g].severity);
    if r in ReRated(events, hash) {
      RankIsTheOrder(ReRated(events, hash)[r], l.db.groups[g].severity);
    }
    hide Run, History, FiledAs, ReRated, Counted, Windowed;
  }

  lemma JoinedStatus(group: Group, reports: map<ReportId, Report>, row: Report, g: GroupId,
                     alreadyCounted: bool, now: int)
    ensures AfterJoining(group, reports, row, g, alreadyCounted, now).status ==
            if group.status == Resolved then Regressed else group.status
  {
  }

  /** A resolved bug that is seen again is marked regressed, so no filing leaves its destination
      resolved; the status of every other group is left alone. */
  lemma FilingRegressesResolved(db: Database, r: ReportId, frames: seq<Frame>, now: int, hash: string -> string)
    requires Keyed(db) && r in db.reports
    ensures var db' := Filed(db, r, frames, now, hash);
            && r in db'.reports && db'.reports[r].groupId.Some?
            && var g := db'.reports[r].groupId.value;
            && g in db'.groups && db'.groups[g].status != Resolved
            && (g in db.groups && db.groups[g].status == Resolved ==> db'.groups[g].status == Regressed)
            && (g in db.groups && db.groups[g].status != Resolved ==> db'.groups[g].status == db.groups[g].status)
            && (forall h :: h in db.groups && h != g ==>
                  h in db'.groups && db'.groups[h].status == db.groups[h].status)
  {
    FilingByGroup(db, r, frames, now, hash);
    var db' := Filed(db, r, frames, now, hash);
    var g := db'.reports[r].groupId.value;
    var before := if g in db.groups then db.groups[g]
                  else NewGroup(db.reports[r], frames, SignatureFor(db.reports[r].fault, frames, hash));
    JoinedStatus(before, db'.reports, db'.reports[r], g, db.reports[r].groupId == Some(g), now);
  }
}
