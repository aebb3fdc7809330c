/** What a group and a report show, told from the calls made so far and from nothing else:
    backend/app/services/symbolication.py and api/v1/endpoints/crash_groups.py. */
module GroupHistory {
  import opened Wrappers
  import opened StackAnalyzer
  import opened Signature
  import opened CallChain
  import opened CrashDatabase
  import opened GroupAccounting
  import opened GroupTheorems

  // ---------------------------------------------------------------------------
  // Calls of a run
  // ---------------------------------------------------------------------------

  ghost function Before(events: seq<Event>, i: nat, hash: string -> string): Database
    requires i <= |events|
  {
    Run(EMPTY, events[..i], hash)
  }

  /** Call `i` files a report, which ends up in group `g`. */
  ghost predicate FilesInto(events: seq<Event>, hash: string -> string, i: nat, g: GroupId) {
    && i < |events| && events[i].File?
    && var r := events[i].report;
       && r in Before(events, i, hash).reports
       && r in Before(events, i + 1, hash).reports && Before(events, i + 1, hash).reports[r].groupId == Some(g)
  }

  /** Call `i` files a report of this severity into group `g`. */
  ghost predicate Files(events: seq<Event>, hash: string -> string, i: nat, g: GroupId, level: Severity) {
    FilesInto(events, hash, i, g) && Before(events, i, hash).reports[events[i].report].severity == level
  }

  lemma FrontIsBefore(events: seq<Event>, i: nat, hash: string -> string)
    requires events != [] && i < |events|
    ensures Before(events[..|events| - 1], i, hash) == Before(events, i, hash)
  {
    assert events[..|events| - 1][..i] == events[..i];
  }

  /** The last call counts as it does on its own; earlier ones as they did before it. */
  lemma FilesFront(events: seq<Event>, hash: string -> string, i: nat, g: GroupId, level: Severity)
    requires events != []
    ensures i < |events| - 1 ==>
              && (FilesInto(events, hash, i, g) <==> FilesInto(events[..|events| - 1], hash, i, g))
              && (Files(events, hash, i, g, level) <==> Files(events[..|events| - 1], hash, i, g, level))
  {
    if i < |events| - 1 {
      FrontIsBefore(events, i, hash);
      FrontIsBefore(events, i + 1, hash);
      hide Before;
      assert events[..|events| - 1][i] == events[i];
    }
  }

  /** The call files a stored report whose signature is that of group `g`. */
  ghost predicate MovesTo(db: Database, e: Event, hash: string -> string, g: GroupId) {
    e.File? && e.report in db.reports && GroupFor(db, SignatureFor(db.reports[e.report].fault, e.frames, hash)) == g
  }

  lemma LastFiles(events: seq<Event>, hash: string -> string, g: GroupId, level: Severity)
    requires events != []
    ensures var n := |events| - 1;
            var db := Run(EMPTY, events[..n], hash);
            && (FilesInto(events, hash, n, g) <==> MovesTo(db, events[n], hash, g))
            && (Files(events, hash, n, g, level) <==>
                  MovesTo(db, events[n], hash, g) && db.reports[events[n].report].severity == level)
  {
    var n := |events| - 1;
    var db := Run(EMPTY, events[..n], hash);
    assert events[..n + 1] == events;
    ReachableIsKeyed(events[..n], hash);
    if events[n].File? && events[n].report in db.reports {
      FilingByGroup(db, events[n].report, events[n].frames, events[n].now, hash);
    }
  }

  /** The filings the history remembers are the filings that were made. */
  lemma {:induction false} FilingsAreCalls(events: seq<Event>, hash: string -> string, g: GroupId, level: Severity)
    ensures Filing(g, level) in History(events, hash).filings <==> exists i: nat :: Files(events, hash, i, g, level)
  {
    hide Run, Before, Files, Filed, GroupFor, SignatureFor;
    if events == [] {
      NoCalls(hash, g, level);
    } else {
      var n := |events| - 1;
      FilingsAreCalls(events[..n], hash, g, level);
      forall i: nat ensures i < n ==> (Files(events, hash, i, g, level) <==> Files(events[..n], hash, i, g, level)) {
        FilesFront(events, hash, i, g, level);
      }
      NoLaterCalls(events, hash, g, level);
      NoLaterCalls(events[..n], hash, g, level);
      LastFiles(events, hash, g, level);
      HistoryRunsTheTables(events[..n], hash);
      FilingsGrow(History(events[..n], hash), events[n], hash, g, level);
      if Filing(g, level) in History(events, hash).filings && !Files(events, hash, n, g, level) {
        var i: nat :| Files(events[..n], hash, i, g, level);
        assert Files(events, hash, i, g, level);
      }
    }
  }

  lemma NoCalls(hash: string -> string, g: GroupId, level: Severity)
    ensures Filing(g, level) !in History([], hash).filings
    ensures forall i: nat :: !Files([], hash, i, g, level)
  {
  }

  lemma NoLaterCalls(events: seq<Event>, hash: string -> string, g: GroupId, level: Severity)
    ensures forall i: nat :: Files(events, hash, i, g, level) ==> i < |events|
  {
  }

  lemma FilingsGrow(l: Ledger, e: Event, hash: string -> string, g: GroupId, level: Severity)
    ensures Filing(g, level) in Track(l, e, hash).filings <==>
              Filing(g, level) in l.filings || (MovesTo(l.db, e, hash, g) && l.db.reports[e.report].severity == level)
  {
    hide Filed, GroupFor, SignatureFor, Members;
  }

  // ---------------------------------------------------------------------------
  // Severity
  // ---------------------------------------------------------------------------

  /** Over every run: a group is critical exactly if some filing into it carried critical, high
      exactly if some carried high and none critical, medium exactly if some carried medium and
      none worse, and low if all carried low. */
  lemma SeverityByName(events: seq<Event>, hash: string -> string, g: GroupId)
    requires g in Run(EMPTY, events, hash).groups
    ensures var severity := Run(EMPTY, events, hash).groups[g].severity;
            var low := exists i: nat :: Files(events, hash, i, g, Low);
            var medium := exists i: nat :: Files(events, hash, i, g, Medium);
            var high := exists i: nat :: Files(events, hash, i, g, High);
            var critical := exists i: nat :: Files(events, hash, i, g, Critical);
            && (severity == Critical <==> critical)
            && (severity == High <==> high && !critical)
            && (severity == Medium <==> medium && !high && !critical)
            && (severity == Low <==> low && !medium && !high && !critical)
  {
    hide Run, Files, History;
    SeverityIsTheWorstFiled(events, hash, g);
    HistoryRunsTheTables(events, hash);
    FilingsAreCalls(events, hash, g, Low);
    FilingsAreCalls(events, hash, g, Medium);
    FilingsAreCalls(events, hash, g, High);
    FilingsAreCalls(events, hash, g, Critical);
  }

  // ---------------------------------------------------------------------------
  // Status
  // ---------------------------------------------------------------------------

  /** The last call that triaged the group, if any did. */
  ghost function LastTriage(events: seq<Event>, hash: string -> string, g: GroupId): (last: Option<nat>)
    ensures last.Some? ==> last.value < |events| && events[last.value].TriageGroup?
  {
    if events == [] then None
    else
      var n := |events| - 1;
      if events[n].TriageGroup? && events[n].group == g && g in Run(EMPTY, events[..n], hash).groups then Some(n)
      else LastTriage(events[..n], hash, g)
  }

  ghost predicate FiledSince(events: seq<Event>, hash: string -> string, i: nat, g: GroupId) {
    exists k: nat :: k > i && FilesInto(events, hash, k, g)
  }

  /** What one call does to status and regression time. */
  lemma StandingStep(db: Database, e: Event, hash: string -> string, g: GroupId)
    requires Keyed(db) && g in Apply(db, e, hash).groups
    ensures var after := Apply(db, e, hash).groups[g];
            if e.TriageGroup? && e.group == g then
              g in db.groups && after.status == e.status
              && after.regressedAt == (if e.status == Regressed then db.groups[g].regressedAt else None)
            else if g !in db.groups then MovesTo(db, e, hash, g) && after.status == Open && after.regressedAt == None
            else if MovesTo(db, e, hash, g) && db.groups[g].status == Resolved then
              after.status == Regressed && after.regressedAt == Some(e.now)
            else after.status == db.groups[g].status && after.regressedAt == db.groups[g].regressedAt
  {
    if e.File? && e.report in db.reports {
      FiledStanding(db, e.report, e.frames, e.now, hash, g);
    }
  }

  lemma FiledStanding(db: Database, r: ReportId, frames: seq<Frame>, now: int, hash: string -> string, g: GroupId)
    requires Keyed(db) && r in db.reports && g in Filed(db, r, frames, now, hash).groups
    ensures var after := Filed(db, r, frames, now, hash).groups[g];
            var here := GroupFor(db, SignatureFor(db.reports[r].fault, frames, hash)) == g;
            if g !in db.groups then here && after.status == Open && after.regressedAt == None
            else if here && db.groups[g].status == Resolved then
              after.status == Regressed && after.regressedAt == Some(now)
            else after.status == db.groups[g].status && after.regressedAt == db.groups[g].regressedAt
  {
    hide Filed, Keyed, GroupFor, SignatureFor, AfterJoining, NewGroup, Members, Devices, Versions, Times;
    var db', report := Filed(db, r, frames, now, hash), db.reports[r];
    var signature := SignatureFor(report.fault, frames, hash);
    FilingByGroup(db, r, frames, now, hash);
    if g == GroupFor(db, signature) {
      var group := if g in db.groups then db.groups[g] else NewGroup(report, frames, signature);
      JoinedStanding(group, db'.reports, db'.reports[r], g, report.groupId == Some(g), now);
      NewStanding(report, frames, signature);
    }
  }

  lemma JoinedStanding(group: Group, reports: map<ReportId, Report>, row: Report, g: GroupId, counted: bool, now: int)
    ensures var after := AfterJoining(group, reports, row, g, counted, now);
            if group.status == Resolved then after.status == Regressed && after.regressedAt == Some(now)
            else after.status == group.status && after.regressedAt == group.regressedAt
  {
    hide Devices;
  }

  lemma NewStanding(report: Report, frames: seq<Frame>, signature: string)
    ensures NewGroup(report, frames, signature).status == Open
    ensures NewGroup(report, frames, signature).regressedAt == None
  {
  }

  lemma FilingsSince(events: seq<Event>, hash: string -> string, i: nat, g: GroupId)
    requires events != [] && i < |events| - 1
    ensures var n := |events| - 1;
            FiledSince(events, hash, i, g) <==> FiledSince(events[..n], hash, i, g) || FilesInto(events, hash, n, g)
  {
    hide FilesInto, Run;
    var n := |events| - 1;
    forall k: nat ensures k < n ==> (FilesInto(events, hash, k, g) <==> FilesInto(events[..n], hash, k, g)) {
      FilesFront(events, hash, k, g, Low);
    }
    forall k: nat ensures FilesInto(events, hash, k, g) ==> k <= n
                  ensures FilesInto(events[..n], hash, k, g) ==> k < n {
      FilesAreCalls(events, hash, k, g);
      FilesAreCalls(events[..n], hash, k, g);
    }
    if FiledSince(events[..n], hash, i, g) {
      var k: nat :| k > i && FilesInto(events[..n], hash, k, g);
      assert FilesInto(events, hash, k, g);
    }
  }

  lemma FilesAreCalls(events: seq<Event>, hash: string -> string, k: nat, g: GroupId)
    ensures FilesInto(events, hash, k, g) ==> k < |events|
  {
  }

  /** Over every run a group's status is what it was last triaged to, except that a group
      resolved last and filed into since is regressed; one never triaged is open. */
  lemma {:induction false} StatusByCalls(events: seq<Event>, hash: string -> string, g: GroupId)
    requires g in Run(EMPTY, events, hash).groups
    ensures var status := Run(EMPTY, events, hash).groups[g].status;
            match LastTriage(events, hash, g)
            case None => status == Open
            case Some(i) =>
              status == if events[i].status == Resolved && FiledSince(events, hash, i, g) then Regressed
                        else events[i].status
  {
    hide Apply, FilesInto, MovesTo, FiledSince;
    if events != [] {
      var n := |events| - 1;
      var db := Run(EMPTY, events[..n], hash);
      ReachableIsKeyed(events[..n], hash);
      StandingStep(db, events[n], hash, g);
      LastFiles(events, hash, g, Low);
      if g in db.groups {
        StatusByCalls(events[..n], hash, g);
        var i := LastTriage(events[..n], hash, g);
        if i.Some? {
          FilingsSince(events, hash, i.value, g);
        }
        NothingSinceLast(events, hash, g);
      } else {
        NeverTriaged(events[..n], hash, g);
      }
    }
  }

  lemma NothingSinceLast(events: seq<Event>, hash: string -> string, g: GroupId)
    requires events != []
    ensures !FiledSince(events, hash, |events| - 1, g)
  {
    hide Before, Run;
  }

  /** A group that is not there has not been triaged: groups stay. */
  lemma {:induction false} NeverTriaged(events: seq<Event>, hash: string -> string, g: GroupId)
    requires g !in Run(EMPTY, events, hash).groups
    ensures LastTriage(events, hash, g) == None
  {
    if events != [] {
      var n := |events| - 1;
      ReachableIsKeyed(events[..n], hash);
      GroupsStay(Run(EMPTY, events[..n], hash), events[n], hash, g);
      hide Apply;
      NeverTriaged(events[..n], hash, g);
    }
  }

  lemma GroupsStay(db: Database, e: Event, hash: string -> string, g: GroupId)
    requires Keyed(db)
    ensures g in db.groups ==> g in Apply(db, e, hash).groups
  {
    if e.File? && e.report in db.reports {
      FilingByGroup(db, e.report, e.frames, e.now, hash);
    }
  }

  /** Call `i` files into the group while it is resolved, at time `t`, and nothing since has
      triaged the group to anything but regressed. */
  ghost predicate Regresses(events: seq<Event>, hash: string -> string, i: nat, g: GroupId, t: int) {
    && FilesInto(events, hash, i, g) && events[i].now == t
    && g in Before(events, i, hash).groups && Before(events, i, hash).groups[g].status == Resolved
    && forall k: nat :: i < k < |events| && events[k].TriageGroup? && events[k].group == g ==> events[k].status == Regressed
  }

  lemma RegressesFront(events: seq<Event>, hash: string -> string, i: nat, g: GroupId, t: int)
    requires events != []
    ensures var n := |events| - 1;
            && (i < n ==>
                  (Regresses(events, hash, i, g, t) <==>
                     && Regresses(events[..n], hash, i, g, t)
                     && (events[n].TriageGroup? && events[n].group == g ==> events[n].status == Regressed)))
            && (i == n ==>
                  (Regresses(events, hash, i, g, t) <==>
                     var db := Run(EMPTY, events[..n], hash);
                     && MovesTo(db, events[n], hash, g) && events[n].now == t
                     && g in db.groups && db.groups[g].status == Resolved))
            && (Regresses(events, hash, i, g, t) ==> i <= n) && (Regresses(events[..n], hash, i, g, t) ==> i < n)
  {
    hide Run, FilesInto, MovesTo;
    var n := |events| - 1;
    FilesAreCalls(events, hash, i, g);
    FilesAreCalls(events[..n], hash, i, g);
    if i < n {
      FilesFront(events, hash, i, g, Low);
      FrontIsBefore(events, i, hash);
      assert forall k: nat :: k < n ==> events[..n][k] == events[k];
    } else if i == n {
      LastFiles(events, hash, g, Low);
    }
  }

  lemma RegressedGroupExists(events: seq<Event>, hash: string -> string, i: nat, g: GroupId, t: int)
    requires Regresses(events, hash, i, g, t)
    ensures g in Run(EMPTY, events, hash).groups
  {
    hide FilesInto, Run;
    FilesAreCalls(events, hash, i, g);
    StillThere(events, hash, i, g);
  }

  lemma {:induction false} StillThere(events: seq<Event>, hash: string -> string, i: nat, g: GroupId)
    requires i <= |events| && g in Before(events, i, hash).groups
    ensures g in Run(EMPTY, events, hash).groups
  {
    if i == |events| {
      assert events[..i] == events;
    } else {
      var n := |events| - 1;
      FrontOfFront(events, i);
      ReachableIsKeyed(events[..n], hash);
      GroupsStay(Run(EMPTY, events[..n], hash), events[n], hash, g);
      hide Apply;
      StillThere(events[..n], hash, i, g);
    }
  }

  lemma FrontOfFront(events: seq<Event>, i: nat)
    requires i < |events|
    ensures events[..|events| - 1][..i] == events[..i]
  {
  }

  /** Over every run a group's regression time is the time of the filing that found it
      resolved, for as long as nobody has triaged it to anything but regressed since. */
  lemma {:induction false} RegressionTimeByCalls(events: seq<Event>, hash: string -> string, g: GroupId, t: int)
    requires g in Run(EMPTY, events, hash).groups
    ensures Run(EMPTY, events, hash).groups[g].regressedAt == Some(t) <==>
            exists i: nat :: Regresses(events, hash, i, g, t)
  {
    hide Apply, Regresses, GroupFor, SignatureFor;
    if events != [] {
      var n := |events| - 1;
      var db := Run(EMPTY, events[..n], hash);
      ReachableIsKeyed(events[..n], hash);
      StandingStep(db, events[n], hash, g);
      var cleared := events[n].TriageGroup? && events[n].group == g && events[n].status != Regressed;
      forall i: nat ensures Regresses(events, hash, i, g, t) <==>
                              (i == n && Regresses(events, hash, n, g, t)) ||
                              (Regresses(events[..n], hash, i, g, t) && !cleared) {
        RegressesFront(events, hash, i, g, t);
      }
      RegressesFront(events, hash, n, g, t);
      if g in db.groups {
        RegressionTimeByCalls(events[..n], hash, g, t);
        SeverityIsTheWorstFiled(events[..n], hash, g);
      } else {
        forall i: nat ensures !Regresses(events[..n], hash, i, g, t) {
          if Regresses(events[..n], hash, i, g, t) {
            RegressedGroupExists(events[..n], hash, i, g, t);
          }
        }
      }
    }
  }

  // ---------------------------------------------------------------------------
  // Reports
  // ---------------------------------------------------------------------------

  /** The last call that symbolicated the report. */
  ghost function LastFiling(events: seq<Event>, hash: string -> string, r: ReportId): (last: Option<nat>)
    ensures last.Some? ==> last.value < |events| && events[last.value].File?
  {
    if events == [] then None
    else
      var n := |events| - 1;
      if events[n].File? && events[n].report == r && r in Run(EMPTY, events[..n], hash).reports then Some(n)
      else LastFiling(events[..n], hash, r)
  }

  /** The last call that re-rated the report by hand. */
  ghost function LastRating(events: seq<Event>, hash: string -> string, r: ReportId): (last: Option<nat>)
    ensures last.Some? ==> last.value < |events| && events[last.value].TriageReport?
  {
    if events == [] then None
    else
      var n := |events| - 1;
      if events[n].TriageReport? && events[n].report == r && r in Run(EMPTY, events[..n], hash).reports then Some(n)
      else LastRating(events[..n], hash, r)
  }

  /** The call that stored the report. */
  ghost function Arrival(events: seq<Event>, hash: string -> string, r: ReportId): (first: Option<nat>)
    ensures first.Some? ==> first.value < |events| && events[first.value].Ingest?
  {
    if events == [] then None
    else
      var n := |events| - 1;
      var db := Run(EMPTY, events[..n], hash);
      if events[n].Ingest? && !HasDuplicate(db, events[n].fault) && db.nextReport == r then Some(n)
      else Arrival(events[..n], hash, r)
  }

  /** What one call does to one report. */
  lemma ReportStep(db: Database, e: Event, hash: string -> string, r: ReportId)
    requires Keyed(db) && r in Apply(db, e, hash).reports
    ensures var after := Apply(db, e, hash);
            var row := after.reports[r];
            if r !in db.reports then
              && e.Ingest? && !HasDuplicate(db, e.fault) && db.nextReport == r
              && row == Report(e.fault, e.level, None, None, None, None)
            else
              && !(e.Ingest? && !HasDuplicate(db, e.fault) && db.nextReport == r)
              && row.fault == db.reports[r].fault
              && row.severity == (if e.TriageReport? && e.report == r then e.level else db.reports[r].severity)
              && (if e.File? && e.report == r then Symbolicated(after, row, e, hash)
                  else row.groupId == db.reports[r].groupId && row.signature == db.reports[r].signature
                       && row.topFunction == db.reports[r].topFunction
                       && row.symbolicatedAt == db.reports[r].symbolicatedAt)
  {
    if e.File? && e.report in db.reports {
      FiledReport(db, e, hash, r);
    }
  }

  /** The report shows the filing: when, under what, and into the group of its signature. */
  ghost predicate Symbolicated(db: Database, row: Report, e: Event, hash: string -> string)
    requires e.File?
  {
    && row.symbolicatedAt == Some(e.now)
    && row.signature == Some(SignatureFor(row.fault, e.frames, hash))
    && (var top := InnermostName(e.frames);
        row.topFunction == if top.None? then None else if |top.value| <= 255 then top else Some(top.value[..255]))
    && row.groupId.Some? && row.groupId.value in db.groups
    && Some(db.groups[row.groupId.value].signature) == row.signature
  }

  lemma FiledReport(db: Database, e: Event, hash: string -> string, r: ReportId)
    requires Keyed(db) && e.File? && e.report in db.reports && r in Apply(db, e, hash).reports
    ensures var after := Apply(db, e, hash);
            && r in db.reports
            && (r != e.report ==> after.reports[r] == db.reports[r])
            && (r == e.report ==>
                  && after.reports[r].fault == db.reports[r].fault && after.reports[r].severity == db.reports[r].severity
                  && Symbolicated(after, after.reports[r], e, hash))
  {
    hide Filed, Keyed, GroupFor, SignatureFor, AfterJoining, Recomputed, InnermostName, ResolvedNames, TopFunction;
    FilingByGroup(db, e.report, e.frames, e.now, hash);
    HeadlineOfFrames("", e.frames, None);
    var g := GroupFor(db, SignatureFor(db.reports[e.report].fault, e.frames, hash));
    FiledSignature(db, e.report, e.frames, e.now, hash, g);
    GroupForIsUnique(db, SignatureFor(db.reports[e.report].fault, e.frames, hash));
    DestinationSignature(db, SignatureFor(db.reports[e.report].fault, e.frames, hash));
  }

  lemma DestinationSignature(db: Database, signature: string)
    ensures GroupFor(db, signature) in db.groups && HasSignature(db.groups, signature) ==>
              db.groups[GroupFor(db, signature)].signature == signature
  {
  }

  lemma IdentifiersGrow(db: Database, e: Event, hash: string -> string)
    ensures db.nextReport <= Apply(db, e, hash).nextReport
  {
  }

  /** Only a stored report is symbolicated or re-rated, so never one yet to come. */
  lemma {:induction false} NothingBeforeArrival(events: seq<Event>, hash: string -> string, r: ReportId)
    requires r >= Run(EMPTY, events, hash).nextReport
    ensures LastFiling(events, hash, r) == None && LastRating(events, hash, r) == None
  {
    if events != [] {
      var n := |events| - 1;
      ReachableIsKeyed(events[..n], hash);
      IdentifiersGrow(Run(EMPTY, events[..n], hash), events[n], hash);
      hide Apply;
      NothingBeforeArrival(events[..n], hash, r);
    }
  }

  lemma SignaturesStay(db: Database, e: Event, hash: string -> string, g: GroupId)
    requires Keyed(db) && g in db.groups
    ensures g in Apply(db, e, hash).groups && Apply(db, e, hash).groups[g].signature == db.groups[g].signature
  {
    if e.File? && e.report in db.reports {
      FilingByGroup(db, e.report, e.frames, e.now, hash);
      FiledSignature(db, e.report, e.frames, e.now, hash, g);
    }
  }

  /** Over every run a report is as it arrived, except that its severity is what it was last
      re-rated to, and that it shows its last symbolication: the time, the signature of the
      frames found then, their first name, and the group of that signature. */
  lemma {:induction false} ReportByCalls(events: seq<Event>, hash: string -> string, r: ReportId)
    requires r in Run(EMPTY, events, hash).reports
    ensures var db := Run(EMPTY, events, hash);
            var row, arrival, rating := db.reports[r], Arrival(events, hash, r), LastRating(events, hash, r);
            && arrival.Some? && row.fault == events[arrival.value].fault
            && row.severity == (if rating.Some? then events[rating.value].level else events[arrival.value].level)
            && match LastFiling(events, hash, r)
               case None => row.groupId == None && row.signature == None && row.topFunction == None
                            && row.symbolicatedAt == None
               case Some(i) => Symbolicated(db, row, events[i], hash)
  {
    hide Apply, InnermostName, SignatureFor;
    if events != [] {
      var n := |events| - 1;
      var db := Run(EMPTY, events[..n], hash);
      ReachableIsKeyed(events[..n], hash);
      ReportStep(db, events[n], hash, r);
      if r in db.reports {
        ReportByCalls(events[..n], hash, r);
        if db.reports[r].groupId.Some? {
          SignaturesStay(db, events[n], hash, db.reports[r].groupId.value);
        }
      } else {
        NothingBeforeArrival(events[..n], hash, r);
      }
    }
  }
}
