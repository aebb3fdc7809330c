/** Filing again changes nothing, and a batch may be filed in any order:
    `symbolicate_report` and `resymbolicate_for_build`. */
module Refiling {
  import opened Wrappers
  import opened Sets
  import opened StackAnalyzer
  import opened CrashDatabase
  import opened GroupAccounting
  import opened GroupTheorems

  // ---------------------------------------------------------------------------
  // Twice in a row
  // ---------------------------------------------------------------------------

  lemma TouchedTwice(group: Group, report: Report, now: int, later: int)
    ensures Touched(Touched(group, report, now), report, later) == Touched(group, report, now)
  {
  }

  lemma SameDevices(reports: map<ReportId, Report>, r: ReportId, row: Report, g: GroupId)
    requires r in reports && row.groupId == reports[r].groupId && row.fault == reports[r].fault
    ensures Devices(reports[r := row], g) == Devices(reports, g)
  {
    assert Members(reports[r := row], g) == Members(reports, g);
    QueriesUnchanged(reports, reports[r := row], g);
  }

  lemma JoiningAgain(group: Group, reports: map<ReportId, Report>, r: ReportId, row: Report, g: GroupId,
                     counted: bool, now: int, later: int)
    requires r in reports && reports[r] == row && row.groupId == Some(g)
    ensures var again := row.(symbolicatedAt := Some(later));
            var joined := AfterJoining(group, reports, row, g, counted, now);
            AfterJoining(joined, reports[r := again], again, g, true, later) == joined
  {
    var again := row.(symbolicatedAt := Some(later));
    SameDevices(reports, r, again, g);
    var joined := AfterJoining(group, reports, row, g, counted, now);
    TouchedTwice(group.(occurrences := joined.occurrences), row, now, later);
  }

  /** Symbolicating a report twice in a row with the same build changes its timestamp only. */
  lemma FilingTwiceOnlyRestamps(db: Database, r: ReportId, frames: seq<Frame>, now: int, later: int,
                                hash: string -> string)
    requires Keyed(db) && r in db.reports
    ensures var once := Filed(db, r, frames, now, hash);
            r in once.reports &&
            Filed(once, r, frames, later, hash) ==
            once.(reports := once.reports[r := once.reports[r].(symbolicatedAt := Some(later))])
  {
    var once := Filed(db, r, frames, now, hash);
    var signature := SignatureFor(db.reports[r].fault, frames, hash);
    var g := GroupFor(db, signature);
    FilingByGroup(db, r, frames, now, hash);
    FilingKeepsKeys(db, r, frames, now, hash);
    GroupForIsUnique(db, signature);
    FiledSignature(db, r, frames, now, hash, g);
    GroupForIsUnique(once, signature);
    assert HasSignature(once.groups, signature);
    var group := if g in db.groups then db.groups[g] else NewGroup(db.reports[r], frames, signature);
    JoiningAgain(group, once.reports, r, once.reports[r], g, db.reports[r].groupId == Some(g), now, later);
    var twice := Filed(once, r, frames, later, hash);
    FilingByGroup(once, r, frames, later, hash);
    assert twice.groups == once.groups;
  }

  // ---------------------------------------------------------------------------
  // In any order
  // ---------------------------------------------------------------------------

  /** What of a database does not depend on identifiers and clocks, keyed by signature. */
  datatype View = View(placed: map<ReportId, Option<string>>, severity: map<string, Severity>,
                       status: map<string, GroupStatus>, figures: map<string, Figures>)

  /** The counters of a group, right or wrong. */
  datatype Figures = Figures(occurrences: int, devices: int, versions: set<string>)

  const NOTHING := Figures(0, 0, {})

  function FiguresOf(group: Group): Figures { Figures(group.occurrences, group.devices, group.versions) }

  ghost function SignatureAt(db: Database, r: ReportId): Option<string>
    requires r in db.reports
  {
    var g := db.reports[r].groupId;
    if g.Some? && g.value in db.groups then Some(db.groups[g.value].signature) else None
  }

  ghost function Signatures(db: Database): set<string> {
    set g | g in db.groups :: db.groups[g].signature
  }

  ghost function ViewOf(db: Database): View {
    View(map r | r in db.reports :: SignatureAt(db, r),
         map s | s in Signatures(db) && GroupFor(db, s) in db.groups :: db.groups[GroupFor(db, s)].severity,
         map s | s in Signatures(db) && GroupFor(db, s) in db.groups :: db.groups[GroupFor(db, s)].status,
         map s | s in Signatures(db) && GroupFor(db, s) in db.groups :: FiguresOf(db.groups[GroupFor(db, s)]))
  }

  /** The part of a report a filing reads, which no filing changes. */
  datatype Given = Given(fault: Fault, severity: Severity)

  function GivenOf(db: Database): map<ReportId, Given> {
    map r | r in db.reports :: Given(db.reports[r].fault, db.reports[r].severity)
  }

  function Worse(a: Severity, b: Severity): Severity { if Rank(b) > Rank(a) then b else a }

  function PlacedAt(placed: map<ReportId, Option<string>>, given: map<ReportId, Given>, s: string): set<ReportId> {
    set r | r in placed && r in given && placed[r] == Some(s)
  }

  function DevicesAt(placed: map<ReportId, Option<string>>, given: map<ReportId, Given>, s: string): set<nat> {
    set r | r in PlacedAt(placed, given, s) :: given[r].fault.device
  }

  function VersionsAt(placed: map<ReportId, Option<string>>, given: map<ReportId, Given>, s: string): set<string> {
    set r | r in PlacedAt(placed, given, s) :: given[r].fault.firmware
  }

  /** What a recount shows. */
  function Recount(placed: map<ReportId, Option<string>>, given: map<ReportId, Given>, s: string): Figures {
    Figures(|PlacedAt(placed, given, s)|, |DevicesAt(placed, given, s)|, VersionsAt(placed, given, s))
  }

  /** What joining makes of the figures, whatever they were. */
  function Joined(f: Figures, placed: map<ReportId, Option<string>>, given: map<ReportId, Given>, r: ReportId,
                  s: string, counted: bool): Figures
    requires r in given
  {
    Figures(f.occurrences + if counted then 0 else 1, |DevicesAt(placed, given, s)|,
            f.versions + {given[r].fault.firmware})
  }

  /** The figures at `x` once report `r` has moved from `home` to `s`. */
  function FiguresAt(figures: map<string, Figures>, placed: map<ReportId, Option<string>>,
                     given: map<ReportId, Given>, r: ReportId, home: Option<string>, s: string, x: string): Figures
    requires r in given
  {
    if x == s then Joined(if s in figures then figures[s] else NOTHING, placed, given, r, s, home == Some(s))
    else if home == Some(x) || x !in figures then Recount(placed, given, x)
    else figures[x]
  }

  function FiguresAfter(figures: map<string, Figures>, placed: map<ReportId, Option<string>>,
                        given: map<ReportId, Given>, r: ReportId, home: Option<string>, s: string): map<string, Figures>
    requires r in given
  {
    map x | x in figures.Keys + {s} :: FiguresAt(figures, placed, given, r, home, s, x)
  }

  function HomeOf(placed: map<ReportId, Option<string>>, r: ReportId): Option<string> {
    if r in placed then placed[r] else None
  }

  /** Filing, seen through the view. */
  function Place(v: View, given: map<ReportId, Given>, r: ReportId, signature: string, level: Severity): View
    requires r in given
  {
    var placed := v.placed[r := Some(signature)];
    View(placed,
         v.severity[signature := if signature in v.severity then Worse(v.severity[signature], level) else level],
         Regarded(v.status, signature),
         FiguresAfter(v.figures, placed, given, r, HomeOf(v.placed, r), signature))
  }

  function Regarded(status: map<string, GroupStatus>, signature: string): map<string, GroupStatus> {
    status[signature := if signature !in status then Open
                        else if status[signature] == Resolved then Regressed
                        else status[signature]]
  }

  lemma SeverityCommutes(m: map<string, Severity>, s: string, a: Severity, t: string, b: Severity)
    ensures var x := m[s := if s in m then Worse(m[s], a) else a];
            var y := m[t := if t in m then Worse(m[t], b) else b];
            x[t := if t in x then Worse(x[t], b) else b] == y[s := if s in y then Worse(y[s], a) else a]
  {
  }

  lemma StatusCommutes(m: map<string, GroupStatus>, s: string, t: string)
    ensures Regarded(Regarded(m, s), t) == Regarded(Regarded(m, t), s)
  {
  }

  /** A move that neither leaves nor reaches `x` changes no query at `x`. */
  lemma ElsewhereUnseen(placed: map<ReportId, Option<string>>, given: map<ReportId, Given>, q: ReportId, t: string,
                        x: string)
    requires t != x && HomeOf(placed, q) != Some(x)
    ensures DevicesAt(placed[q := Some(t)], given, x) == DevicesAt(placed, given, x)
    ensures Recount(placed[q := Some(t)], given, x) == Recount(placed, given, x)
  {
    assert PlacedAt(placed[q := Some(t)], given, x) == PlacedAt(placed, given, x);
  }

  /** Joining right figures gives right figures. */
  lemma JoiningARecount(placed: map<ReportId, Option<string>>, given: map<ReportId, Given>, q: ReportId, x: string)
    requires q in given
    ensures var after := placed[q := Some(x)];
            Joined(Recount(placed, given, x), after, given, q, x, HomeOf(placed, q) == Some(x)) == Recount(after, given, x)
  {
    var after := placed[q := Some(x)];
    var before, members := PlacedAt(placed, given, x), PlacedAt(after, given, x);
    assert members == before + {q};
    SizeOfAdd(before, q);
    assert forall r :: r in before ==> r in members;
    assert VersionsAt(after, given, x) == VersionsAt(placed, given, x) + {given[q].fault.firmware};
  }

  /** Every report's home has figures. */
  ghost predicate Housed(placed: map<ReportId, Option<string>>, figures: map<string, Figures>) {
    forall p :: p in placed && placed[p].Some? ==> placed[p].value in figures
  }

  /** The figures at `x` after two moves, the first by `r`, the second by `q`. */
  function Twice(figures: map<string, Figures>, placed: map<ReportId, Option<string>>, given: map<ReportId, Given>,
                 r: ReportId, s: string, q: ReportId, t: string, x: string): Figures
    requires r in given && q in given
  {
    var first := placed[r := Some(s)];
    FiguresAt(FiguresAfter(figures, first, given, r, HomeOf(placed, r), s), first[q := Some(t)], given, q,
              HomeOf(first, q), t, x)
  }

  lemma AfterAt(figures: map<string, Figures>, placed: map<ReportId, Option<string>>, given: map<ReportId, Given>,
                r: ReportId, home: Option<string>, s: string, x: string)
    requires r in given
    ensures var after := FiguresAfter(figures, placed, given, r, home, s);
            && (x in after <==> x in figures || x == s)
            && (x in after ==> after[x] == FiguresAt(figures, placed, given, r, home, s, x))
  {
    hide FiguresAt;
  }

  /** Two reports joining one group, whichever came first. */
  lemma FirstThenSecond(figures: map<string, Figures>, placed: map<ReportId, Option<string>>,
                        given: map<ReportId, Given>, r: ReportId, q: ReportId, x: string)
    requires r != q && r in given && q in given
    ensures var f := if x in figures then figures[x] else NOTHING;
            Twice(figures, placed, given, r, x, q, x, x) ==
            Figures(f.occurrences + (if HomeOf(placed, r) == Some(x) then 0 else 1) +
                                    (if HomeOf(placed, q) == Some(x) then 0 else 1),
                    |DevicesAt(placed[r := Some(x)][q := Some(x)], given, x)|,
                    f.versions + {given[r].fault.firmware, given[q].fault.firmware})
  {
    hide DevicesAt, Recount, FiguresAfter;
    AfterAt(figures, placed[r := Some(x)], given, r, HomeOf(placed, r), x, x);
  }

  lemma BothJoin(figures: map<string, Figures>, placed: map<ReportId, Option<string>>, given: map<ReportId, Given>,
                 r: ReportId, q: ReportId, x: string)
    requires r != q && r in given && q in given
    ensures Twice(figures, placed, given, r, x, q, x, x) == Twice(figures, placed, given, q, x, r, x, x)
  {
    hide Twice, HomeOf, DevicesAt;
    FirstThenSecond(figures, placed, given, r, q, x);
    FirstThenSecond(figures, placed, given, q, r, x);
    assert placed[r := Some(x)][q := Some(x)] == placed[q := Some(x)][r := Some(x)];
  }

  lemma OneJoins(figures: map<string, Figures>, placed: map<ReportId, Option<string>>, given: map<ReportId, Given>,
                 r: ReportId, x: string, q: ReportId, t: string)
    requires r != q && r in given && q in given && t != x && Housed(placed, figures)
    ensures Twice(figures, placed, given, r, x, q, t, x) == Twice(figures, placed, given, q, t, r, x, x)
  {
    hide DevicesAt, PlacedAt, VersionsAt, Recount, FiguresAfter;
    var first, second := placed[r := Some(x)], placed[q := Some(t)];
    AfterAt(figures, first, given, r, HomeOf(placed, r), x, x);
    AfterAt(figures, second, given, q, HomeOf(placed, q), t, x);
    assert first[q := Some(t)] == second[r := Some(x)];
    if HomeOf(placed, q) == Some(x) {
      JoiningARecount(second, given, r, x);
    } else {
      ElsewhereUnseen(first, given, q, t, x);
    }
  }

  lemma NeitherJoins(figures: map<string, Figures>, placed: map<ReportId, Option<string>>, given: map<ReportId, Given>,
                     r: ReportId, s: string, q: ReportId, t: string, x: string)
    requires r != q && r in given && q in given && s != x && t != x && x in figures
    ensures Twice(figures, placed, given, r, s, q, t, x) == Twice(figures, placed, given, q, t, r, s, x)
  {
    hide DevicesAt, PlacedAt, VersionsAt, Recount, FiguresAfter;
    var first, second := placed[r := Some(s)], placed[q := Some(t)];
    AfterAt(figures, first, given, r, HomeOf(placed, r), s, x);
    AfterAt(figures, second, given, q, HomeOf(placed, q), t, x);
    assert first[q := Some(t)] == second[r := Some(s)];
    if HomeOf(placed, q) != Some(x) {
      ElsewhereUnseen(first, given, q, t, x);
    }
    if HomeOf(placed, r) != Some(x) {
      ElsewhereUnseen(second, given, r, s, x);
    }
  }

  /** The figures at one signature do not tell in which order two reports were moved. */
  lemma FiguresCommuteAt(figures: map<string, Figures>, placed: map<ReportId, Option<string>>,
                         given: map<ReportId, Given>, r: ReportId, s: string, q: ReportId, t: string, x: string)
    requires r != q && r in given && q in given && x in figures.Keys + {s, t} && Housed(placed, figures)
    ensures Twice(figures, placed, given, r, s, q, t, x) == Twice(figures, placed, given, q, t, r, s, x)
  {
    hide Twice, Housed;
    if s == x && t == x {
      BothJoin(figures, placed, given, r, q, x);
    } else if s == x {
      OneJoins(figures, placed, given, r, x, q, t);
    } else if t == x {
      OneJoins(figures, placed, given, q, x, r, s);
    } else {
      NeitherJoins(figures, placed, given, r, s, q, t, x);
    }
  }

  lemma FiguresCommute(v: View, given: map<ReportId, Given>, r: ReportId, s: string, a: Severity,
                       q: ReportId, t: string, b: Severity)
    requires r != q && r in given && q in given && Housed(v.placed, v.figures)
    ensures Place(Place(v, given, r, s, a), given, q, t, b).figures ==
            Place(Place(v, given, q, t, b), given, r, s, a).figures
  {
    hide FiguresAt, Housed, Regarded, Worse;
    var x, y := Place(Place(v, given, r, s, a), given, q, t, b).figures, Place(Place(v, given, q, t, b), given, r, s, a).figures;
    forall k | k in v.figures.Keys + {s, t} ensures k in x && k in y && x[k] == y[k] {
      FiguresCommuteAt(v.figures, v.placed, given, r, s, q, t, k);
    }
  }

  lemma PlacingCommutes(v: View, given: map<ReportId, Given>, r: ReportId, s: string, a: Severity,
                        q: ReportId, t: string, b: Severity)
    requires r in given && q in given && Housed(v.placed, v.figures)
    requires r == q ==> s == t && a == b
    ensures Place(Place(v, given, r, s, a), given, q, t, b) == Place(Place(v, given, q, t, b), given, r, s, a)
  {
    if r != q {
      FiguresCommute(v, given, r, s, a, q, t, b);
      OthersCommute(v, given, r, s, a, q, t, b);
      hide Place;
    }
  }

  lemma OthersCommute(v: View, given: map<ReportId, Given>, r: ReportId, s: string, a: Severity,
                      q: ReportId, t: string, b: Severity)
    requires r != q && r in given && q in given
    ensures var x, y := Place(Place(v, given, r, s, a), given, q, t, b), Place(Place(v, given, q, t, b), given, r, s, a);
            x.placed == y.placed && x.severity == y.severity && x.status == y.status
  {
    hide FiguresAfter, Regarded, Worse, HomeOf;
    SeverityCommutes(v.severity, s, a, t, b);
    StatusCommutes(v.status, s, t);
    assert v.placed[r := Some(s)][q := Some(t)] == v.placed[q := Some(t)][r := Some(s)];
  }

  lemma ViewAt(db: Database, h: GroupId)
    requires Keyed(db) && h in db.groups
    ensures var s := db.groups[h].signature;
            && GroupFor(db, s) == h
            && s in ViewOf(db).severity && ViewOf(db).severity[s] == db.groups[h].severity
            && s in ViewOf(db).status && ViewOf(db).status[s] == db.groups[h].status
            && s in ViewOf(db).figures && ViewOf(db).figures[s] == FiguresOf(db.groups[h])
  {
    GroupForIsUnique(db, db.groups[h].signature);
  }

  lemma ViewKeys(db: Database)
    requires Keyed(db)
    ensures ViewOf(db).severity.Keys == Signatures(db) && ViewOf(db).status.Keys == Signatures(db)
    ensures ViewOf(db).figures.Keys == Signatures(db)
  {
    forall s | s in Signatures(db) ensures GroupFor(db, s) in db.groups {
      GroupForIsUnique(db, s);
    }
  }

  lemma FiledSignatures(db: Database, r: ReportId, frames: seq<Frame>, now: int, hash: string -> string)
    requires Keyed(db) && r in db.reports
    ensures Signatures(Filed(db, r, frames, now, hash)) ==
            Signatures(db) + {SignatureFor(db.reports[r].fault, frames, hash)}
  {
    hide Filed, Keyed, SignatureFor, AfterJoining, Recomputed;
    var db' := Filed(db, r, frames, now, hash);
    var signature := SignatureFor(db.reports[r].fault, frames, hash);
    FilingByGroup(db, r, frames, now, hash);
    GroupForIsUnique(db, signature);
    var g := GroupFor(db, signature);
    FiledSignature(db, r, frames, now, hash, g);
    forall h | h in db'.groups ensures db'.groups[h].signature in Signatures(db) + {signature} {
      FiledSignature(db, r, frames, now, hash, h);
    }
    forall h | h in db.groups ensures db.groups[h].signature in Signatures(db') {
      FiledSignature(db, r, frames, now, hash, h);
      assert h in db'.groups;
    }
  }

  /** Severity and status of a group after a filing. */
  lemma FiledStanding(db: Database, r: ReportId, frames: seq<Frame>, now: int, hash: string -> string, h: GroupId)
    requires Keyed(db) && r in db.reports && h in Filed(db, r, frames, now, hash).groups
    ensures var after := Filed(db, r, frames, now, hash).groups[h];
            var signature, level := SignatureFor(db.reports[r].fault, frames, hash), db.reports[r].severity;
            && (after.signature == signature <==> h == GroupFor(db, signature))
            && after.severity ==
               (if after.signature != signature then db.groups[h].severity
                else if h in db.groups then Worse(db.groups[h].severity, level) else level)
            && after.status ==
               (if after.signature != signature then db.groups[h].status
                else if h !in db.groups then Open
                else if db.groups[h].status == Resolved then Regressed else db.groups[h].status)
  {
    hide Filed, Keyed, SignatureFor, AfterJoining;
    var db' := Filed(db, r, frames, now, hash);
    var signature := SignatureFor(db.reports[r].fault, frames, hash);
    var g := GroupFor(db, signature);
    FilingByGroup(db, r, frames, now, hash);
    GroupForIsUnique(db, signature);
    FiledSignature(db, r, frames, now, hash, h);
    if h == g {
      var group := if g in db.groups then db.groups[g] else NewGroup(db.reports[r], frames, signature);
      JoinedFields(group, db'.reports, db'.reports[r], g, db.reports[r].groupId == Some(g), now);
      JoinedStatus(group, db'.reports, db'.reports[r], g, db.reports[r].groupId == Some(g), now);
    }
  }

  lemma SignatureIsNew(db: Database, signature: string)
    requires Keyed(db)
    ensures signature in Signatures(db) <==> GroupFor(db, signature) in db.groups
    ensures signature in Signatures(db) ==> db.groups[GroupFor(db, signature)].signature == signature
  {
    GroupForIsUnique(db, signature);
  }

  lemma FiledView(db: Database, r: ReportId, frames: seq<Frame>, now: int, hash: string -> string, s: string)
    requires Keyed(db) && r in db.reports && s in Signatures(Filed(db, r, frames, now, hash))
    requires Keyed(Filed(db, r, frames, now, hash))
    ensures var v, v' := ViewOf(db), ViewOf(Filed(db, r, frames, now, hash));
            var signature, level := SignatureFor(db.reports[r].fault, frames, hash), db.reports[r].severity;
            var placed := Place(v, GivenOf(db), r, signature, level);
            && s in v'.severity && s in placed.severity && v'.severity[s] == placed.severity[s]
            && s in v'.status && s in placed.status && v'.status[s] == placed.status[s]
  {
    var db' := Filed(db, r, frames, now, hash);
    var h := GroupFor(db', s);
    SignatureIsNew(db', s);
    SignatureIsNew(db, s);
    ViewAt(db', h);
    FiledSignature(db, r, frames, now, hash, h);
    FiledStanding(db, r, frames, now, hash, h);
    if h in db.groups {
      ViewAt(db, h);
    }
    ViewKeys(db);
  }

  lemma FiledPlacement(db: Database, r: ReportId, frames: seq<Frame>, now: int, hash: string -> string, q: ReportId)
    requires Keyed(db) && r in db.reports && q in db.reports
    ensures var db' := Filed(db, r, frames, now, hash);
            q in db'.reports && SignatureAt(db', q) ==
              if q == r then Some(SignatureFor(db.reports[r].fault, frames, hash)) else SignatureAt(db, q)
  {
    var db' := Filed(db, r, frames, now, hash);
    var signature := SignatureFor(db.reports[r].fault, frames, hash);
    FilingByGroup(db, r, frames, now, hash);
    GroupForIsUnique(db, signature);
    var h := db'.reports[q].groupId;
    if h.Some? {
      FiledSignature(db, r, frames, now, hash, h.value);
    }
  }

  ghost function Placed(db: Database, r: ReportId, frames: seq<Frame>, hash: string -> string): View
    requires r in db.reports
  {
    Place(ViewOf(db), GivenOf(db), r, SignatureFor(db.reports[r].fault, frames, hash), db.reports[r].severity)
  }

  lemma PlacedKeys(db: Database, r: ReportId, frames: seq<Frame>, hash: string -> string)
    requires Keyed(db) && r in db.reports
    ensures var v := Placed(db, r, frames, hash);
            var signatures := Signatures(db) + {SignatureFor(db.reports[r].fault, frames, hash)};
            v.severity.Keys == signatures && v.status.Keys == signatures && v.figures.Keys == signatures
  {
    ViewKeys(db);
    PlaceKeys(ViewOf(db), GivenOf(db), r, SignatureFor(db.reports[r].fault, frames, hash), db.reports[r].severity);
  }

  lemma PlaceKeys(v: View, given: map<ReportId, Given>, r: ReportId, signature: string, level: Severity)
    requires r in given
    ensures var placed := Place(v, given, r, signature, level);
            && placed.severity.Keys == v.severity.Keys + {signature}
            && placed.status.Keys == v.status.Keys + {signature}
            && placed.figures.Keys == v.figures.Keys + {signature}
  {
  }

  lemma PlacingKeepsHoused(v: View, given: map<ReportId, Given>, r: ReportId, signature: string, level: Severity)
    requires r in given && Housed(v.placed, v.figures)
    ensures var placed := Place(v, given, r, signature, level);
            Housed(placed.placed, placed.figures)
  {
  }

  lemma FilingPlacesGroups(db: Database, r: ReportId, frames: seq<Frame>, now: int, hash: string -> string)
    requires Keyed(db) && r in db.reports && Keyed(Filed(db, r, frames, now, hash))
    ensures ViewOf(Filed(db, r, frames, now, hash)).severity == Placed(db, r, frames, hash).severity
    ensures ViewOf(Filed(db, r, frames, now, hash)).status == Placed(db, r, frames, hash).status
  {
    var v, v' := ViewOf(Filed(db, r, frames, now, hash)), Placed(db, r, frames, hash);
    var keys := Signatures(Filed(db, r, frames, now, hash));
    FiledSignatures(db, r, frames, now, hash);
    PlacedKeys(db, r, frames, hash);
    ViewKeys(Filed(db, r, frames, now, hash));
    forall s | s in keys ensures v.severity[s] == v'.severity[s] && v.status[s] == v'.status[s] {
      FiledView(db, r, frames, now, hash, s);
    }
    SameMaps(v.severity, v'.severity, v.status, v'.status, keys);
  }

  lemma PlacedMoves(db: Database, r: ReportId, frames: seq<Frame>, hash: string -> string)
    requires r in db.reports
    ensures Placed(db, r, frames, hash).placed ==
            ViewOf(db).placed[r := Some(SignatureFor(db.reports[r].fault, frames, hash))]
  {
    hide ViewOf;
  }

  lemma FilingPlacesReports(db: Database, r: ReportId, frames: seq<Frame>, now: int, hash: string -> string)
    requires Keyed(db) && r in db.reports
    ensures ViewOf(Filed(db, r, frames, now, hash)).placed == Placed(db, r, frames, hash).placed
  {
    hide ViewOf, Placed, Filed, Keyed, SignatureAt, SignatureFor;
    var db' := Filed(db, r, frames, now, hash);
    FilingReports(db, r, frames, now, hash);
    PlacedMoves(db, r, frames, hash);
    PlacedIs(db, ViewOf(db).placed);
    PlacedIs(db', ViewOf(db').placed);
    forall q | q in db.reports ensures q in db'.reports && ViewOf(db').placed[q] == Placed(db, r, frames, hash).placed[q] {
      FiledPlacement(db, r, frames, now, hash, q);
    }
  }

  /** A group's members are the reports placed under its signature. */
  lemma MembersByView(db: Database, h: GroupId)
    requires Keyed(db) && h in db.groups
    ensures var placed, given, s := ViewOf(db).placed, GivenOf(db), db.groups[h].signature;
            && Members(db.reports, h) == PlacedAt(placed, given, s)
            && Devices(db.reports, h) == DevicesAt(placed, given, s)
            && Versions(db.reports, h) == VersionsAt(placed, given, s)
  {
    var placed, given, s := ViewOf(db).placed, GivenOf(db), db.groups[h].signature;
    forall r | r in db.reports ensures r in Members(db.reports, h) <==> r in PlacedAt(placed, given, s) {
      assert placed[r] == SignatureAt(db, r);
    }
    assert Members(db.reports, h) == PlacedAt(placed, given, s);
    assert forall r :: r in Members(db.reports, h) ==> given[r].fault == db.reports[r].fault;
  }

  /** The figures of each kind of group after a filing. */
  lemma FiledFigures(db: Database, r: ReportId, frames: seq<Frame>, now: int, hash: string -> string, h: GroupId)
    requires Keyed(db) && r in db.reports && h in Filed(db, r, frames, now, hash).groups
    ensures var db' := Filed(db, r, frames, now, hash);
            var report, signature := db.reports[r], SignatureFor(db.reports[r].fault, frames, hash);
            var before := if h in db.groups then FiguresOf(db.groups[h]) else NOTHING;
            var after := FiguresOf(db'.groups[h]);
            && (h == GroupFor(db, signature) ==>
                  after == Figures(before.occurrences + if report.groupId == Some(h) then 0 else 1,
                                   |Devices(db'.reports, h)|, before.versions + {report.fault.firmware}))
            && (h != GroupFor(db, signature) && report.groupId == Some(h) ==>
                  after == Figures(|Members(db'.reports, h)|, |Devices(db'.reports, h)|, Versions(db'.reports, h)))
            && (h != GroupFor(db, signature) && report.groupId != Some(h) ==> after == before)
  {
    hide Filed, Members, Devices, Versions, Times, Keyed, GroupFor, SignatureFor;
    FilingByGroup(db, r, frames, now, hash);
  }

  lemma HomeBySignature(db: Database, r: ReportId, h: GroupId)
    requires Keyed(db) && r in db.reports && h in db.groups
    ensures db.reports[r].groupId == Some(h) <==> HomeOf(ViewOf(db).placed, r) == Some(db.groups[h].signature)
  {
  }

  /** The figures the view gives a signature after a filing, by the kind of group it has. */
  lemma PlacedFigures(db: Database, r: ReportId, frames: seq<Frame>, hash: string -> string, s: string)
    requires Keyed(db) && r in db.reports && s in Placed(db, r, frames, hash).figures
    ensures var signature, home := SignatureFor(db.reports[r].fault, frames, hash), HomeOf(ViewOf(db).placed, r);
            var v, placed, given := ViewOf(db), Placed(db, r, frames, hash), GivenOf(db);
            var before := if s in v.figures then v.figures[s] else NOTHING;
            var after := placed.figures[s];
            && (s == signature ==>
                  after == Figures(before.occurrences + if home == Some(s) then 0 else 1,
                                   |DevicesAt(placed.placed, given, s)|, before.versions + {db.reports[r].fault.firmware}))
            && (s != signature && home == Some(s) ==> after == Recount(placed.placed, given, s))
            && (s != signature && home != Some(s) ==> s in v.figures && after == before)
  {
    hide ViewOf, Recount, DevicesAt, Regarded, Worse, Keyed;
  }

  lemma FiledFiguresInView(db: Database, r: ReportId, frames: seq<Frame>, now: int, hash: string -> string, h: GroupId)
    requires Keyed(db) && r in db.reports && h in Filed(db, r, frames, now, hash).groups
    requires Keyed(Filed(db, r, frames, now, hash))
    ensures var placed := Placed(db, r, frames, hash);
            var after := Filed(db, r, frames, now, hash).groups[h];
            after.signature in placed.figures && placed.figures[after.signature] == FiguresOf(after)
  {
    hide Filed, Keyed, ViewOf, Placed, GivenOf, Members, Devices, Versions, PlacedAt, DevicesAt, VersionsAt, GroupFor,
         HomeOf, SignatureFor, FiguresOf;
    var db' := Filed(db, r, frames, now, hash);
    var s := db'.groups[h].signature;
    FiledSignatures(db, r, frames, now, hash);
    PlacedKeys(db, r, frames, hash);
    ViewKeys(db);
    FiledSignature(db, r, frames, now, hash, h);
    FiledFigures(db, r, frames, now, hash, h);
    FilingPlacesReports(db, r, frames, now, hash);
    FilingReports(db, r, frames, now, hash);
    MembersByView(db', h);
    PlacedFigures(db, r, frames, hash, s);
    FiledHome(db, r, frames, now, hash, h);
  }

  /** Identifiers and signatures tell the same of a group before the filing. */
  lemma FiledHome(db: Database, r: ReportId, frames: seq<Frame>, now: int, hash: string -> string, h: GroupId)
    requires Keyed(db) && r in db.reports && h in Filed(db, r, frames, now, hash).groups
    ensures var signature, s := SignatureFor(db.reports[r].fault, frames, hash),
                                Filed(db, r, frames, now, hash).groups[h].signature;
            && (h == GroupFor(db, signature) <==> s == signature)
            && (db.reports[r].groupId == Some(h) <==> HomeOf(ViewOf(db).placed, r) == Some(s))
            && (h in db.groups <==> s in ViewOf(db).figures)
            && (h in db.groups ==> ViewOf(db).figures[s] == FiguresOf(db.groups[h]))
  {
    hide Filed, ViewOf, Keyed, GroupFor, HomeOf, SignatureFor;
    FiledStanding(db, r, frames, now, hash, h);
    FiledSignature(db, r, frames, now, hash, h);
    SignatureIsNew(db, SignatureFor(db.reports[r].fault, frames, hash));
    ViewKeys(db);
    HomeIsKnown(db, r, h);
    if h in db.groups {
      ViewAt(db, h);
      HomeBySignature(db, r, h);
      assert db.groups[h].signature in Signatures(db);
    }
  }

  lemma HomeIsKnown(db: Database, r: ReportId, h: GroupId)
    requires Keyed(db) && r in db.reports
    ensures HomeOf(ViewOf(db).placed, r).Some? ==> HomeOf(ViewOf(db).placed, r).value in Signatures(db)
    ensures h !in db.groups ==> db.reports[r].groupId != Some(h)
  {
  }

  lemma FilingPlacesFigures(db: Database, r: ReportId, frames: seq<Frame>, now: int, hash: string -> string)
    requires Keyed(db) && r in db.reports && Keyed(Filed(db, r, frames, now, hash))
    ensures ViewOf(Filed(db, r, frames, now, hash)).figures == Placed(db, r, frames, hash).figures
  {
    hide Filed, Keyed, Placed, ViewOf;
    var db' := Filed(db, r, frames, now, hash);
    var x, y := ViewOf(db').figures, Placed(db, r, frames, hash).figures;
    FiledSignatures(db, r, frames, now, hash);
    PlacedKeys(db, r, frames, hash);
    ViewKeys(db');
    forall s | s in x ensures s in y && x[s] == y[s] {
      SignatureIsNew(db', s);
      ViewAt(db', GroupFor(db', s));
      FiledFiguresInView(db, r, frames, now, hash, GroupFor(db', s));
    }
  }

  /** A filing acts on the view as placing does, with no regard to identifiers or the clock. */
  lemma FilingPlaces(db: Database, r: ReportId, frames: seq<Frame>, now: int, hash: string -> string)
    requires Keyed(db) && r in db.reports
    ensures ViewOf(Filed(db, r, frames, now, hash)) == Placed(db, r, frames, hash)
    ensures GivenOf(Filed(db, r, frames, now, hash)) == GivenOf(db)
  {
    hide Filed, Keyed, ViewOf, Placed, GivenOf;
    FilingKeepsKeys(db, r, frames, now, hash);
    FilingPlacesGroups(db, r, frames, now, hash);
    FilingPlacesReports(db, r, frames, now, hash);
    FilingPlacesFigures(db, r, frames, now, hash);
    FilingReports(db, r, frames, now, hash);
  }

  lemma SameMaps(a: map<string, Severity>, b: map<string, Severity>,
                 c: map<string, GroupStatus>, d: map<string, GroupStatus>, keys: set<string>)
    requires a.Keys == keys && b.Keys == keys && c.Keys == keys && d.Keys == keys
    requires forall s :: s in keys ==> a[s] == b[s] && c[s] == d[s]
    ensures a == b && c == d
  {
  }

  lemma FilingReports(db: Database, r: ReportId, frames: seq<Frame>, now: int, hash: string -> string)
    requires Keyed(db) && r in db.reports
    ensures Filed(db, r, frames, now, hash).reports.Keys == db.reports.Keys
    ensures GivenOf(Filed(db, r, frames, now, hash)) == GivenOf(db)
  {
    hide Filed, Keyed, SignatureFor, GroupFor, AfterJoining, Recomputed;
    FilingByGroup(db, r, frames, now, hash);
  }

  // ---------------------------------------------------------------------------
  // Batches
  // ---------------------------------------------------------------------------

  /** The signature each report of a batch gets, from the frames its build resolves. */
  function Target(given: map<ReportId, Given>, r: ReportId, frames: ReportId -> seq<Frame>,
                  hash: string -> string): string
    requires r in given
  {
    SignatureFor(given[r].fault, frames(r), hash)
  }

  function PlaceAll(v: View, given: map<ReportId, Given>, batch: seq<ReportId>,
                    frames: ReportId -> seq<Frame>, hash: string -> string): View
  {
    if batch == [] then v
    else PlaceOne(PlaceAll(v, given, batch[..|batch| - 1], frames, hash), given, batch[|batch| - 1], frames, hash)
  }

  function PlaceOne(v: View, given: map<ReportId, Given>, r: ReportId,
                    frames: ReportId -> seq<Frame>, hash: string -> string): View
  {
    if r in given then Place(v, given, r, Target(given, r, frames, hash), given[r].severity) else v
  }

  lemma OnesCommute(v: View, given: map<ReportId, Given>, r: ReportId, q: ReportId,
                    frames: ReportId -> seq<Frame>, hash: string -> string)
    requires Housed(v.placed, v.figures)
    ensures PlaceOne(PlaceOne(v, given, r, frames, hash), given, q, frames, hash) ==
            PlaceOne(PlaceOne(v, given, q, frames, hash), given, r, frames, hash)
  {
    hide Place, Housed;
    if r in given && q in given {
      PlacingCommutes(v, given, r, Target(given, r, frames, hash), given[r].severity,
                      q, Target(given, q, frames, hash), given[q].severity);
    }
  }

  lemma {:induction false} AllHoused(v: View, given: map<ReportId, Given>, batch: seq<ReportId>,
                                     frames: ReportId -> seq<Frame>, hash: string -> string)
    requires Housed(v.placed, v.figures)
    ensures var placed := PlaceAll(v, given, batch, frames, hash);
            Housed(placed.placed, placed.figures)
  {
    hide Housed, Place;
    if batch != [] {
      var n := |batch| - 1;
      AllHoused(v, given, batch[..n], frames, hash);
      if batch[n] in given {
        PlacingKeepsHoused(PlaceAll(v, given, batch[..n], frames, hash), given, batch[n],
                           Target(given, batch[n], frames, hash), given[batch[n]].severity);
      }
    }
  }

  function Without(batch: seq<ReportId>, i: nat): seq<ReportId>
    requires i < |batch|
  {
    batch[..i] + batch[i + 1..]
  }

  lemma {:induction false} MoveToEnd(v: View, given: map<ReportId, Given>, batch: seq<ReportId>, i: nat,
                                     frames: ReportId -> seq<Frame>, hash: string -> string)
    requires i < |batch| && Housed(v.placed, v.figures)
    ensures PlaceAll(v, given, batch, frames, hash) ==
            PlaceOne(PlaceAll(v, given, Without(batch, i), frames, hash), given, batch[i], frames, hash)
  {
    hide PlaceOne, Housed;
    var n := |batch| - 1;
    if i == n {
      assert Without(batch, i) == batch[..n];
    } else {
      var front, rest := batch[..n], Without(batch, i);
      MoveToEnd(v, given, front, i, frames, hash);
      assert rest[..|rest| - 1] == Without(front, i) && rest[|rest| - 1] == batch[n];
      AllHoused(v, given, Without(front, i), frames, hash);
      OnesCommute(PlaceAll(v, given, Without(front, i), frames, hash), given, batch[i], batch[n], frames, hash);
    }
  }

  lemma WithoutMultiset(batch: seq<ReportId>, i: nat)
    requires i < |batch|
    ensures multiset(Without(batch, i)) == multiset(batch) - multiset{batch[i]}
  {
    assert batch == batch[..i] + [batch[i]] + batch[i + 1..];
  }

  lemma {:induction false} OrderIsIrrelevantToTheView(v: View, given: map<ReportId, Given>,
      batch: seq<ReportId>, other: seq<ReportId>, frames: ReportId -> seq<Frame>, hash: string -> string)
    requires multiset(batch) == multiset(other) && Housed(v.placed, v.figures)
    ensures PlaceAll(v, given, batch, frames, hash) == PlaceAll(v, given, other, frames, hash)
    decreases |batch|
  {
    hide PlaceOne, Housed, Without;
    if batch == [] {
      assert |multiset(other)| == 0;
      assert other == [];
    } else {
      var n := |batch| - 1;
      assert batch[n] in multiset(other);
      var i :| 0 <= i < |other| && other[i] == batch[n];
      WithoutMultiset(other, i);
      assert batch == batch[..n] + [batch[n]];
      OrderIsIrrelevantToTheView(v, given, batch[..n], Without(other, i), frames, hash);
      MoveToEnd(v, given, other, i, frames, hash);
    }
  }

  /** The filings of `resymbolicate_for_build`: each report with the frames its build resolves. */
  function Filings(batch: seq<ReportId>, frames: ReportId -> seq<Frame>, nows: seq<int>): (events: seq<Event>)
    requires |batch| == |nows|
    ensures |events| == |batch|
    ensures forall i :: 0 <= i < |batch| ==> events[i] == File(batch[i], frames(batch[i]), nows[i])
  {
    seq(|batch|, i requires 0 <= i < |batch| => File(batch[i], frames(batch[i]), nows[i]))
  }

  lemma {:induction false} RunAppend(db: Database, first: seq<Event>, second: seq<Event>, hash: string -> string)
    ensures Run(db, first + second, hash) == Run(Run(db, first, hash), second, hash)
  {
    if second == [] {
      assert first + second == first;
    } else {
      var n := |second| - 1;
      assert (first + second)[..|first| + n] == first + second[..n];
      RunAppend(db, first, second[..n], hash);
    }
  }

  lemma {:induction false} BatchPlaces(db: Database, batch: seq<ReportId>, frames: ReportId -> seq<Frame>,
                                       nows: seq<int>, hash: string -> string)
    requires Keyed(db) && |batch| == |nows|
    ensures var after := Run(db, Filings(batch, frames, nows), hash);
            && Keyed(after) && GivenOf(after) == GivenOf(db)
            && ViewOf(after) == PlaceAll(ViewOf(db), GivenOf(db), batch, frames, hash)
  {
    if batch != [] {
      var n := |batch| - 1;
      BatchPlaces(db, batch[..n], frames, nows[..n], hash);
      RunFilings(db, batch, frames, nows, hash);
      OneFilingPlaces(Run(db, Filings(batch[..n], frames, nows[..n]), hash), batch[n], frames, nows[n], hash);
    }
  }

  lemma RunFilings(db: Database, batch: seq<ReportId>, frames: ReportId -> seq<Frame>, nows: seq<int>,
                   hash: string -> string)
    requires |batch| == |nows| && batch != []
    ensures var n := |batch| - 1;
            Run(db, Filings(batch, frames, nows), hash) ==
            Filed(Run(db, Filings(batch[..n], frames, nows[..n]), hash), batch[n], frames(batch[n]), nows[n], hash)
  {
    var n := |batch| - 1;
    assert Filings(batch, frames, nows)[..n] == Filings(batch[..n], frames, nows[..n]);
  }

  lemma OneFilingPlaces(db: Database, r: ReportId, frames: ReportId -> seq<Frame>, now: int, hash: string -> string)
    requires Keyed(db)
    ensures var after := Filed(db, r, frames(r), now, hash);
            && Keyed(after) && GivenOf(after) == GivenOf(db)
            && ViewOf(after) == PlaceOne(ViewOf(db), GivenOf(db), r, frames, hash)
  {
    if r in db.reports {
      FilingPlaces(db, r, frames(r), now, hash);
      FilingKeepsKeys(db, r, frames(r), now, hash);
    }
  }

  /** The reports are grouped alike, and groups of one signature show the same figures. */
  ghost predicate SameGrouping(a: Database, b: Database) {
    && a.reports.Keys == b.reports.Keys && Signatures(a) == Signatures(b)
    && (forall r :: r in a.reports ==> SignatureAt(a, r) == SignatureAt(b, r))
    && forall g, h :: g in a.groups && h in b.groups && a.groups[g].signature == b.groups[h].signature ==>
         SameFigures(a.groups[g], b.groups[h])
  }

  ghost predicate SameFigures(a: Group, b: Group) {
    && a.occurrences == b.occurrences && a.devices == b.devices && a.versions == b.versions
    && a.severity == b.severity && a.status == b.status
  }

  lemma SameFiguresAt(a: Database, b: Database, g: GroupId, h: GroupId)
    requires Keyed(a) && Keyed(b) && ViewOf(a) == ViewOf(b)
    requires g in a.groups && h in b.groups && a.groups[g].signature == b.groups[h].signature
    ensures SameFigures(a.groups[g], b.groups[h])
  {
    ViewAt(a, g);
    ViewAt(b, h);
    hide ViewOf;
  }

  lemma SamePartition(a: Database, b: Database)
    requires Keyed(a) && Keyed(b) && ViewOf(a) == ViewOf(b)
    ensures a.reports.Keys == b.reports.Keys && Signatures(a) == Signatures(b)
    ensures forall r :: r in a.reports ==> SignatureAt(a, r) == SignatureAt(b, r)
  {
    ViewKeys(a);
    ViewKeys(b);
    PlacedIs(a, ViewOf(a).placed);
    PlacedIs(b, ViewOf(a).placed);
  }

  lemma PlacedIs(db: Database, placed: map<ReportId, Option<string>>)
    requires placed == ViewOf(db).placed
    ensures placed.Keys == db.reports.Keys
    ensures forall r :: r in db.reports ==> placed[r] == SignatureAt(db, r)
  {
  }

  lemma SameViewSameGrouping(a: Database, b: Database)
    requires Keyed(a) && Keyed(b) && ViewOf(a) == ViewOf(b)
    ensures SameGrouping(a, b)
  {
    SamePartition(a, b);
    forall g, h | g in a.groups && h in b.groups && a.groups[g].signature == b.groups[h].signature
      ensures SameFigures(a.groups[g], b.groups[h])
    {
      SameFiguresAt(a, b, g, h);
    }
  }

  lemma ViewIsHoused(db: Database)
    requires Keyed(db)
    ensures Housed(ViewOf(db).placed, ViewOf(db).figures)
  {
    ViewKeys(db);
  }

  /** Re-symbolicating the same reports in another order gives the same partition, counts,
      devices, versions, severities and statuses, whether the counters were right before or
      not. Only identifiers, clocks and windows may differ. */
  lemma OrderIsIrrelevantFrom(db: Database, batch: seq<ReportId>, other: seq<ReportId>,
                              frames: ReportId -> seq<Frame>, nows: seq<int>, nows': seq<int>, hash: string -> string)
    requires Keyed(db) && multiset(batch) == multiset(other)
    requires |batch| == |nows| && |other| == |nows'|
    ensures SameGrouping(Run(db, Filings(batch, frames, nows), hash), Run(db, Filings(other, frames, nows'), hash))
  {
    BatchPlaces(db, batch, frames, nows, hash);
    BatchPlaces(db, other, frames, nows', hash);
    ViewIsHoused(db);
    OrderIsIrrelevantToTheView(ViewOf(db), GivenOf(db), batch, other, frames, hash);
    SameViewSameGrouping(Run(db, Filings(batch, frames, nows), hash), Run(db, Filings(other, frames, nows'), hash));
  }

  /** The same from every state any run reaches, deletions included. */
  lemma BatchOrderIsIrrelevant(events: seq<Event>, batch: seq<ReportId>, other: seq<ReportId>,
                               frames: ReportId -> seq<Frame>, nows: seq<int>, nows': seq<int>,
                               hash: string -> string)
    requires multiset(batch) == multiset(other) && |batch| == |nows| && |other| == |nows'|
    ensures SameGrouping(Run(EMPTY, events + Filings(batch, frames, nows), hash),
                         Run(EMPTY, events + Filings(other, frames, nows'), hash))
  {
    ReachableIsKeyed(events, hash);
    RunAppend(EMPTY, events, Filings(batch, frames, nows), hash);
    RunAppend(EMPTY, events, Filings(other, frames, nows'), hash);
    OrderIsIrrelevantFrom(Run(EMPTY, events, hash), batch, other, frames, nows, nows', hash);
  }
}
