/** Whether the window of a group tells in which order a batch was re-symbolicated:
    backend/app/services/symbolication.py and repositories/crash.py. */
module WindowOrder {
  import opened Wrappers
  import opened CrashDatabase
  import opened GroupAccounting
  import opened Refiling
  import opened StackAnalyzer

  // ---------------------------------------------------------------------------
  // One group, seen from a batch
  // ---------------------------------------------------------------------------

  datatype Span = Span(first: int, last: int)

  /** The members of a group and, once it exists, its window. */
  datatype Spot = Spot(members: set<ReportId>, window: Option<Span>)

  /** When each report occurred, and which ones the batch would file into this group. */
  datatype Plan = Plan(time: map<ReportId, int>, here: set<ReportId>)

  function TimesOf(plan: Plan, s: set<ReportId>): set<int> {
    set r | r in s && r in plan.time :: plan.time[r]
  }

  function Hull(times: set<int>): Span
    requires times != {}
  {
    Span(Least(times), Greatest(times))
  }

  function Widen(w: Option<Span>, times: set<int>): Option<Span> {
    if times == {} then w
    else if w.None? then Some(Hull(times))
    else Some(Span(if Least(times) < w.value.first then Least(times) else w.value.first,
                   if Greatest(times) > w.value.last then Greatest(times) else w.value.last))
  }

  /** A report filed here widens the window; one filed elsewhere leaves, and whoever remains
      sets the window anew. */
  function Move(p: Spot, plan: Plan, r: ReportId): Spot {
    if r !in plan.time then p
    else if r in plan.here then Spot(p.members + {r}, Widen(p.window, {plan.time[r]}))
    else if r in p.members then
      var remaining := p.members - {r};
      Spot(remaining, if TimesOf(plan, remaining) == {} then p.window else Some(Hull(TimesOf(plan, remaining))))
    else p
  }

  function Moves(p: Spot, plan: Plan, batch: seq<ReportId>): Spot {
    if batch == [] then p
    else Move(Moves(p, plan, batch[..|batch| - 1]), plan, batch[|batch| - 1])
  }

  function Leavers(p: Spot, plan: Plan, batch: seq<ReportId>): set<ReportId> {
    set r | r in batch && r in plan.time && r in p.members && r !in plan.here
  }

  function Joiners(plan: Plan, batch: seq<ReportId>): set<ReportId> {
    set r | r in batch && r in plan.time && r in plan.here
  }

  ghost predicate Known(p: Spot, plan: Plan) {
    && (forall r :: r in p.members ==> r in plan.time)
    && (p.members != {} ==> p.window.Some?)
  }

  // ---------------------------------------------------------------------------
  // Spans
  // ---------------------------------------------------------------------------

  lemma LeastIs(s: set<int>, m: int)
    requires IsLeast(m, s)
    ensures Least(s) == m
  {
  }

  lemma GreatestIs(s: set<int>, m: int)
    requires IsGreatest(m, s)
    ensures Greatest(s) == m
  {
  }

  lemma HullOfOne(t: int)
    ensures Hull({t}) == Span(t, t)
  {
    LeastIs({t}, t);
    GreatestIs({t}, t);
  }

  lemma HullAdd(s: set<int>, t: int)
    requires s != {}
    ensures Widen(Some(Hull(s)), {t}) == Some(Hull(s + {t}))
  {
    HullOfOne(t);
    LeastIs(s + {t}, if t < Least(s) then t else Least(s));
    GreatestIs(s + {t}, if t > Greatest(s) then t else Greatest(s));
  }

  lemma WidenAdd(w: Option<Span>, s: set<int>, t: int)
    ensures Widen(Widen(w, s), {t}) == Widen(w, s + {t})
  {
    if s == {} {
      assert s + {t} == {t};
    } else {
      HullAdd(s, t);
      HullOfOne(t);
    }
  }

  // ---------------------------------------------------------------------------
  // What a batch leaves
  // ---------------------------------------------------------------------------

  lemma {:induction false} MembersAfter(p: Spot, plan: Plan, batch: seq<ReportId>)
    ensures Moves(p, plan, batch).members == p.members - Leavers(p, plan, batch) + Joiners(plan, batch)
  {
    if batch != [] {
      MembersAfter(p, plan, batch[..|batch| - 1]);
      assert forall r :: r in batch <==> r in batch[..|batch| - 1] || r == batch[|batch| - 1];
    }
  }

  /** One filing more: how it bears on leavers and joiners. */
  lemma OneMore(p: Spot, plan: Plan, batch: seq<ReportId>)
    requires batch != []
    ensures var front, r := batch[..|batch| - 1], batch[|batch| - 1];
            && Leavers(p, plan, batch) ==
               (if r in plan.time && r in p.members && r !in plan.here then Leavers(p, plan, front) + {r}
                else Leavers(p, plan, front))
            && Joiners(plan, batch) ==
               (if r in plan.time && r in plan.here then Joiners(plan, front) + {r} else Joiners(plan, front))
  {
    assert forall r :: r in batch <==> r in batch[..|batch| - 1] || r == batch[|batch| - 1];
  }

  lemma TimesOfAdd(plan: Plan, s: set<ReportId>, r: ReportId)
    requires r in plan.time
    ensures TimesOf(plan, s + {r}) == TimesOf(plan, s) + {plan.time[r]}
  {
  }

  /** While nobody leaves, the window widens to everyone filed here. */
  lemma {:induction false} NobodyLeft(p: Spot, plan: Plan, batch: seq<ReportId>)
    requires Leavers(p, plan, batch) == {}
    ensures Moves(p, plan, batch) ==
            Spot(p.members + Joiners(plan, batch), Widen(p.window, TimesOf(plan, Joiners(plan, batch))))
  {
    hide Widen, Leavers, Joiners, TimesOf;
    if batch == [] {
      NoOne(p, plan);
    } else {
      var front, r := batch[..|batch| - 1], batch[|batch| - 1];
      MembersAfter(p, plan, batch);
      OneMore(p, plan, batch);
      assert Leavers(p, plan, front) <= Leavers(p, plan, batch);
      NobodyLeft(p, plan, front);
      if r in plan.time && r in plan.here {
        TimesOfAdd(plan, Joiners(plan, front), r);
        WidenAdd(p.window, TimesOf(plan, Joiners(plan, front)), plan.time[r]);
      } else if r in plan.time && r in p.members + Joiners(plan, front) {
        JoinersAreHere(plan, front, r);
      }
    }
  }

  lemma NoOne(p: Spot, plan: Plan)
    ensures Joiners(plan, []) == {} && Leavers(p, plan, []) == {} && TimesOf(plan, {}) == {}
    ensures Widen(p.window, {}) == p.window
  {
  }

  lemma JoinersAreHere(plan: Plan, batch: seq<ReportId>, r: ReportId)
    ensures r in Joiners(plan, batch) ==> r in plan.here && r in plan.time
  {
  }

  lemma TimesOfSome(plan: Plan, s: set<ReportId>, r: ReportId)
    requires r in s && r in plan.time
    ensures TimesOf(plan, s) != {}
  {
    assert plan.time[r] in TimesOf(plan, s);
  }

  /** Once somebody has left while a member stays, the window is that of the members. */
  lemma {:induction false} SomebodyStays(p: Spot, plan: Plan, batch: seq<ReportId>, stays: ReportId)
    requires Known(p, plan) && Leavers(p, plan, batch) != {}
    requires stays in p.members && stays !in Leavers(p, plan, batch)
    ensures var after := Moves(p, plan, batch);
            && TimesOf(plan, after.members) != {}
            && after.window == Some(Hull(TimesOf(plan, after.members)))
  {
    hide Widen, Hull, Leavers, Joiners, TimesOf;
    if batch == [] {
      NoOne(p, plan);
    } else {
      var front, r := batch[..|batch| - 1], batch[|batch| - 1];
      OneMore(p, plan, batch);
      MembersAfter(p, plan, batch);
      MembersAfter(p, plan, front);
      TimesOfSome(plan, Moves(p, plan, batch).members, stays);
      if Leavers(p, plan, front) != {} {
        SomebodyStays(p, plan, front, stays);
        var members := Moves(p, plan, front).members;
        if r in plan.time && r in plan.here {
          TimesOfAdd(plan, members, r);
          HullAdd(TimesOf(plan, members), plan.time[r]);
        }
      }
    }
  }

  // ---------------------------------------------------------------------------
  // Groups a batch empties
  // ---------------------------------------------------------------------------

  /** The window an emptied group keeps if `l` was the last to leave. */
  function Residue(p: Spot, plan: Plan, l: ReportId): Option<Span>
    requires l in plan.time
  {
    if p.members == {l} then p.window else Some(Span(plan.time[l], plan.time[l]))
  }

  /** Every member left, and `w` is a window some order of the batch ends with. */
  ghost predicate FitsSomeOrder(p: Spot, plan: Plan, batch: seq<ReportId>, w: Option<Span>)
    requires Known(p, plan)
  {
    var joined := TimesOf(plan, Joiners(plan, batch));
    || (joined != {} && w == Some(Hull(joined)))
    || exists l :: l in p.members && w == Widen(Residue(p, plan, l), joined)
  }

  lemma FitsByLast(p: Spot, plan: Plan, batch: seq<ReportId>, l: ReportId)
    requires Known(p, plan) && l in p.members
    ensures FitsSomeOrder(p, plan, batch, Widen(Residue(p, plan, l), TimesOf(plan, Joiners(plan, batch))))
  {
  }

  /** A window that fits some order still fits, once widened, when one more report joins. */
  lemma FitJoins(p: Spot, plan: Plan, batch: seq<ReportId>, w: Option<Span>)
    requires batch != [] && Known(p, plan) && FitsSomeOrder(p, plan, batch[..|batch| - 1], w)
    requires batch[|batch| - 1] in plan.time && batch[|batch| - 1] in plan.here
    ensures FitsSomeOrder(p, plan, batch, Widen(w, {plan.time[batch[|batch| - 1]]}))
  {
    hide Widen, Hull, Residue, Joiners, TimesOf, Leavers;
    var front, r := batch[..|batch| - 1], batch[|batch| - 1];
    var joined := TimesOf(plan, Joiners(plan, front));
    OneMore(p, plan, batch);
    TimesOfAdd(plan, Joiners(plan, front), r);
    if joined != {} && w == Some(Hull(joined)) {
      HullAdd(joined, plan.time[r]);
    } else {
      var l :| l in p.members && w == Widen(Residue(p, plan, l), joined);
      WidenAdd(Residue(p, plan, l), joined, plan.time[r]);
    }
  }

  /** The step that empties a group, or leaves it to those who joined. */
  lemma LastLeaves(p: Spot, plan: Plan, front: seq<ReportId>, l: ReportId)
    requires Known(p, plan) && l in p.members && l !in plan.here
    requires Leavers(p, plan, front) == p.members - {l}
    ensures var before, joined := Moves(p, plan, front), TimesOf(plan, Joiners(plan, front));
            && before.members == {l} + Joiners(plan, front)
            && Move(before, plan, l).window ==
               if joined != {} then Some(Hull(joined)) else Residue(p, plan, l)
  {
    hide Widen, Leavers, Joiners;
    MembersAfter(p, plan, front);
    JoinersAreHere(plan, front, l);
    var before, joiners := Moves(p, plan, front), Joiners(plan, front);
    assert before.members - {l} == joiners;
    if TimesOf(plan, joiners) == {} {
      NoTimesNoJoiners(plan, front);
      if p.members == {l} {
        NobodyLeft(p, plan, front);
        NoOne(p, plan);
      } else {
        SomebodyStays(p, plan, front, l);
        assert before.members == {l};
        assert TimesOf(plan, {l}) == {plan.time[l]};
        HullOfOne(plan.time[l]);
      }
    }
  }

  lemma NoTimesNoJoiners(plan: Plan, batch: seq<ReportId>)
    requires TimesOf(plan, Joiners(plan, batch)) == {}
    ensures Joiners(plan, batch) == {}
  {
    if r :| r in Joiners(plan, batch) {
      TimesOfSome(plan, Joiners(plan, batch), r);
    }
  }

  lemma {:induction false} EverybodyLeft(p: Spot, plan: Plan, batch: seq<ReportId>)
    requires Known(p, plan) && p.members != {} && Leavers(p, plan, batch) == p.members
    ensures FitsSomeOrder(p, plan, batch, Moves(p, plan, batch).window)
  {
    hide Widen, Hull, Residue, Joiners, TimesOf, Leavers, FitsSomeOrder;
    if batch == [] {
      NoOne(p, plan);
    } else {
      var front, r := batch[..|batch| - 1], batch[|batch| - 1];
      OneMore(p, plan, batch);
      MembersAfter(p, plan, front);
      if Leavers(p, plan, front) == p.members {
        EverybodyLeft(p, plan, front);
        JoinersAreHere(plan, front, r);
        if r in plan.time && r in plan.here {
          FitJoins(p, plan, batch, Moves(p, plan, front).window);
        } else {
          FitsAlike(p, plan, front, batch, Moves(p, plan, front).window);
        }
      } else {
        assert Leavers(p, plan, front) == p.members - {r};
        LastLeaves(p, plan, front, r);
        LastFits(p, plan, batch, r);
      }
    }
  }

  lemma FitsAlike(p: Spot, plan: Plan, front: seq<ReportId>, batch: seq<ReportId>, w: Option<Span>)
    requires Known(p, plan) && Joiners(plan, front) == Joiners(plan, batch) && FitsSomeOrder(p, plan, front, w)
    ensures FitsSomeOrder(p, plan, batch, w)
  {
  }

  lemma LastFits(p: Spot, plan: Plan, batch: seq<ReportId>, l: ReportId)
    requires Known(p, plan) && l in p.members
    ensures var joined := TimesOf(plan, Joiners(plan, batch));
            FitsSomeOrder(p, plan, batch, if joined != {} then Some(Hull(joined)) else Residue(p, plan, l))
  {
    NoOne(p, plan);
    FitsByLast(p, plan, batch, l);
  }

  // ---------------------------------------------------------------------------
  // Orders of a batch
  // ---------------------------------------------------------------------------

  predicate Inside(inner: Option<Span>, outer: Span) {
    inner.Some? && outer.first <= inner.value.first && inner.value.last <= outer.last
  }

  /** The condition: nobody leaves, or a member stays, or whatever an emptied group keeps is
      covered by those who join, or, if nobody joins, does not tell who left last. */
  ghost predicate Settled(p: Spot, plan: Plan, batch: seq<ReportId>)
    requires Known(p, plan)
  {
    var leavers, joined := Leavers(p, plan, batch), TimesOf(plan, Joiners(plan, batch));
    || leavers == {}
    || leavers != p.members
    || (if joined == {}
        then forall k, l :: k in p.members && l in p.members ==> Residue(p, plan, k) == Residue(p, plan, l)
        else forall l :: l in p.members ==> Inside(Residue(p, plan, l), Hull(joined)))
  }

  lemma SameElements(p: Spot, plan: Plan, a: seq<ReportId>, b: seq<ReportId>)
    requires multiset(a) == multiset(b)
    ensures Leavers(p, plan, a) == Leavers(p, plan, b) && Joiners(plan, a) == Joiners(plan, b)
  {
    assert forall r :: r in a <==> r in multiset(a);
    assert forall r :: r in b <==> r in multiset(b);
  }

  lemma InsideIsCovered(w: Option<Span>, times: set<int>)
    requires times != {}
    ensures Inside(w, Hull(times)) ==> Widen(w, times) == Some(Hull(times))
    ensures w.Some? && Widen(w, times) == Some(Hull(times)) ==> Inside(w, Hull(times))
  {
  }

  /** In a settled case any two orders end with one window. */
  lemma SettledOrders(p: Spot, plan: Plan, a: seq<ReportId>, b: seq<ReportId>)
    requires Known(p, plan) && Settled(p, plan, a) && multiset(a) == multiset(b)
    ensures Moves(p, plan, a).window == Moves(p, plan, b).window
  {
    hide Widen, Hull, Residue, Joiners, TimesOf, Leavers, Inside;
    SameElements(p, plan, a, b);
    MembersAfter(p, plan, a);
    MembersAfter(p, plan, b);
    if Leavers(p, plan, a) == {} {
      NobodyLeft(p, plan, a);
      NobodyLeft(p, plan, b);
    } else if Leavers(p, plan, a) != p.members {
      LeaversAreMembers(p, plan, a);
      var stays :| stays in p.members && stays !in Leavers(p, plan, a);
      SomebodyStays(p, plan, a, stays);
      SomebodyStays(p, plan, b, stays);
    } else {
      SettledEmptied(p, plan, a);
      SettledEmptied(p, plan, b);
    }
  }

  lemma LeaversAreMembers(p: Spot, plan: Plan, batch: seq<ReportId>)
    ensures Leavers(p, plan, batch) <= p.members
  {
  }

  lemma SettledEmptied(p: Spot, plan: Plan, batch: seq<ReportId>)
    requires Known(p, plan) && p.members != {} && Leavers(p, plan, batch) == p.members && Settled(p, plan, batch)
    ensures var joined := TimesOf(plan, Joiners(plan, batch));
            && (joined != {} ==> Moves(p, plan, batch).window == Some(Hull(joined)))
            && (joined == {} ==>
                  forall l :: l in p.members ==> Moves(p, plan, batch).window == Residue(p, plan, l))
  {
    hide Widen, Hull, Residue, Joiners, TimesOf, Leavers, Inside;
    var joined, w := TimesOf(plan, Joiners(plan, batch)), Moves(p, plan, batch).window;
    EverybodyLeft(p, plan, batch);
    if !(joined != {} && w == Some(Hull(joined))) {
      var l :| l in p.members && w == Widen(Residue(p, plan, l), joined);
      if joined == {} {
        NoOne(Spot({}, Residue(p, plan, l)), plan);
      } else {
        InsideIsCovered(Residue(p, plan, l), joined);
      }
    }
  }

  /** The reports of a batch inside, or outside, a set. */
  function Part(batch: seq<ReportId>, s: set<ReportId>, inside: bool): seq<ReportId> {
    if batch == [] then []
    else Part(batch[..|batch| - 1], s, inside) +
         (if (batch[|batch| - 1] in s) == inside then [batch[|batch| - 1]] else [])
  }

  lemma {:induction false} PartHolds(batch: seq<ReportId>, s: set<ReportId>, inside: bool)
    ensures forall r: ReportId :: r in Part(batch, s, inside) <==> r in batch && (r in s) == inside
  {
    if batch != [] {
      PartHolds(batch[..|batch| - 1], s, inside);
      assert forall r :: r in batch <==> r in batch[..|batch| - 1] || r == batch[|batch| - 1];
    }
  }

  lemma {:induction false} PartsMakeTheBatch(batch: seq<ReportId>, s: set<ReportId>)
    ensures multiset(Part(batch, s, true)) + multiset(Part(batch, s, false)) == multiset(batch)
  {
    hide Part;
    if batch == [] {
      PartStep(batch, s);
    } else {
      var front, r := batch[..|batch| - 1], batch[|batch| - 1];
      PartsMakeTheBatch(front, s);
      PartStep(batch, s);
      assert batch == front + [r];
      OneMoreElement(front, r);
      OneMoreElement(Part(front, s, true), r);
      OneMoreElement(Part(front, s, false), r);
    }
  }

  lemma PartStep(batch: seq<ReportId>, s: set<ReportId>)
    ensures batch == [] ==> Part(batch, s, true) == [] && Part(batch, s, false) == []
    ensures batch != [] ==>
              var front, r := batch[..|batch| - 1], batch[|batch| - 1];
              && Part(batch, s, true) == (if r in s then Part(front, s, true) + [r] else Part(front, s, true))
              && Part(batch, s, false) == (if r in s then Part(front, s, false) else Part(front, s, false) + [r])
  {
  }

  lemma OneMoreElement(a: seq<ReportId>, r: ReportId)
    ensures multiset(a + [r]) == multiset(a) + multiset{r}
  {
  }

  lemma {:induction false} MovesAppend(p: Spot, plan: Plan, a: seq<ReportId>, b: seq<ReportId>)
    ensures Moves(p, plan, a + b) == Moves(Moves(p, plan, a), plan, b)
  {
    hide Move;
    if b == [] {
      assert a + b == a;
    } else {
      assert (a + b)[..|a + b| - 1] == a + b[..|b| - 1];
      MovesAppend(p, plan, a, b[..|b| - 1]);
    }
  }

  lemma PartLeavers(p: Spot, plan: Plan, batch: seq<ReportId>, s: set<ReportId>, inside: bool)
    ensures Leavers(p, plan, Part(batch, s, inside)) ==
            set r | r in Leavers(p, plan, batch) && (r in s) == inside
    ensures Joiners(plan, Part(batch, s, inside)) == set r | r in Joiners(plan, batch) && (r in s) == inside
  {
    PartHolds(batch, s, inside);
  }

  /** A batch less one filing of `l`, with the other leavers apart. */
  lemma LeaversApart(p: Spot, plan: Plan, batch: seq<ReportId>, l: ReportId, i: nat)
    requires Known(p, plan) && l in p.members && Leavers(p, plan, batch) == p.members
    requires i < |batch| && batch[i] == l
    ensures var remaining, others := Without(batch, i), p.members - {l};
            var front, back := Part(remaining, others, true), Part(remaining, others, false);
            && multiset(front + ([l] + back)) == multiset(batch)
            && Joiners(plan, front) == {} && Leavers(p, plan, front) == p.members - {l}
            && Joiners(plan, back) == Joiners(plan, batch)
  {
    hide Part, Leavers, Joiners, Without;
    var remaining, others := Without(batch, i), p.members - {l};
    WithoutHolds(p, plan, batch, i);
    ApartIsTheBatch(batch, i, others);
    PartLeavers(p, plan, remaining, others, true);
    PartLeavers(p, plan, remaining, others, false);
    JoinersArePlanned(plan, remaining);
    LeaversAreReports(p, plan, batch, l);
    AllElsewhere(p, plan, batch);
  }

  lemma ApartIsTheBatch(batch: seq<ReportId>, i: nat, others: set<ReportId>)
    requires i < |batch|
    ensures var remaining := Without(batch, i);
            multiset(Part(remaining, others, true) + ([batch[i]] + Part(remaining, others, false))) == multiset(batch)
  {
    hide Part, Without;
    PartsMakeTheBatch(Without(batch, i), others);
    WithoutMultiset(batch, i);
    var rest := multiset(Without(batch, i));
    assert rest + multiset{batch[i]} == multiset(batch);
    assert multiset([batch[i]]) == multiset{batch[i]};
  }

  lemma WithoutHolds(p: Spot, plan: Plan, batch: seq<ReportId>, i: nat)
    requires i < |batch|
    ensures forall r :: r in Leavers(p, plan, batch) ==> r == batch[i] || r in Leavers(p, plan, Without(batch, i))
    ensures forall r :: r in Leavers(p, plan, Without(batch, i)) ==> r in Leavers(p, plan, batch)
    ensures batch[i] !in plan.here ==> Joiners(plan, Without(batch, i)) == Joiners(plan, batch)
  {
    assert batch == batch[..i] + [batch[i]] + batch[i + 1..];
  }

  lemma AllElsewhere(p: Spot, plan: Plan, batch: seq<ReportId>)
    requires Leavers(p, plan, batch) == p.members
    ensures forall r :: r in p.members ==> r !in plan.here
  {
    assert forall r :: r in p.members ==> r in Leavers(p, plan, batch);
  }

  /** An order in which `l` is the last of all members to leave, and nobody joins before. */
  lemma LastToLeave(p: Spot, plan: Plan, batch: seq<ReportId>, l: ReportId) returns (other: seq<ReportId>)
    requires Known(p, plan) && l in p.members && Leavers(p, plan, batch) == p.members
    ensures multiset(other) == multiset(batch)
    ensures Moves(p, plan, other).window == Widen(Residue(p, plan, l), TimesOf(plan, Joiners(plan, batch)))
  {
    hide Widen, Hull, Residue, TimesOf, Part, Leavers, Joiners, Without, Move;
    LeaversAreReports(p, plan, batch, l);
    var i :| 0 <= i < |batch| && batch[i] == l;
    var remaining, others := Without(batch, i), p.members - {l};
    var front, back := Part(remaining, others, true), Part(remaining, others, false);
    LeaversApart(p, plan, batch, l, i);
    other := front + ([l] + back);
    MovesAppend(p, plan, front, [l] + back);
    MovesAppend(Moves(p, plan, front), plan, [l], back);
    LastOnly(p, plan, front, l);
    LeaversAreMembers(Spot({}, Residue(p, plan, l)), plan, back);
    NobodyLeft(Spot({}, Residue(p, plan, l)), plan, back);
  }

  lemma LeaversAreReports(p: Spot, plan: Plan, batch: seq<ReportId>, l: ReportId)
    requires l in Leavers(p, plan, batch)
    ensures l in batch && l !in plan.here && l in plan.time
  {
  }

  lemma LastOnly(p: Spot, plan: Plan, front: seq<ReportId>, l: ReportId)
    requires Known(p, plan) && l in p.members && l !in plan.here
    requires Leavers(p, plan, front) == p.members - {l} && Joiners(plan, front) == {}
    ensures Moves(Moves(p, plan, front), plan, [l]) == Spot({}, Residue(p, plan, l))
  {
    hide Widen, Hull, Residue, TimesOf, Leavers, Joiners;
    LastLeaves(p, plan, front, l);
    NoOne(p, plan);
    var before := Moves(p, plan, front);
    assert [l][..0] == [];
    assert Moves(before, plan, [l]) == Move(before, plan, l);
    assert before.members == {l};
  }

  /** Joining does not make a leaver. */
  lemma JoinedLeavers(p: Spot, plan: Plan, batch: seq<ReportId>, joiners: set<ReportId>, w: Option<Span>)
    requires joiners <= plan.here
    ensures Leavers(Spot(p.members + joiners, w), plan, batch) == Leavers(p, plan, batch)
  {
  }

  lemma JoinersApart(p: Spot, plan: Plan, batch: seq<ReportId>)
    requires Leavers(p, plan, batch) == p.members
    ensures var front, back := Part(batch, p.members, false), Part(batch, p.members, true);
            && multiset(front + back) == multiset(batch)
            && Leavers(p, plan, front) == {} && Leavers(p, plan, back) == p.members
            && Joiners(plan, front) == Joiners(plan, batch) && Joiners(plan, back) == {}
  {
    PartsMakeTheBatch(batch, p.members);
    PartLeavers(p, plan, batch, p.members, false);
    PartLeavers(p, plan, batch, p.members, true);
    hide Part;
  }

  /** An order in which everyone who joins does so before any member leaves. */
  lemma JoinersFirst(p: Spot, plan: Plan, batch: seq<ReportId>, j: ReportId) returns (other: seq<ReportId>)
    requires Known(p, plan) && p.members != {} && Leavers(p, plan, batch) == p.members
    requires j in Joiners(plan, batch)
    ensures multiset(other) == multiset(batch)
    ensures TimesOf(plan, Joiners(plan, batch)) != {}
    ensures Moves(p, plan, other).window == Some(Hull(TimesOf(plan, Joiners(plan, batch))))
  {
    hide Hull, TimesOf, Part, Leavers, Joiners;
    var front, back, joiners := Part(batch, p.members, false), Part(batch, p.members, true), Joiners(plan, batch);
    JoinersApart(p, plan, batch);
    other := front + back;
    MovesAppend(p, plan, front, back);
    NobodyLeft(p, plan, front);
    var joined := Moves(p, plan, front);
    JoinersArePlanned(plan, batch);
    AllElsewhere(p, plan, batch);
    JoinedLeavers(p, plan, back, joiners, joined.window);
    SomebodyStays(joined, plan, back, j);
    MembersAfter(joined, plan, back);
    assert Moves(joined, plan, back).members == joiners;
  }

  lemma JoinersArePlanned(plan: Plan, batch: seq<ReportId>)
    ensures forall r :: r in Joiners(plan, batch) ==> r in plan.here && r in plan.time
  {
  }

  /** Two orders of an unsettled batch that end with different windows. */
  lemma UnsettledOrders(p: Spot, plan: Plan, batch: seq<ReportId>) returns (a: seq<ReportId>, b: seq<ReportId>)
    requires Known(p, plan) && !Settled(p, plan, batch)
    ensures multiset(a) == multiset(batch) && multiset(b) == multiset(batch)
    ensures Moves(p, plan, a).window != Moves(p, plan, b).window
  {
    hide Widen, Hull, Residue, Joiners, TimesOf, Leavers, Inside;
    var joined := TimesOf(plan, Joiners(plan, batch));
    if joined == {} {
      var k, l :| k in p.members && l in p.members && Residue(p, plan, k) != Residue(p, plan, l);
      a := LastToLeave(p, plan, batch, k);
      b := LastToLeave(p, plan, batch, l);
      NoOne(Spot({}, Residue(p, plan, k)), plan);
      NoOne(Spot({}, Residue(p, plan, l)), plan);
    } else {
      var l :| l in p.members && !Inside(Residue(p, plan, l), Hull(joined));
      var j := SomeJoiner(plan, batch);
      a := LastToLeave(p, plan, batch, l);
      b := JoinersFirst(p, plan, batch, j);
      ResidueExists(p, plan, l);
      InsideIsCovered(Residue(p, plan, l), joined);
    }
  }

  lemma SomeJoiner(plan: Plan, batch: seq<ReportId>) returns (j: ReportId)
    requires TimesOf(plan, Joiners(plan, batch)) != {}
    ensures j in Joiners(plan, batch)
  {
    assert TimesOf(plan, {}) == {};
    j :| j in Joiners(plan, batch);
  }

  lemma ResidueExists(p: Spot, plan: Plan, l: ReportId)
    requires Known(p, plan) && l in p.members
    ensures Residue(p, plan, l).Some?
  {
  }

  // ---------------------------------------------------------------------------
  // The tables
  // ---------------------------------------------------------------------------

  function SpanOf(group: Group): Span { Span(group.firstSeen, group.lastSeen) }

  ghost function WindowAt(db: Database, s: string): Option<Span> {
    if HasSignature(db.groups, s) then Some(SpanOf(db.groups[GroupFor(db, s)])) else None
  }

  ghost function SpotAt(db: Database, s: string): Spot {
    Spot((set r | r in db.reports && SignatureAt(db, r) == Some(s)), WindowAt(db, s))
  }

  function PlanFor(db: Database, frames: ReportId -> seq<Frame>, hash: string -> string, s: string): Plan {
    Plan(map r | r in db.reports :: db.reports[r].fault.occurredAt,
         set r | r in db.reports && SignatureFor(db.reports[r].fault, frames(r), hash) == s)
  }

  lemma WindowOfGroup(db: Database, h: GroupId)
    requires Keyed(db) && h in db.groups
    ensures WindowAt(db, db.groups[h].signature) == Some(SpanOf(db.groups[h]))
  {
    GroupForIsUnique(db, db.groups[h].signature);
  }

  lemma JoinedSpan(group: Group, reports: map<ReportId, Report>, report: Report, g: GroupId, counted: bool, now: int)
    ensures Some(SpanOf(AfterJoining(group, reports, report, g, counted, now))) ==
            Widen(Some(SpanOf(group)), {report.fault.occurredAt})
  {
    HullOfOne(report.fault.occurredAt);
  }

  lemma RecomputedSpan(reports: map<ReportId, Report>, h: GroupId, group: Group)
    ensures SpanOf(Recomputed(reports, h, group)) ==
            if Times(reports, h) == {} then SpanOf(group) else Hull(Times(reports, h))
  {
  }

  lemma FilingMovesMembers(db: Database, r: ReportId, frames: ReportId -> seq<Frame>, now: int,
                           hash: string -> string, s: string)
    requires Keyed(db) && r in db.reports
    ensures SpotAt(Filed(db, r, frames(r), now, hash), s).members ==
            Move(SpotAt(db, s), PlanFor(db, frames, hash, s), r).members
  {
    hide Filed, Keyed, SignatureFor, SignatureAt, WindowAt, Widen, Hull, TimesOf;
    FilingReports(db, r, frames(r), now, hash);
    forall q | q in db.reports
      ensures SignatureAt(Filed(db, r, frames(r), now, hash), q) ==
              if q == r then Some(SignatureFor(db.reports[r].fault, frames(r), hash)) else SignatureAt(db, q)
    {
      FiledPlacement(db, r, frames(r), now, hash, q);
    }
  }

  lemma FilingKeepsThePlan(db: Database, r: ReportId, frames: ReportId -> seq<Frame>, now: int,
                           hash: string -> string, s: string)
    requires Keyed(db) && r in db.reports
    ensures PlanFor(Filed(db, r, frames(r), now, hash), frames, hash, s) == PlanFor(db, frames, hash, s)
  {
    hide Filed, Keyed, SignatureFor;
    var db' := Filed(db, r, frames(r), now, hash);
    FilingReports(db, r, frames(r), now, hash);
    forall q | q in db.reports ensures q in db'.reports && db'.reports[q].fault == db.reports[q].fault {
      assert GivenOf(db')[q] == GivenOf(db)[q];
    }
  }

  /** The times of a group's members, told by identifier and by signature. */
  lemma TimesBySignature(db: Database, h: GroupId, frames: ReportId -> seq<Frame>, hash: string -> string)
    requires Keyed(db) && h in db.groups
    ensures var s := db.groups[h].signature;
            TimesOf(PlanFor(db, frames, hash, s), SpotAt(db, s).members) == Times(db.reports, h)
  {
    hide SignatureFor, WindowAt;
    var members := SpotAt(db, db.groups[h].signature).members;
    assert forall r :: r in members <==> r in Members(db.reports, h);
  }

  lemma NoWindow(db: Database, s: string)
    requires Keyed(db) && s !in Signatures(db)
    ensures WindowAt(db, s) == None
    ensures SpotAt(db, s).members == {}
  {
  }

  lemma SignatureHasGroup(db: Database, s: string) returns (h: GroupId)
    requires s in Signatures(db)
    ensures h in db.groups && db.groups[h].signature == s
  {
    h :| h in db.groups && db.groups[h].signature == s;
  }

  /** What a filing does to the window of each kind of group. */
  lemma FiledSpan(db: Database, r: ReportId, frames: seq<Frame>, now: int, hash: string -> string, h: GroupId)
    requires Keyed(db) && r in db.reports && h in Filed(db, r, frames, now, hash).groups
    ensures var db' := Filed(db, r, frames, now, hash);
            var report, g := db.reports[r], GroupFor(db, SignatureFor(db.reports[r].fault, frames, hash));
            var before := if h in db.groups then Some(SpanOf(db.groups[h])) else None;
            Some(SpanOf(db'.groups[h])) ==
              if h == g then Widen(before, {report.fault.occurredAt})
              else if report.groupId == Some(h) && Times(db'.reports, h) != {} then Some(Hull(Times(db'.reports, h)))
              else before
  {
    hide Filed, Keyed, SignatureFor, Widen, Hull, Times, GroupFor, AfterJoining, Recomputed, SpanOf;
    var db' := Filed(db, r, frames, now, hash);
    var report, signature := db.reports[r], SignatureFor(db.reports[r].fault, frames, hash);
    FilingByGroup(db, r, frames, now, hash);
    if h == GroupFor(db, signature) {
      var group := if h in db.groups then db.groups[h] else NewGroup(report, frames, signature);
      JoinedSpan(group, db'.reports, db'.reports[r], h, report.groupId == Some(h), now);
      NewSpan(report, frames, signature);
    } else if report.groupId == Some(h) {
      RecomputedSpan(db'.reports, h, db.groups[h]);
    }
  }

  lemma NewSpan(report: Report, frames: seq<Frame>, signature: string)
    ensures var t := report.fault.occurredAt;
            Widen(Some(SpanOf(NewGroup(report, frames, signature))), {t}) == Widen(None, {t})
  {
    HullOfOne(report.fault.occurredAt);
  }

  /** The group as the view has it before the filing. */
  lemma SpotBefore(db: Database, r: ReportId, frames: seq<Frame>, now: int, hash: string -> string, h: GroupId)
    requires Keyed(db) && r in db.reports && h in Filed(db, r, frames, now, hash).groups
    ensures var signature, s := SignatureFor(db.reports[r].fault, frames, hash),
                                Filed(db, r, frames, now, hash).groups[h].signature;
            && (h == GroupFor(db, signature) <==> s == signature)
            && (db.reports[r].groupId == Some(h) <==> r in SpotAt(db, s).members)
            && SpotAt(db, s).window == if h in db.groups then Some(SpanOf(db.groups[h])) else None
  {
    hide Filed, Keyed, SignatureFor, GroupFor, SpanOf;
    FiledStanding(db, r, frames, now, hash, h);
    FiledSignature(db, r, frames, now, hash, h);
    SignatureIsNew(db, SignatureFor(db.reports[r].fault, frames, hash));
    if h in db.groups {
      WindowOfGroup(db, h);
      MemberBySignature(db, r, h);
    } else {
      NoWindow(db, SignatureFor(db.reports[r].fault, frames, hash));
      HomeIsKnown(db, r, h);
    }
  }

  lemma MemberBySignature(db: Database, r: ReportId, h: GroupId)
    requires Keyed(db) && r in db.reports && h in db.groups
    ensures db.reports[r].groupId == Some(h) <==> r in SpotAt(db, db.groups[h].signature).members
  {
    hide WindowAt;
  }

  lemma FilingMovesWindow(db: Database, r: ReportId, frames: ReportId -> seq<Frame>, now: int,
                          hash: string -> string, h: GroupId)
    requires Keyed(db) && r in db.reports && h in Filed(db, r, frames(r), now, hash).groups
    ensures var db' := Filed(db, r, frames(r), now, hash);
            var s := db'.groups[h].signature;
            Some(SpanOf(db'.groups[h])) == Move(SpotAt(db, s), PlanFor(db, frames, hash, s), r).window
  {
    hide Filed, Keyed, SignatureFor, Widen, Hull, TimesOf, Times, GroupFor, SpanOf, SpotAt;
    var db' := Filed(db, r, frames(r), now, hash);
    var s := db'.groups[h].signature;
    FiledSpan(db, r, frames(r), now, hash, h);
    SpotBefore(db, r, frames(r), now, hash, h);
    FilingKeepsKeys(db, r, frames(r), now, hash);
    FilingMovesMembers(db, r, frames, now, hash, s);
    FilingKeepsThePlan(db, r, frames, now, hash, s);
    TimesBySignature(db', h, frames, hash);
  }

  lemma FilingMovesSpot(db: Database, r: ReportId, frames: ReportId -> seq<Frame>, now: int,
                        hash: string -> string, s: string)
    requires Keyed(db) && r in db.reports
    ensures SpotAt(Filed(db, r, frames(r), now, hash), s) == Move(SpotAt(db, s), PlanFor(db, frames, hash, s), r)
  {
    hide Filed, Keyed, SignatureFor, Widen, Hull, TimesOf, WindowAt, GroupFor, SpanOf, Signatures;
    var db' := Filed(db, r, frames(r), now, hash);
    FilingKeepsKeys(db, r, frames(r), now, hash);
    FilingMovesMembers(db, r, frames, now, hash, s);
    FiledSignatures(db, r, frames(r), now, hash);
    if s in Signatures(db') {
      var h := SignatureHasGroup(db', s);
      WindowOfGroup(db', h);
      FilingMovesWindow(db, r, frames, now, hash, h);
    } else {
      NoWindow(db', s);
      NoWindow(db, s);
    }
  }

  lemma SpotIsKnown(db: Database, frames: ReportId -> seq<Frame>, hash: string -> string, s: string)
    requires Keyed(db)
    ensures Known(SpotAt(db, s), PlanFor(db, frames, hash, s))
  {
  }

  lemma OneFilingMoves(db: Database, r: ReportId, frames: ReportId -> seq<Frame>, now: int,
                       hash: string -> string, s: string)
    requires Keyed(db)
    ensures var after, plan := Filed(db, r, frames(r), now, hash), PlanFor(db, frames, hash, s);
            && Keyed(after) && PlanFor(after, frames, hash, s) == plan
            && SpotAt(after, s) == Move(SpotAt(db, s), plan, r)
  {
    hide Keyed, SpotAt, SignatureFor, Widen, Hull, TimesOf;
    if r in db.reports {
      FilingKeepsKeys(db, r, frames(r), now, hash);
      FilingKeepsThePlan(db, r, frames, now, hash, s);
      FilingMovesSpot(db, r, frames, now, hash, s);
    }
  }

  /** A batch acts on one group as the moves do. */
  lemma {:induction false} BatchMoves(db: Database, batch: seq<ReportId>, frames: ReportId -> seq<Frame>,
                                      nows: seq<int>, hash: string -> string, s: string)
    requires Keyed(db) && |batch| == |nows|
    ensures var after, plan := Run(db, Filings(batch, frames, nows), hash), PlanFor(db, frames, hash, s);
            && Keyed(after) && PlanFor(after, frames, hash, s) == plan
            && SpotAt(after, s) == Moves(SpotAt(db, s), plan, batch)
  {
    hide Keyed, SpotAt, PlanFor, Move, Filed;
    if batch != [] {
      var n := |batch| - 1;
      BatchMoves(db, batch[..n], frames, nows[..n], hash, s);
      RunFilings(db, batch, frames, nows, hash);
      OneFilingMoves(Run(db, Filings(batch[..n], frames, nows[..n]), hash), batch[n], frames, nows[n], hash, s);
    }
  }

  /** The window of a signature's group after a re-symbolication is the same for every order
      of the reports exactly if nobody leaves the group, or some member stays, or whatever the
      group keeps once it is empty is covered by the reports that join it, or does not tell
      who left last. */
  lemma BatchOrderLeavesTheWindowIff(db: Database, batch: seq<ReportId>, nows: seq<int>,
                                     frames: ReportId -> seq<Frame>, hash: string -> string, s: string)
    requires Keyed(db) && |batch| == |nows|
    ensures Known(SpotAt(db, s), PlanFor(db, frames, hash, s))
    ensures Settled(SpotAt(db, s), PlanFor(db, frames, hash, s), batch) <==>
            forall other: seq<ReportId>, nows': seq<int> |
              multiset(other) == multiset(batch) && |other| == |nows'| ::
              WindowAt(Run(db, Filings(other, frames, nows'), hash), s) ==
              WindowAt(Run(db, Filings(batch, frames, nows), hash), s)
  {
    hide Settled, Moves, Keyed, Known, PlanFor, WindowAt;
    var p, plan := SpotAt(db, s), PlanFor(db, frames, hash, s);
    SpotIsKnown(db, frames, hash, s);
    BatchMoves(db, batch, frames, nows, hash, s);
    if Settled(p, plan, batch) {
      forall other: seq<ReportId>, nows': seq<int> | multiset(other) == multiset(batch) && |other| == |nows'|
        ensures WindowAt(Run(db, Filings(other, frames, nows'), hash), s) ==
                WindowAt(Run(db, Filings(batch, frames, nows), hash), s)
      {
        BatchMoves(db, other, frames, nows', hash, s);
        SettledOrders(p, plan, batch, other);
      }
    } else {
      var a, b := UnsettledOrders(p, plan, batch);
      SameLength(a, batch);
      SameLength(b, batch);
      BatchMoves(db, a, frames, nows, hash, s);
      BatchMoves(db, b, frames, nows, hash, s);
    }
  }

  lemma SameLength(a: seq<ReportId>, b: seq<ReportId>)
    requires multiset(a) == multiset(b)
    ensures |a| == |b|
  {
    assert |multiset(a)| == |a| && |multiset(b)| == |b|;
  }

  /** Two members from different times that both leave are enough, if nobody joins. */
  lemma SwappedOutIsUnsettled(p: Spot, plan: Plan, batch: seq<ReportId>, q: ReportId, r: ReportId)
    requires Known(p, plan) && Leavers(p, plan, batch) == p.members && Joiners(plan, batch) == {}
    requires q in p.members && r in p.members && plan.time[q] != plan.time[r]
    ensures !Settled(p, plan, batch)
  {
    assert q != r;
    assert p.members != {q} && p.members != {r};
    assert Residue(p, plan, q) != Residue(p, plan, r);
  }

  /** Where a batch moves every member elsewhere, the window tells which of them moved last. */
  lemma EmptiedGroupTellsTheOrder(db: Database, batch: seq<ReportId>, nows: seq<int>,
                                  frames: ReportId -> seq<Frame>, hash: string -> string, h: GroupId,
                                  q: ReportId, r: ReportId)
    requires Keyed(db) && |batch| == |nows| && h in db.groups
    requires forall m :: m in Members(db.reports, h) ==> m in batch
    requires forall m :: m in batch && m in db.reports ==>
               SignatureFor(db.reports[m].fault, frames(m), hash) != db.groups[h].signature
    requires q in Members(db.reports, h) && r in Members(db.reports, h)
    requires db.reports[q].fault.occurredAt != db.reports[r].fault.occurredAt
    ensures exists other: seq<ReportId>, nows': seq<int> ::
              && multiset(other) == multiset(batch) && |other| == |nows'|
              && WindowAt(Run(db, Filings(other, frames, nows'), hash), db.groups[h].signature) !=
                 WindowAt(Run(db, Filings(batch, frames, nows), hash), db.groups[h].signature)
  {
    hide Settled, WindowAt, SignatureFor;
    var s := db.groups[h].signature;
    var p, plan := SpotAt(db, s), PlanFor(db, frames, hash, s);
    assert Members(db.reports, h) == p.members;
    assert Leavers(p, plan, batch) == p.members;
    assert Joiners(plan, batch) == {};
    hide Keyed;
    BatchOrderLeavesTheWindowIff(db, batch, nows, frames, hash, s);
    SwappedOutIsUnsettled(p, plan, batch, q, r);
  }
}
