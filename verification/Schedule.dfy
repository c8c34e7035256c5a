/** What a run of the timers does, as a function of the deadlines and periods it starts from. */
module TimerSchedule {

  /** A timer as a run sees it. */
  datatype Entry<T> = Entry(id: T, deadline: nat, period: nat, periodic: bool)

  /** A callback made by a run, and the deadline it was made for. */
  datatype Firing<T> = Firing(timer: T, deadline: nat)

  function Later<T>(e: Entry<T>): Entry<T> { e.(deadline := e.deadline + e.period) }

  function FiringOf<T>(e: Entry<T>): Firing<T> { Firing(e.id, e.deadline) }

  /** Put in after every entry due no later. */
  function Placed<T>(q: seq<Entry<T>>, e: Entry<T>): seq<Entry<T>> {
    if q == [] || e.deadline < q[0].deadline then [e] + q else [q[0]] + Placed(q[1..], e)
  }

  predicate Due<T>(q: seq<Entry<T>>, now: nat) { q != [] && q[0].deadline <= now }

  ghost predicate Advancing<T>(q: seq<Entry<T>>) {
    forall i :: 0 <= i < |q| && q[i].periodic ==> q[i].period > 0
  }

  /** The queue after its first entry has fired. */
  function Fired<T>(q: seq<Entry<T>>): seq<Entry<T>>
    requires q != []
  {
    if q[0].periodic then Placed(q[1..], Later(q[0])) else q[1..]
  }

  /** How much there is to do up to `now`. */
  function Load<T>(q: seq<Entry<T>>, now: nat): nat {
    if q == [] then 0 else LoadOf(q[0], now) + Load(q[1..], now)
  }

  function LoadOf<T>(e: Entry<T>, now: nat): nat { if e.deadline <= now then now - e.deadline + 1 else 0 }

  lemma {:induction false} PlacedLoad<T>(q: seq<Entry<T>>, e: Entry<T>, now: nat)
    ensures Load(Placed(q, e), now) == Load(q, now) + LoadOf(e, now)
  {
    if q == [] || e.deadline < q[0].deadline {
      assert ([e] + q)[1..] == q;
    } else {
      PlacedLoad(q[1..], e, now);
      assert ([q[0]] + Placed(q[1..], e))[1..] == Placed(q[1..], e);
    }
  }

  lemma {:induction false} PlacedMembers<T>(q: seq<Entry<T>>, e: Entry<T>)
    ensures forall f :: f in Placed(q, e) <==> f in q || f == e
  {
    if !(q == [] || e.deadline < q[0].deadline) {
      PlacedMembers(q[1..], e);
      assert q == [q[0]] + q[1..];
    }
  }

  lemma FiredLoad<T>(q: seq<Entry<T>>, now: nat)
    requires Due(q, now) && Advancing(q)
    ensures Load(Fired(q), now) < Load(q, now) && Advancing(Fired(q))
    ensures Load(q[1..], now) < Load(q, now) && Advancing(q[1..])
  {
    PlacedLoad(q[1..], Later(q[0]), now);
    if q[0].periodic {
      PlacedAdvances(q[1..], Later(q[0]));
    }
    hide Placed;
  }

  lemma {:induction false} PlacedAdvances<T>(q: seq<Entry<T>>, e: Entry<T>)
    requires Advancing(q) && (e.periodic ==> e.period > 0)
    ensures Advancing(Placed(q, e))
  {
    if !(q == [] || e.deadline < q[0].deadline) {
      PlacedAdvances(q[1..], e);
    }
  }

  /** All firings up to `now` in order of their deadlines, as if the earliest timer always fired next. */
  ghost function Schedule<T>(q: seq<Entry<T>>, now: nat): seq<Firing<T>>
    requires Advancing(q)
    decreases Load(q, now)
  {
    if !Due(q, now) then []
    else
      FiredLoad(q, now);
      [FiringOf(q[0])] + Schedule(Fired(q), now)
  }

  /** The first timer goes back in front of the next one, where the walk has passed. */
  predicate Parks<T>(q: seq<Entry<T>>)
    requires q != []
  {
    q[0].periodic && (|q| == 1 || Later(q[0]).deadline < q[1].deadline)
  }

  /** What lies ahead of the walk after its first timer has fired. */
  function Ahead<T>(q: seq<Entry<T>>): seq<Entry<T>>
    requires q != []
  {
    if Parks(q) then q[1..] else Fired(q)
  }

  /** The firings of a walk over the queue. */
  ghost function Walk<T>(q: seq<Entry<T>>, now: nat): seq<Firing<T>>
    requires Advancing(q)
    decreases Load(q, now)
  {
    if !Due(q, now) then []
    else
      FiredLoad(q, now);
      [FiringOf(q[0])] + Walk(Ahead(q), now)
  }

  /** The walk leaves no timer behind that is due. */
  ghost predicate Clean<T>(q: seq<Entry<T>>, now: nat)
    requires Advancing(q)
    decreases Load(q, now)
  {
    !Due(q, now) ||
    (FiredLoad(q, now);
     (Parks(q) ==> Later(q[0]).deadline > now) && Clean(Ahead(q), now))
  }

  ghost predicate DistinctIds<T>(q: seq<Entry<T>>) {
    forall i, j :: 0 <= i < j < |q| ==> q[i].id != q[j].id
  }

  /** No timer comes twice in a row. */
  ghost predicate Alternates<T>(s: seq<Firing<T>>) {
    forall i :: 0 <= i < |s| - 1 ==> s[i].timer != s[i + 1].timer
  }

  lemma FiredIds<T>(q: seq<Entry<T>>)
    requires q != [] && DistinctIds(q)
    ensures DistinctIds(q[1..]) && DistinctIds(Fired(q))
    ensures forall f :: f in q[1..] ==> f.id != q[0].id
  {
    if q[0].periodic {
      PlacedIds(q[1..], Later(q[0]));
    }
  }

  lemma {:induction false} PlacedIds<T>(q: seq<Entry<T>>, e: Entry<T>)
    requires DistinctIds(q) && forall i :: 0 <= i < |q| ==> q[i].id != e.id
    ensures DistinctIds(Placed(q, e))
  {
    if !(q == [] || e.deadline < q[0].deadline) {
      PlacedIds(q[1..], e);
      PlacedMembers(q[1..], e);
      hide Placed;
      assert forall f :: f in q[1..] ==> f.id != q[0].id;
    }
  }

  lemma ScheduleHead<T>(q: seq<Entry<T>>, now: nat)
    requires Advancing(q)
    ensures Schedule(q, now) != [] <==> Due(q, now)
    ensures Due(q, now) ==> Schedule(q, now)[0] == FiringOf(q[0])
    ensures Walk(q, now) != [] <==> Due(q, now)
    ensures Due(q, now) ==> Walk(q, now)[0] == FiringOf(q[0])
  {
  }

  lemma AlternatesNext<T>(f: Firing<T>, s: seq<Firing<T>>)
    ensures Alternates([f] + s) <==> Alternates(s) && (s != [] ==> f.timer != s[0].timer)
  {
    var r := [f] + s;
    assert forall i :: 0 < i < |r| ==> r[i] == s[i - 1];
    if Alternates(r) {
      forall i | 0 <= i < |s| - 1 ensures s[i].timer != s[i + 1].timer {
        assert s[i] == r[i + 1] && s[i + 1] == r[i + 2];
      }
      if s != [] { assert r[0].timer != r[1].timer; }
    }
    if Alternates(s) && (s != [] ==> f.timer != s[0].timer) {
      forall i | 0 <= i < |r| - 1 ensures r[i].timer != r[i + 1].timer {
        if i > 0 { assert r[i] == s[i - 1] && r[i + 1] == s[i - 1 + 1]; }
      }
    }
  }

  /**
   * A walk leaves nothing due behind if and only if no timer comes twice in a row in the schedule,
   * and if and only if it makes every firing of the schedule, in that order.
   */
  lemma {:induction false} CleanWalks<T>(q: seq<Entry<T>>, now: nat)
    requires Advancing(q) && DistinctIds(q)
    ensures Clean(q, now) <==> Alternates(Schedule(q, now))
    ensures Clean(q, now) <==> Walk(q, now) == Schedule(q, now)
    decreases Load(q, now)
  {
    if Due(q, now) {
      FiredLoad(q, now);
      FiredIds(q);
      var rest := Fired(q);
      ScheduleHead(rest, now);
      ScheduleHead(q[1..], now);
      AlternatesNext(FiringOf(q[0]), Schedule(rest, now));
      if Parks(q) {
        ParkedFirst(q);
        hide Fired, Placed;
        if Later(q[0]).deadline <= now {
          assert Walk(q, now)[1..] == Walk(q[1..], now) && Schedule(q, now)[1..] == Schedule(rest, now);
          assert Schedule(rest, now)[0].timer == q[0].id;
        }
      } else {
        NextFirst(q);
        CleanWalks(rest, now);
        hide Fired, Placed;
        assert Walk(q, now)[1..] == Walk(rest, now) && Schedule(q, now)[1..] == Schedule(rest, now);
      }
    }
  }

  lemma ParkedFirst<T>(q: seq<Entry<T>>)
    requires q != [] && Parks(q)
    ensures Fired(q) != [] && Fired(q)[0] == Later(q[0])
  {
  }

  lemma NextFirst<T>(q: seq<Entry<T>>)
    requires q != [] && !Parks(q)
    ensures Fired(q) == [] <==> q[1..] == []
    ensures q[1..] != [] ==> Fired(q)[0] == q[1]
  {
  }

  // ---------------------------------------------------------------------------------------------
  // The schedule is the ordered list of all grid points

  /** The deadlines a timer has, one period after the other. */
  ghost predicate GridPoint<T>(e: Entry<T>, deadline: nat) {
    if e.periodic then exists k: nat :: deadline == e.deadline + k * e.period else deadline == e.deadline
  }

  ghost predicate Scheduled<T>(q: seq<Entry<T>>, f: Firing<T>) {
    exists i :: 0 <= i < |q| && q[i].id == f.timer && GridPoint(q[i], f.deadline)
  }

  ghost predicate ByDeadline<T>(q: seq<Entry<T>>) {
    forall i, j :: 0 <= i < j < |q| ==> q[i].deadline <= q[j].deadline
  }

  /** One firing takes one point off the grid. */
  lemma GridStep<T>(e: Entry<T>, deadline: nat)
    requires e.periodic
    ensures GridPoint(e, deadline) <==> deadline == e.deadline || GridPoint(Later(e), deadline)
  {
    if GridPoint(e, deadline) {
      var k: nat :| deadline == e.deadline + k * e.period;
      if k > 0 {
        assert deadline == Later(e).deadline + (k - 1) * e.period;
      }
    }
    if deadline == e.deadline {
      assert deadline == e.deadline + 0 * e.period;
    } else if GridPoint(Later(e), deadline) {
      var k: nat :| deadline == Later(e).deadline + k * e.period;
      assert deadline == e.deadline + (k + 1) * e.period;
    }
  }

  lemma GridIsLater<T>(e: Entry<T>, deadline: nat)
    requires GridPoint(e, deadline)
    ensures deadline >= e.deadline
  {
    if e.periodic {
      var k: nat :| deadline == e.deadline + k * e.period;
      assert k * e.period >= 0;
    }
  }

  lemma {:induction false} PlacedByDeadline<T>(q: seq<Entry<T>>, e: Entry<T>)
    requires ByDeadline(q)
    ensures ByDeadline(Placed(q, e)) && Placed(q, e) != []
    ensures Placed(q, e)[0].deadline == if q != [] && q[0].deadline <= e.deadline then q[0].deadline else e.deadline
  {
    if !(q == [] || e.deadline < q[0].deadline) {
      PlacedByDeadline(q[1..], e);
    }
  }

  lemma {:induction false} PlacedScheduled<T>(q: seq<Entry<T>>, e: Entry<T>, f: Firing<T>)
    ensures Scheduled(Placed(q, e), f) <==> Scheduled(q, f) || (e.id == f.timer && GridPoint(e, f.deadline))
  {
    hide GridPoint;
    if q == [] || e.deadline < q[0].deadline {
      SplitScheduled(e, q, f);
    } else {
      PlacedScheduled(q[1..], e, f);
      SplitScheduled(q[0], Placed(q[1..], e), f);
      SplitScheduled(q[0], q[1..], f);
      assert q == [q[0]] + q[1..];
    }
  }

  lemma SplitScheduled<T>(e: Entry<T>, q: seq<Entry<T>>, f: Firing<T>)
    ensures Scheduled([e] + q, f) <==> Scheduled(q, f) || (e.id == f.timer && GridPoint(e, f.deadline))
  {
    hide GridPoint;
    var r := [e] + q;
    if Scheduled(q, f) {
      var i :| 0 <= i < |q| && q[i].id == f.timer && GridPoint(q[i], f.deadline);
      assert r[i + 1] == q[i];
    }
    if e.id == f.timer && GridPoint(e, f.deadline) {
      assert r[0] == e;
    }
    if Scheduled(r, f) {
      var i :| 0 <= i < |r| && r[i].id == f.timer && GridPoint(r[i], f.deadline);
      if i > 0 { assert q[i - 1] == r[i]; }
    }
  }

  lemma FiredScheduled<T>(q: seq<Entry<T>>, f: Firing<T>)
    requires q != []
    ensures Scheduled(q, f) <==> Scheduled(Fired(q), f) || f == FiringOf(q[0])
  {
    assert q == [q[0]] + q[1..];
    SplitScheduled(q[0], q[1..], f);
    if q[0].periodic {
      PlacedScheduled(q[1..], Later(q[0]), f);
      GridStep(q[0], f.deadline);
    }
    hide Scheduled, Placed;
  }

  /** Exactly the grid points up to `now` are scheduled. */
  lemma {:induction false} ScheduleIsGrid<T>(q: seq<Entry<T>>, now: nat, f: Firing<T>)
    requires Advancing(q) && ByDeadline(q)
    ensures f in Schedule(q, now) <==> f.deadline <= now && Scheduled(q, f)
    decreases Load(q, now)
  {
    if Due(q, now) {
      FiredLoad(q, now);
      if q[0].periodic { PlacedByDeadline(q[1..], Later(q[0])); }
      ScheduleIsGrid(Fired(q), now, f);
      FiredScheduled(q, f);
      hide Fired, Scheduled;
    } else if Scheduled(q, f) {
      NoneScheduled(q, now, f);
    }
  }

  lemma NoneScheduled<T>(q: seq<Entry<T>>, now: nat, f: Firing<T>)
    requires !Due(q, now) && ByDeadline(q) && Scheduled(q, f)
    ensures f.deadline > now
  {
    var i :| 0 <= i < |q| && q[i].id == f.timer && GridPoint(q[i], f.deadline);
    GridIsLater(q[i], f.deadline);
    hide GridPoint;
  }

  /** The schedule is in order of deadlines and holds no point twice. */
  lemma {:induction false} ScheduleIsOrdered<T>(q: seq<Entry<T>>, now: nat)
    requires Advancing(q) && ByDeadline(q) && DistinctIds(q)
    ensures forall i, j :: 0 <= i < j < |Schedule(q, now)| ==>
      Schedule(q, now)[i].deadline <= Schedule(q, now)[j].deadline && Schedule(q, now)[i] != Schedule(q, now)[j]
    decreases Load(q, now)
  {
    if Due(q, now) {
      FiredLoad(q, now);
      FiredIds(q);
      var rest, s := Fired(q), Schedule(Fired(q), now);
      if q[0].periodic { PlacedByDeadline(q[1..], Later(q[0])); }
      ScheduleIsOrdered(rest, now);
      forall j | 0 <= j < |s| ensures q[0].deadline <= s[j].deadline && s[j] != FiringOf(q[0]) {
        ScheduleIsGrid(rest, now, s[j]);
        RestIsLater(q, s[j]);
      }
      hide Fired, Scheduled;
      assert Schedule(q, now) == [FiringOf(q[0])] + s;
    }
  }

  /** What is scheduled after the first firing is later, or another timer's. */
  lemma RestIsLater<T>(q: seq<Entry<T>>, f: Firing<T>)
    requires q != [] && Advancing(q) && ByDeadline(q) && DistinctIds(q) && Scheduled(Fired(q), f)
    ensures q[0].deadline <= f.deadline && f != FiringOf(q[0])
  {
    if q[0].periodic {
      PlacedScheduled(q[1..], Later(q[0]), f);
    }
    hide Placed;
    if Scheduled(q[1..], f) {
      var i :| 0 <= i < |q[1..]| && q[1..][i].id == f.timer && GridPoint(q[1..][i], f.deadline);
      assert q[1..][i] == q[i + 1];
      GridIsLater(q[i + 1], f.deadline);
    } else {
      GridIsLater(Later(q[0]), f.deadline);
    }
  }

  /** Enough: no periodic timer has two of its deadlines up to `now`. */
  lemma {:induction false} ShortRunsAreClean<T>(q: seq<Entry<T>>, now: nat)
    requires Advancing(q) && forall i :: 0 <= i < |q| && q[i].periodic ==> Later(q[i]).deadline > now
    ensures Clean(q, now)
    decreases Load(q, now)
  {
    if Due(q, now) {
      FiredLoad(q, now);
      if q[0].periodic { PlacedKeepsLater(q[1..], Later(q[0]), now); }
      ShortRunsAreClean(Ahead(q), now);
    }
  }

  lemma {:induction false} PlacedKeepsLater<T>(q: seq<Entry<T>>, e: Entry<T>, now: nat)
    requires forall i :: 0 <= i < |q| && q[i].periodic ==> Later(q[i]).deadline > now
    requires Later(e).deadline > now
    ensures forall i :: 0 <= i < |Placed(q, e)| && Placed(q, e)[i].periodic ==> Later(Placed(q, e)[i]).deadline > now
  {
    if !(q == [] || e.deadline < q[0].deadline) {
      PlacedKeepsLater(q[1..], e, now);
    }
  }

  /** A timer with period 1 that is ten microseconds late, alone in the queue: it fires once and stays due. */
  lemma LoneTimerStaysDue<T>(id: T)
    ensures var q := [Entry(id, 0, 1, true)];
      Advancing(q) && Walk(q, 10) == [Firing(id, 0)] && !Clean(q, 10) && Firing(id, 1) in Schedule(q, 10)
  {
    var q := [Entry(id, 0, 1, true)];
    assert q[1..] == [] && Parks(q);
    assert Walk(q[1..], 10) == [];
    FiredLoad(q, 10);
    ScheduleHead(Fired(q), 10);
    assert Fired(q)[0] == Later(q[0]);
  }
}
