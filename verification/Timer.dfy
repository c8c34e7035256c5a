/** The timer queue: a sorted doubly linked list of active timers and a free list. */
module TimerQueue {
  import opened Bytes
  import opened Sequences
  import opened IperfTime
  import S = TimerSchedule

  class Timer {
    var time: Time
    var usecs: nat
    var periodic: bool
    var prev: Timer?
    var next: Timer?
    /** When the timer was created or last reset, and how many periods have passed since. */
    ghost var epoch: nat
    ghost var turns: nat

    constructor ()
    {
      time := Time(0, 0);
    }

    /** Due one period from now. */
    method Start(now: Time, usecs: nat, periodic: bool)
      requires Normal(now) && InUsecs(now) + usecs < HORIZON
      modifies this`time, this`usecs, this`periodic, this`epoch, this`turns
      ensures Normal(time) && InUsecs(time) == InUsecs(now) + usecs
      ensures this.usecs == usecs && this.periodic == periodic && epoch == InUsecs(now) && turns == 0
    {
      this.usecs := usecs;
      this.periodic := periodic;
      Restart(now);
    }

    /** The period starts anew. */
    method Restart(now: Time)
      requires Normal(now) && InUsecs(now) + usecs < HORIZON
      modifies this`time, this`epoch, this`turns
      ensures Normal(time) && InUsecs(time) == InUsecs(now) + usecs && epoch == InUsecs(now) && turns == 0
    {
      time := AddUsecs(now, usecs);
      epoch, turns := InUsecs(now), 0;
      AddIsModular(now, usecs);
      AddIsExact(now, usecs);
      hide AddUsecs;
    }

    /** Due one period later than before. */
    method Advance()
      requires Normal(time) && InUsecs(time) + usecs < HORIZON && OnGrid(this)
      modifies this`time, this`turns
      ensures Normal(time) && InUsecs(time) == old(InUsecs(time)) + usecs
      ensures turns == old(turns) + 1 && OnGrid(this)
    {
      AddIsModular(time, usecs);
      AddIsExact(time, usecs);
      OneMoreTurn(turns, usecs);
      time := AddUsecs(time, usecs);
      turns := turns + 1;
      hide AddUsecs;
    }
  }

  lemma OneMoreTurn(turns: nat, usecs: nat)
    ensures (turns + 1) * usecs + usecs == (turns + 2) * usecs
  {
  }

  function Nth(s: seq<Timer>, i: int): Timer? { if 0 <= i < |s| then s[i] else null }

  /** Deadline in microseconds. */
  function Deadline(t: Timer): nat
    reads t`time
  {
    InUsecs(t.time)
  }

  /** Doubly linked in this order, with null at both ends. */
  ghost predicate Linked(s: seq<Timer>)
    reads s`prev, s`next
  {
    && (forall i {:trigger s[i].prev} :: 0 <= i < |s| ==> s[i].prev == Nth(s, i - 1))
    && Chained(s)
  }

  /** Linked through `next` only, as the free list is. */
  ghost predicate Chained(s: seq<Timer>)
    reads s`next
  {
    forall i {:trigger s[i].next} :: 0 <= i < |s| ==> s[i].next == Nth(s, i + 1)
  }

  ghost predicate Sorted(s: seq<Timer>)
    reads s`time
  {
    forall i, j :: 0 <= i < j < |s| ==> Deadline(s[i]) <= Deadline(s[j])
  }

  ghost predicate NormalTimes(s: seq<Timer>)
    reads s`time
  {
    forall i :: 0 <= i < |s| ==> Normal(s[i].time)
  }

  /** Every timer is due at its epoch plus a whole number of periods. */
  ghost predicate OnGrid(t: Timer)
    reads t`time, t`epoch, t`turns, t`usecs
  {
    Deadline(t) == t.epoch + (t.turns + 1) * t.usecs
  }

  ghost predicate Gridded(s: seq<Timer>)
    reads s`time, s`epoch, s`turns, s`usecs
  {
    forall i :: 0 <= i < |s| ==> OnGrid(s[i])
  }

  lemma InsertedApart(s: seq<Timer>, k: nat, t: Timer, r: seq<Timer>)
    requires k <= |s| && Apart(s, r) && t !in r
    ensures Apart(Inserted(s, k, t), r) && Nth(Inserted(s, k, t), 0) == if k == 0 then t else Nth(s, 0)
  {
    InsertedIndex(s, k, t);
    hide Inserted;
  }

  lemma RemovedApart(s: seq<Timer>, k: nat, r: seq<Timer>)
    requires k < |s| && Apart(s, r)
    ensures Apart(Removed(s, k), r) && Nth(Removed(s, k), 0) == if k == 0 then Nth(s, 1) else Nth(s, 0)
  {
    RemovedIndex(s, k);
    hide Removed;
  }

  lemma LinksOf(s: seq<Timer>, k: nat)
    requires Linked(s) && k < |s|
    ensures s[k].prev == Nth(s, k - 1) && s[k].next == Nth(s, k + 1)
  {
  }

  /** Rewiring around one position links the longer list. */
  lemma InsertedLinked(s: seq<Timer>, k: nat, t: Timer)
    requires k <= |s|
    requires t.prev == Nth(s, k - 1) && t.next == Nth(s, k)
    requires forall i {:trigger s[i].next} :: 0 <= i < |s| ==> s[i].next == if i == k - 1 then t else Nth(s, i + 1)
    requires forall i {:trigger s[i].prev} :: 0 <= i < |s| ==> s[i].prev == if i == k then t else Nth(s, i - 1)
    ensures Linked(Inserted(s, k, t))
  {
    InsertedIndex(s, k, t);
    hide Inserted;
  }

  /** Bridging over one position links the shorter list. */
  lemma RemovedLinked(s: seq<Timer>, k: nat)
    requires k < |s|
    requires forall i {:trigger s[i].next} :: 0 <= i < |s| && i != k ==>
      s[i].next == if i == k - 1 then Nth(s, k + 1) else Nth(s, i + 1)
    requires forall i {:trigger s[i].prev} :: 0 <= i < |s| && i != k ==>
      s[i].prev == if i == k + 1 then Nth(s, k - 1) else Nth(s, i - 1)
    ensures Linked(Removed(s, k))
  {
    RemovedIndex(s, k);
    hide Removed;
  }

  /** Timers before position `k` are due no later than `t`, those from it on are due later. */
  ghost predicate Fits(s: seq<Timer>, k: nat, t: Timer)
    reads s`time, t`time
  {
    && k <= |s|
    && (forall i :: 0 <= i < k ==> Deadline(s[i]) <= Deadline(t))
    && (forall i :: k <= i < |s| ==> Deadline(t) < Deadline(s[i]))
  }

  lemma InsertedSorted(s: seq<Timer>, k: nat, t: Timer)
    requires Sorted(s) && NormalTimes(s) && Normal(t.time) && Fits(s, k, t)
    ensures Sorted(Inserted(s, k, t)) && NormalTimes(Inserted(s, k, t))
  {
    InsertedIndex(s, k, t);
    hide Inserted, Deadline;
  }

  lemma RemovedSorted(s: seq<Timer>, k: nat)
    requires Sorted(s) && NormalTimes(s) && k < |s|
    ensures Sorted(Removed(s, k)) && NormalTimes(Removed(s, k))
  {
    RemovedIndex(s, k);
    hide Removed, Deadline;
  }

  /** Earlier than one timer of a sorted list means earlier than all that follow. */
  lemma FitsHere(s: seq<Timer>, k: nat, t: Timer)
    requires Sorted(s) && k < |s| && Deadline(t) < Deadline(s[k])
    requires forall i :: 0 <= i < k ==> Deadline(s[i]) <= Deadline(t)
    ensures Fits(s, k, t)
  {
    hide Deadline;
    assert forall i :: k < i < |s| ==> Deadline(s[k]) <= Deadline(s[i]);
  }

  class Queue {
    var timers: Timer?
    var freeTimers: Timer?
    ghost var active: seq<Timer>
    ghost var free: seq<Timer>

    /** The two lists are well formed and share no timer. */
    ghost predicate Lists()
      reads this, active`prev, active`next, free`next
    {
      && timers == Nth(active, 0) && Linked(active) && Distinct(active)
      && freeTimers == Nth(free, 0) && Chained(free) && Distinct(free)
      && Apart(active, free)
    }

    ghost predicate Valid()
      reads this, active, free
    {
      Lists() && Sorted(active) && NormalTimes(active) && Gridded(active)
    }

    constructor ()
      ensures Valid() && active == [] && free == []
    {
      timers, freeTimers := null, null;
      active, free := [], [];
    }

    /** Links `t` in at position `k`, after `before` and in front of `after`. */
    method LinkAt(t: Timer, before: Timer?, after: Timer?, ghost k: nat)
      requires Lists() && t !in active && t !in free && k <= |active|
      requires before == Nth(active, k - 1) && after == Nth(active, k)
      modifies this`timers, this`active, t`prev, t`next, active`prev, active`next
      ensures active == Inserted(old(active), k, t) && Lists()
    {
      hide Inserted, Linked, Distinct, Chained;
      ghost var r := Inserted(active, k, t);
      InsertedDistinct(active, k, t);
      InsertedApart(active, k, t, free);
      Rewire(t, before, after, active, k);
      assert Chained(free);
      if before == null {
        timers := t;
      }
      active := r;
    }

    /** `list_add`: after every timer that is due no later. */
    method ListAdd(t: Timer) returns (ghost k: nat)
      requires Lists() && Sorted(active) && NormalTimes(active) && Normal(t.time) && t !in active && t !in free
      modifies this`timers, this`active, t`prev, t`next, active`prev, active`next
      ensures Lists() && Sorted(active) && NormalTimes(active)
      ensures Fits(old(active), k, t) && active == Inserted(old(active), k, t)
    {
      hide Linked, Distinct, Compare, InUsecs, Sorted;
      ghost var s := active;
      k := 0;
      if timers == null {
        InsertedSorted(s, 0, t);
        LinkAt(t, null, null, 0);
      } else {
        CompareIsOrder(t.time, timers.time);
        if Compare(t.time, timers.time) < 0 {
          FitsHere(s, 0, t);
          InsertedSorted(s, 0, t);
          LinkAt(t, null, timers, 0);
        } else {
          var before, after;
          before, after, k := FindPlace(t);
          InsertedSorted(s, k, t);
          LinkAt(t, before, after, k);
        }
      }
    }

    /** The walk of `list_add` past the head. */
    method FindPlace(t: Timer) returns (before: Timer?, after: Timer?, ghost k: nat)
      requires Lists() && Sorted(active) && NormalTimes(active) && Normal(t.time)
      requires timers != null && Deadline(timers) <= Deadline(t)
      ensures Fits(active, k, t) && before == Nth(active, k - 1) && after == Nth(active, k)
    {
      hide Compare, InUsecs;
      before, after := timers, timers.next;
      k := 1;
      while after != null
        invariant 1 <= k <= |active| && before == active[k - 1] && after == Nth(active, k)
        invariant forall i :: 0 <= i < k ==> Deadline(active[i]) <= Deadline(t)
        decreases |active| - k
      {
        CompareIsOrder(t.time, after.time);
        if Compare(t.time, after.time) < 0 {
          FitsHere(active, k, t);
          return;
        }
        before, after := after, after.next;
        k := k + 1;
      }
    }

    /** `list_remove` */
    method ListRemove(t: Timer, ghost k: nat)
      requires Lists() && k < |active| && active[k] == t
      modifies this`timers, this`active, active`prev, active`next
      ensures Lists() && active == Removed(old(active), k) && t !in active
      ensures t.prev == old(t.prev) && t.next == old(t.next)
    {
      hide Removed, Linked, Distinct, Chained;
      ghost var r := Removed(active, k);
      LinksOf(active, k);
      RemovedDistinct(active, k);
      RemovedApart(active, k, free);
      if t.prev == null {
        timers := t.next;
      }
      Bridge(t, active, k);
      assert Chained(free);
      active := r;
    }

    /** `tmr_create`: reuse a free timer if there is one. */
    method Create(now: Time, usecs: nat, periodic: bool) returns (t: Timer, ghost k: nat)
      requires Valid() && Normal(now) && InUsecs(now) + usecs < HORIZON
      modifies this, active`prev, active`next, free
      ensures Valid() && Fits(old(active), k, t) && active == Inserted(old(active), k, t)
      ensures if old(free) == [] then fresh(t) && free == [] else t == old(free)[0] && free == old(free)[1..]
      ensures Deadline(t) == InUsecs(now) + usecs && t.usecs == usecs && t.periodic == periodic
      ensures t.epoch == InUsecs(now) && t.turns == 0
    {
      hide Valid, Inserted;
      t := TakeFree();
      t.Start(now, usecs, periodic);
      k := Enlist(t);
    }

    /** Adds a timer that is on neither list. */
    method Enlist(t: Timer) returns (ghost k: nat)
      requires Valid() && t !in active && t !in free && Normal(t.time) && OnGrid(t)
      modifies this`timers, this`active, t`prev, t`next, active`prev, active`next
      ensures Valid() && Fits(old(active), k, t) && active == Inserted(old(active), k, t)
    {
      hide Lists, Sorted, NormalTimes, OnGrid;
      k := ListAdd(t);
      InsertedGridded(old(active), k, t);
    }

    /** A timer off the free list, or a new one. */
    method TakeFree() returns (t: Timer)
      requires Valid()
      modifies this`freeTimers, this`free
      ensures Valid() && active == old(active) && t !in active && t !in free
      ensures if old(free) == [] then fresh(t) && free == [] else t == old(free)[0] && free == old(free)[1..]
    {
      if freeTimers != null {
        t := freeTimers;
        freeTimers := t.next;
        free := free[1..];
      } else {
        t := new Timer();
      }
    }

    /** The queue is in order but for the timer at position `k`. */
    ghost predicate ValidBut(k: nat)
      reads this, active, free
    {
      && Lists() && k < |active|
      && Sorted(Removed(active, k)) && NormalTimes(Removed(active, k)) && Gridded(Removed(active, k))
    }

    lemma ValidImpliesBut(k: nat)
      requires Valid() && k < |active|
      ensures ValidBut(k)
    {
      hide Lists, Removed;
      RemovedSorted(active, k);
      RemovedGridded(active, k);
    }

    /** Takes the timer at position `k` off the list. */
    method Delist(t: Timer, ghost k: nat)
      requires ValidBut(k) && active[k] == t
      modifies this`timers, this`active, active`prev, active`next
      ensures Valid() && active == Removed(old(active), k) && t !in active && t !in free
    {
      RemovedIndex(active, k);
      OffFreeList(k);
      hide Lists, Sorted, NormalTimes, Gridded;
      ghost var r := Removed(active, k);
      ListRemove(t, k);
      assert Lists();
      assert Sorted(r);
      assert NormalTimes(r);
      assert Gridded(r);
    }

    lemma OffList(k: nat)
      requires Lists() && k < |active|
      ensures active[k] !in Removed(active, k)
    {
      RemovedDistinct(active, k);
    }

    lemma OffFreeList(k: nat)
      requires Lists() && k < |active|
      ensures active[k] !in free
    {
    }

    /** `tmr_cancel` */
    method Cancel(t: Timer, ghost k: nat)
      requires Valid() && k < |active| && active[k] == t
      modifies this, active`prev, active`next
      ensures Valid() && active == Removed(old(active), k) && free == [t] + old(free)
    {
      hide Valid, Removed;
      ValidImpliesBut(k);
      RemovedIndex(active, k);
      hide ValidBut;
      Delist(t, k);
      PushFree(t);
    }

    /** A timer that is on neither list goes to the head of the free list. */
    method PushFree(t: Timer)
      requires Valid() && t !in active && t !in free
      modifies this`freeTimers, this`free, t`prev, t`next
      ensures Valid() && free == [t] + old(free)
    {
      t.next := freeTimers;
      freeTimers := t;
      t.prev := null;
      PushedChained(free, t);
      free := [t] + free;
      hide Linked, Chained, Distinct, Sorted, NormalTimes, Gridded;
    }

    /** `list_resort`: out of the list and back in, wherever its new deadline puts it. */
    method Resort(t: Timer, ghost k: nat) returns (ghost m: nat)
      requires ValidBut(k) && active[k] == t && Normal(t.time) && OnGrid(t)
      modifies this`timers, this`active, active`prev, active`next
      ensures Valid() && free == old(free)
      ensures Fits(Removed(old(active), k), m, t) && active == Inserted(Removed(old(active), k), m, t)
    {
      hide Valid, Inserted;
      RemovedIndex(active, k);
      hide ValidBut;
      Delist(t, k);
      m := Enlist(t);
    }

    /** `tmr_reset`: the period starts anew. */
    method Reset(now: Time, t: Timer, ghost k: nat) returns (ghost m: nat)
      requires Valid() && k < |active| && active[k] == t && Normal(now) && InUsecs(now) + t.usecs < HORIZON
      modifies this`timers, this`active, active`prev, active`next, t`time, t`epoch, t`turns
      ensures Valid() && free == old(free)
      ensures Fits(Removed(old(active), k), m, t) && active == Inserted(Removed(old(active), k), m, t)
      ensures Deadline(t) == InUsecs(now) + t.usecs && t.epoch == InUsecs(now) && t.turns == 0
    {
      hide Valid, ValidBut, Inserted, Removed, Fits;
      RestartAt(now, t, k);
      m := Resort(t, k);
    }

    /** The timer at position `k` gets its new deadline and may now be out of place. */
    method RestartAt(now: Time, t: Timer, ghost k: nat)
      requires Valid() && k < |active| && active[k] == t && Normal(now) && InUsecs(now) + t.usecs < HORIZON
      modifies t`time, t`epoch, t`turns
      ensures ValidBut(k) && Normal(t.time) && OnGrid(t)
      ensures Deadline(t) == InUsecs(now) + t.usecs && t.epoch == InUsecs(now) && t.turns == 0
    {
      ValidImpliesBut(k);
      RemovedIndex(active, k);
      OffList(k);
      hide Valid, Lists, Sorted, NormalTimes, Gridded;
      ghost var r := Removed(active, k);
      t.Restart(now);
      assert Sorted(r) && NormalTimes(r) && Gridded(r);
    }

    /** `tmr_timeout`: only the head is looked at. */
    method Timeout(now: Time) returns (r: Option<Wait>)
      requires Valid() && Normal(now)
      ensures r.None? <==> active == []
      ensures r.Some? ==> r.value.usec < SEC
      ensures r.Some? ==> forall i :: 0 <= i < |active| ==>
        r.value.sec * SEC + r.value.usec <= TimeLeft(active[i], InUsecs(now))
      ensures r.Some? ==>
        exists i :: 0 <= i < |active| && r.value.sec * SEC + r.value.usec == TimeLeft(active[i], InUsecs(now))
    {
      if timers == null {
        return None;
      }
      DiffIsDistance(timers.time, now);
      hide Diff;
      var (diff, past) := Diff(timers.time, now);
      var usecs := if past then 0 else InUsecs(diff);
      assert usecs == TimeLeft(active[0], InUsecs(now));
      hide InUsecs;
      r := Some(Wait(usecs / SEC, usecs % SEC));
    }

    /** What a run may assume about a periodic timer: it makes progress and does not reach the horizon. */
    ghost predicate CanAdvance(t: Timer, now: nat)
      reads t`periodic, t`usecs
    {
      t.periodic ==> t.usecs > 0 && now + t.usecs < HORIZON
    }

    /** What a round makes of the list: ahead of the walk as scheduled, behind it only what has been passed. */
    ghost predicate Stepped(q: nat, behind: seq<Timer>, t: Timer, e: seq<S.Entry<Timer>>)
      reads this, active`time, active`usecs, active`periodic, t`time
    {
      && e != [] && q <= |active| && Entries(active[q..]) == S.Ahead(e)
      && (S.Parks(e) ==> Deadline(t) == S.Later(e[0]).deadline)
      && Passed(active[..q], behind, t, S.Parks(e))
    }

    /** One round of `tmr_run` on the timer at position `p`; `q` is where the walk goes on. */
    method Round(t: Timer, ghost p: nat, ghost now: nat, ghost behind: seq<Timer>, ghost e: seq<S.Entry<Timer>>)
      returns (ghost q: nat)
      requires Valid() && p < |active| && active[p] == t && Deadline(t) <= now && CanAdvance(t, now)
      requires behind == active[..p] && e == Entries(active[p..])
      modifies this, active`prev, active`next, t`time, t`turns
      ensures Valid() && q <= |active| && Nth(active, q) == Nth(old(active), p + 1)
      ensures forall x :: x in old(active[p + 1..]) ==> x in active[q..]
      ensures forall x :: x in active[q..] ==> x in old(active[p + 1..]) || (x == t && t.periodic)
      ensures Work(active, now) < old(Work(active, now))
      ensures forall x :: x in active ==> x in old(active)
      ensures forall x :: x in old(active) ==> x in active || (x == t && !t.periodic)
      ensures Deadline(t) == old(Deadline(t)) + (if t.periodic then t.usecs else 0)
      ensures t.turns == old(t.turns) + (if t.periodic then 1 else 0)
      ensures free == if t.periodic then old(free) else [t] + old(free)
      ensures Stepped(q, behind, t, e)
    {
      hide Valid, Work, Nth, Stepped, Entries;
      if t.periodic {
        q := Repeat(t, p, now, behind, e);
      } else {
        q := Retire(t, p, now, behind, e);
      }
    }

    /** A timer that fires once goes to the free list. */
    method Retire(t: Timer, ghost p: nat, ghost now: nat, ghost behind: seq<Timer>, ghost e: seq<S.Entry<Timer>>)
      returns (ghost q: nat)
      requires Valid() && p < |active| && active[p] == t && Deadline(t) <= now && !t.periodic
      requires behind == active[..p] && e == Entries(active[p..])
      modifies this, active`prev, active`next
      ensures Valid() && q <= |active| && Nth(active, q) == Nth(old(active), p + 1)
      ensures active[q..] == old(active)[p + 1..]
      ensures Work(active, now) < old(Work(active, now))
      ensures forall x :: x in active ==> x in old(active)
      ensures forall x :: x in old(active) ==> x in active || x == t
      ensures free == [t] + old(free)
      ensures Stepped(q, behind, t, e)
    {
      q := p;
      ghost var s := active;
      WorkOfRemoved(s, p, now);
      RemovedMembers(s, p);
      hide Valid, Work, Entries, Stepped;
      RetireOnly(t, p, behind, e);
    }

    method RetireOnly(t: Timer, ghost p: nat, ghost behind: seq<Timer>, ghost e: seq<S.Entry<Timer>>)
      requires Valid() && p < |active| && active[p] == t && !t.periodic
      requires behind == active[..p] && e == Entries(active[p..])
      modifies this, active`prev, active`next
      ensures Valid() && active == Removed(old(active), p) && free == [t] + old(free)
      ensures Stepped(p, behind, t, e)
    {
      hide Valid, Removed, Entries, Stepped;
      ghost var s, tail := active, active[p + 1..];
      EntriesFrom(s, p);
      assert e[1..] == Entries(tail) && e[0] == EntryOf(t);
      Cancel(t, p);
      assert Entries(tail) == e[1..];
      RetiredIsStepped(s, p, e);
    }

    lemma RetiredIsStepped(s: seq<Timer>, p: nat, e: seq<S.Entry<Timer>>)
      requires p < |s| && active == Removed(s, p) && e != [] && !e[0].periodic && e[1..] == Entries(s[p + 1..])
      ensures Stepped(p, s[..p], s[p], e)
    {
      NothingPassed(s, p);
      RemovedTail(s, p);
      hide Entries, Passed, Removed;
    }

    /** A periodic timer is due again one period later. */
    method Repeat(t: Timer, ghost p: nat, ghost now: nat, ghost behind: seq<Timer>, ghost e: seq<S.Entry<Timer>>)
      returns (ghost q: nat)
      requires Valid() && p < |active| && active[p] == t && Deadline(t) <= now && t.periodic
      requires t.usecs > 0 && now + t.usecs < HORIZON
      requires behind == active[..p] && e == Entries(active[p..])
      modifies this`timers, this`active, active`prev, active`next, t`time, t`turns
      ensures Valid() && q <= |active| && Nth(active, q) == Nth(old(active), p + 1)
      ensures forall x :: x in old(active[p + 1..]) ==> x in active[q..]
      ensures forall x :: x in active[q..] ==> x in old(active[p + 1..]) || x == t
      ensures Work(active, now) < old(Work(active, now))
      ensures forall x :: x in active <==> x in old(active)
      ensures Deadline(t) == old(Deadline(t)) + t.usecs && t.turns == old(t.turns) + 1
      ensures Stepped(q, behind, t, e)
    {
      hide Valid, Work, Nth, Inserted, Removed, Entries, Stepped;
      ghost var s, r := active, Removed(active, p);
      SplitWork(p, now);
      ghost var w := Work(r, now);
      ghost var m := MoveOn(t, p, behind, e);
      assert Work(r, now) == w;
      WorkOfInserted(r, m, t, now);
      WalkAfterMove(s, p, m);
      MovedKeepsTimers(s, p, m);
      q := WalkOn(p, m);
    }

    /** The move, and what it makes of the schedule. */
    method MoveOn(t: Timer, ghost p: nat, ghost behind: seq<Timer>, ghost e: seq<S.Entry<Timer>>) returns (ghost m: nat)
      requires Valid() && p < |active| && active[p] == t && Deadline(t) + t.usecs < HORIZON && t.periodic
      requires behind == active[..p] && e == Entries(active[p..])
      modifies this`timers, this`active, active`prev, active`next, t`time, t`turns
      ensures Valid() && m < |old(active)| && active == Inserted(Removed(old(active), p), m, t)
      ensures Deadline(t) == old(Deadline(t)) + t.usecs && t.turns == old(t.turns) + 1
      ensures Stepped(WalkOn(p, m), behind, t, e)
    {
      ghost var s, r := active, Removed(active, p);
      ghost var first, tail := EntryOf(t), Entries(s[p + 1..]);
      EntriesFrom(s, p);
      RemovedTail(s, p);
      OffList(p);
      hide Valid, Inserted, Removed, Entries, Fits, Passed;
      m := AdvanceAndResort(t, p);
      assert Entries(r[p..]) == tail;
      MoveIsScheduled(r, p, m, t, first);
      MovePasses(s, p, m);
    }

    lemma SplitWork(p: nat, now: nat)
      requires Valid() && p < |active|
      ensures var r := Removed(active, p);
        && active[p] !in r && (forall x :: x in r ==> x in active)
        && |r| == |active| - 1 && Work(active, now) == Work(r, now) + Overdue(active[p], now)
    {
      hide Work, Overdue;
      OffList(p);
      WorkOfRemoved(active, p, now);
      RemovedMembers(active, p);
    }

    /** Nothing ahead of the walk is due before `last`, and no timer but the old ones is active. */
    ghost predicate Ahead(p: nat, last: nat, was: map<Timer, nat>)
      reads this, active`time
    {
      && p <= |active|
      && (forall i :: p <= i < |active| ==> last <= Deadline(active[i]))
      && (forall i :: 0 <= i < |active| ==> active[i] in was)
    }

    /** Whatever has not fired still lies ahead, with the deadline it had. */
    ghost predicate Pending(p: nat, was: map<Timer, nat>, fired: set<Timer>)
      requires p <= |active|
      reads this, was.Keys`time
    {
      forall x :: x in was && x !in fired ==> x in active[p..] && Deadline(x) == was[x]
    }

    /** State of a run between two rounds. */
    ghost predicate Running(p: nat, last: nat, now: nat, was: map<Timer, nat>, log: seq<S.Firing<Timer>>)
      reads this, active, free, was.Keys`time
    {
      && Valid() && Ahead(p, last, was) && Pending(p, was, FiredTimers(log))
      && InOrder(log, last) && last <= now
      && forall x :: x in FiredTimers(log) ==> x in was && was[x] <= now
    }

    lemma RunStarts(now: nat, was: map<Timer, nat>)
      requires Valid() && was == map x | x in active :: Deadline(x)
      ensures Running(0, 0, now, was, [])
    {
      hide Valid;
      assert active[0..] == active;
    }

    /** When the walk stops, nothing that is due is left ahead of it. */
    lemma RunStops(p: nat, last: nat, now: nat, was: map<Timer, nat>, log: seq<S.Firing<Timer>>)
      requires Running(p, last, now, was, log) && p <= |active|
      requires p < |active| ==> now < Deadline(active[p])
      ensures Valid() && InOrder(log, now)
      ensures forall x :: x in was ==> (x in FiredTimers(log) <==> was[x] <= now)
      ensures forall x :: x in was && x !in FiredTimers(log) ==> x in active && Deadline(x) == was[x]
    {
      hide Lists, NormalTimes, Gridded, FiredTimers;
      forall x | x in was && x !in FiredTimers(log) ensures now < was[x] {
        SortedFrom(p, x);
      }
    }

    lemma SortedFrom(p: nat, x: Timer)
      requires Sorted(active) && p <= |active| && x in active[p..]
      ensures p < |active| && Deadline(active[p]) <= Deadline(x)
    {
      hide Deadline;
      var i :| 0 <= i < |active[p..]| && active[p..][i] == x;
      assert active[p + i] == x;
    }

    /** Only old timers are active, only spent one-shot timers have left, and every firing has moved its timer on. */
    ghost predicate Tallied(s: seq<Timer>, turns: map<Timer, nat>, log: seq<S.Firing<Timer>>)
      reads this, s`periodic, s`turns
    {
      && (forall x :: x in active ==> x in s)
      && (forall x :: x in s && x !in active ==> !x.periodic && x in free)
      && (forall x :: x in s ==> x in turns && TurnsOf(x, turns, log))
    }

    ghost predicate TurnsOf(x: Timer, turns: map<Timer, nat>, log: seq<S.Firing<Timer>>)
      requires x in turns
      reads this, x`periodic, x`turns
    {
      if x.periodic then x.turns == turns[x] + Firings(log, x)
      else Firings(log, x) == if x in active then 0 else 1
    }

    /** `tmr_run`: the callbacks it makes, in order. The callbacks leave the queue alone. */
    method Run(now: Time) returns (log: seq<S.Firing<Timer>>)
      requires Valid() && Normal(now)
      requires forall x :: x in active ==> CanAdvance(x, InUsecs(now))
      modifies this, active`prev, active`next, active`time, active`turns
      ensures Valid() && InOrder(log, InUsecs(now))
      ensures forall x :: x in old(active) ==> (x in FiredTimers(log) <==> old(Deadline(x)) <= InUsecs(now))
      ensures forall x :: x in old(active) && x !in FiredTimers(log) ==> x in active && Deadline(x) == old(Deadline(x))
      ensures Tallied(old(active), old(map x | x in active :: x.turns), log)
      ensures S.Advancing(old(Entries(active))) && log == S.Walk(old(Entries(active)), InUsecs(now))
      ensures NoneDue(active, InUsecs(now)) <==> S.Alternates(S.Schedule(old(Entries(active)), InUsecs(now)))
    {
      hide Running, Valid, FiredTimers, InOrder, Tallied, OnSchedule, Entries, NoneDue, S.Walk, S.Clean, S.Alternates;
      ghost var n, plan := InUsecs(now), Entries(active);
      ghost var was, turns := (map x | x in active :: Deadline(x)), (map x | x in active :: x.turns);
      RunStarts(n, was);
      NothingTallied(turns);
      ScheduleStarts(n);
      S.CleanWalks(plan, n);
      ghost var all, clean := S.Walk(plan, n), S.Clean(plan, n);
      ghost var p, last;
      log, p, last := RunLoop(now, was, active, turns, all, clean);
      RunStops(p, last, n, was, log);
      ScheduleEnds(p, n, all, clean, log);
    }

    /** The loop of `tmr_run`. */
    method RunLoop(
      now: Time, ghost was: map<Timer, nat>, ghost s: seq<Timer>, ghost turns: map<Timer, nat>,
      ghost all: seq<S.Firing<Timer>>, ghost clean: bool)
      returns (log: seq<S.Firing<Timer>>, ghost p: nat, ghost last: nat)
      requires Normal(now) && s == active && forall x :: x in active ==> CanAdvance(x, InUsecs(now))
      requires Running(0, 0, InUsecs(now), was, []) && Tallied(s, turns, [])
      requires OnSchedule(0, InUsecs(now), all, clean, [])
      modifies this, active`prev, active`next, active`time, active`turns
      ensures Running(p, last, InUsecs(now), was, log) && Tallied(s, turns, log)
      ensures OnSchedule(p, InUsecs(now), all, clean, log)
      ensures p <= |active| && (p < |active| ==> InUsecs(now) < Deadline(active[p]))
    {
      hide Running, Valid, FiredTimers, InOrder, Work, Compare, Tallied, OnSchedule, InUsecs;
      log, p, last := [], 0, 0;
      ghost var n := InUsecs(now);
      RunningIs(p, last, n, was, log);
      HeadOfList();
      var t := timers;
      while t != null
        invariant Running(p, last, n, was, log) && p <= |active| && t == Nth(active, p)
        invariant forall i :: 0 <= i < |active| ==> active[i] in s
        invariant Tallied(s, turns, log) && OnSchedule(p, n, all, clean, log)
        decreases Work(active, n)
      {
        RunningIs(p, last, n, was, log);
        CompareIsOrder(t.time, now);
        if Compare(t.time, now) > 0 {
          break;
        }
        NextInList(p);
        var next := t.next;
        ghost var d := Deadline(t);
        log, p := FireOnSchedule(t, p, last, n, was, log, s, turns, all, clean);
        last := d;
        t := next;
      }
    }

    /** The firings so far and those of the walk that is left make up the planned ones; so does what is left due. */
    ghost predicate OnSchedule(p: nat, now: nat, all: seq<S.Firing<Timer>>, clean: bool, log: seq<S.Firing<Timer>>)
      reads this, active`time, active`usecs, active`periodic
    {
      && p <= |active| && S.Advancing(Entries(active[p..]))
      && log + S.Walk(Entries(active[p..]), now) == all
      && (NoneDue(active[..p], now) && S.Clean(Entries(active[p..]), now) <==> clean)
    }

    lemma ScheduleStarts(now: nat)
      requires Valid() && forall x :: x in active ==> CanAdvance(x, now)
      ensures S.Advancing(Entries(active)) && S.DistinctIds(Entries(active))
      ensures OnSchedule(0, now, S.Walk(Entries(active), now), S.Clean(Entries(active), now), [])
    {
      EntriesIndex(active);
      hide Entries, Linked, Sorted, NormalTimes, Gridded;
      forall i | 0 <= i < |active| && active[i].periodic ensures active[i].usecs > 0 {
        assert active[i] in active;
      }
      assert S.Advancing(Entries(active));
      assert active[0..] == active && active[..0] == [];
      var w := S.Walk(Entries(active), now);
      assert [] + w == w;
    }

    /** The walk stops where nothing more is due. */
    lemma ScheduleEnds(p: nat, now: nat, all: seq<S.Firing<Timer>>, clean: bool, log: seq<S.Firing<Timer>>)
      requires OnSchedule(p, now, all, clean, log) && Valid()
      requires p < |active| ==> now < Deadline(active[p])
      ensures log == all && (NoneDue(active, now) <==> clean)
    {
      EntriesIndex(active[p..]);
      if p < |active| { assert active[p..][0] == active[p]; }
      hide Entries, Lists, NormalTimes, Gridded;
      assert !S.Due(Entries(active[p..]), now);
      if NoneDue(active[..p], now) {
        forall i | 0 <= i < |active| ensures now < Deadline(active[i]) {
          if i < p { assert active[..p][i] == active[i]; }
        }
      }
    }

    /** One firing, as planned. */
    method FireOnSchedule(
      t: Timer, ghost p: nat, ghost last: nat, ghost now: nat, ghost was: map<Timer, nat>, log: seq<S.Firing<Timer>>,
      ghost s: seq<Timer>, ghost turns: map<Timer, nat>, ghost all: seq<S.Firing<Timer>>, ghost clean: bool)
      returns (log': seq<S.Firing<Timer>>, ghost q: nat)
      requires Running(p, last, now, was, log) && p < |active| && t == active[p] && Deadline(t) <= now
      requires CanAdvance(t, now) && Tallied(s, turns, log) && OnSchedule(p, now, all, clean, log)
      modifies this, active`prev, active`next, t`time, t`turns
      ensures Running(q, old(Deadline(t)), now, was, log') && Tallied(s, turns, log')
      ensures OnSchedule(q, now, all, clean, log')
      ensures q <= |active| && Nth(active, q) == Nth(old(active), p + 1)
      ensures Work(active, now) < old(Work(active, now))
      ensures forall i :: 0 <= i < |active| ==> active[i] in s
    {
      ghost var behind, e := active[..p], Entries(active[p..]);
      RunningIs(p, last, now, was, log);
      FiringIsPlanned(p, now, all, clean, log);
      NotBehind(p);
      ghost var none := NoneDue(behind, now);
      hide Running, Valid, Nth, Work, Entries, Tallied, Stepped, NoneDue, OnSchedule, Planned, InUsecs, Compare;
      log', q := FireAndTally(t, p, last, now, was, log, s, turns, behind, e);
      assert NoneDue(behind, now) == none;
      FiredAsPlanned(q, behind, t, e, now, all, clean, log');
    }

    /** What is planned after the firing at `e[0]`. */
    ghost predicate Planned(
      none: bool, e: seq<S.Entry<Timer>>, now: nat, all: seq<S.Firing<Timer>>, clean: bool, log: seq<S.Firing<Timer>>)
    {
      && e != [] && S.Advancing(S.Ahead(e)) && log + S.Walk(S.Ahead(e), now) == all
      && (clean <==> none && (S.Parks(e) ==> S.Later(e[0]).deadline > now) && S.Clean(S.Ahead(e), now))
    }

    lemma FiringIsPlanned(p: nat, now: nat, all: seq<S.Firing<Timer>>, clean: bool, log: seq<S.Firing<Timer>>)
      requires OnSchedule(p, now, all, clean, log) && p < |active| && Deadline(active[p]) <= now
      ensures var log' := log + [S.Firing(active[p], Deadline(active[p]))];
        Planned(NoneDue(active[..p], now), Entries(active[p..]), now, all, clean, log')
    {
      EntriesFrom(active, p);
      WalkStep(Entries(active[p..]), now, log);
      hide Entries, NoneDue, S.Ahead, S.Parks, S.Walk, S.Clean, S.Advancing;
    }

    lemma FiredAsPlanned(
      q: nat, behind: seq<Timer>, t: Timer, e: seq<S.Entry<Timer>>, now: nat,
      all: seq<S.Firing<Timer>>, clean: bool, log: seq<S.Firing<Timer>>)
      requires Stepped(q, behind, t, e) && Planned(NoneDue(behind, now), e, now, all, clean, log)
      ensures OnSchedule(q, now, all, clean, log)
    {
      SteppedIsDue(q, behind, t, e, now);
      hide Entries, NoneDue, S.Ahead, S.Parks, Stepped;
    }

    lemma NotBehind(p: nat)
      requires Valid() && p < |active|
      ensures active[p] !in active[..p]
    {
    }

    /** What is due behind the walk after a round. */
    lemma SteppedIsDue(q: nat, behind: seq<Timer>, t: Timer, e: seq<S.Entry<Timer>>, now: nat)
      requires Stepped(q, behind, t, e)
      ensures q <= |active| && e != [] && Entries(active[q..]) == S.Ahead(e)
      ensures NoneDue(active[..q], now) <==> NoneDue(behind, now) && (S.Parks(e) ==> S.Later(e[0]).deadline > now)
    {
      hide Entries, S.Parks, Deadline;
      var r := active[..q];
      if NoneDue(r, now) {
        forall i | 0 <= i < |behind| ensures now < Deadline(behind[i]) {
          var j :| 0 <= j < |r| && r[j] == behind[i];
        }
        if S.Parks(e) {
          var j :| 0 <= j < |r| && r[j] == t;
        }
      }
    }

    lemma NothingTallied(turns: map<Timer, nat>)
      requires turns == map x | x in active :: x.turns
      ensures Tallied(active, turns, [])
    {
    }

    /** One firing, and what it adds to the tally. */
    method FireAndTally(
      t: Timer, ghost p: nat, ghost last: nat, ghost now: nat, ghost was: map<Timer, nat>, log: seq<S.Firing<Timer>>,
      ghost s: seq<Timer>, ghost turns: map<Timer, nat>, ghost behind: seq<Timer>, ghost e: seq<S.Entry<Timer>>)
      returns (log': seq<S.Firing<Timer>>, ghost q: nat)
      requires Running(p, last, now, was, log) && p < |active| && t == active[p] && Deadline(t) <= now
      requires CanAdvance(t, now) && Tallied(s, turns, log)
      requires behind == active[..p] && e == Entries(active[p..])
      modifies this, active`prev, active`next, t`time, t`turns
      ensures Running(q, old(Deadline(t)), now, was, log') && Tallied(s, turns, log')
      ensures q <= |active| && Nth(active, q) == Nth(old(active), p + 1)
      ensures Work(active, now) < old(Work(active, now))
      ensures forall i :: 0 <= i < |active| ==> active[i] in s
      ensures log' == log + [S.Firing(t, old(Deadline(t)))] && Stepped(q, behind, t, e)
    {
      hide Running, Valid, Nth, Work, Firings, InOrder, FiredTimers, Stepped, Entries;
      CountFirings(log, t, Deadline(t));
      log', q := Fire(t, p, last, now, was, log, behind, e);
      RunningIs(q, old(Deadline(t)), now, was, log');
      FreeIsIdle();
    }

    lemma FreeIsIdle()
      requires Valid()
      ensures forall x :: x in free ==> x !in active
    {
    }

    lemma HeadOfList()
      requires Valid()
      ensures timers == Nth(active, 0)
    {
    }

    lemma NextInList(p: nat)
      requires Valid() && p < |active|
      ensures active[p].next == Nth(active, p + 1)
    {
    }

    lemma RunningIs(p: nat, last: nat, now: nat, was: map<Timer, nat>, log: seq<S.Firing<Timer>>)
      requires Running(p, last, now, was, log)
      ensures Valid() && NormalTimes(active)
    {
    }

    /** One firing. */
    method Fire(
      t: Timer, ghost p: nat, ghost last: nat, ghost now: nat, ghost was: map<Timer, nat>, log: seq<S.Firing<Timer>>,
      ghost behind: seq<Timer>, ghost e: seq<S.Entry<Timer>>)
      returns (log': seq<S.Firing<Timer>>, ghost q: nat)
      requires Running(p, last, now, was, log) && p < |active| && t == active[p] && Deadline(t) <= now
      requires CanAdvance(t, now) && behind == active[..p] && e == Entries(active[p..])
      modifies this, active`prev, active`next, t`time, t`turns
      ensures Running(q, old(Deadline(t)), now, was, log')
      ensures q <= |active| && Nth(active, q) == Nth(old(active), p + 1)
      ensures Work(active, now) < old(Work(active, now))
      ensures log' == log + [S.Firing(t, old(Deadline(t)))]
      ensures forall x :: x in active ==> x in old(active)
      ensures forall x :: x in old(active) ==> x in active || (x == t && !t.periodic)
      ensures t.turns == old(t.turns) + (if t.periodic then 1 else 0)
      ensures free == if t.periodic then old(free) else [t] + old(free)
      ensures Stepped(q, behind, t, e)
    {
      hide Running, Valid, InOrder, Nth, Work, FiredTimers, Stepped, Entries;
      BeforeFiring(p, last, now, was, log);
      log' := log + [S.Firing(t, InUsecs(t.time))];
      ghost var d := Deadline(t);
      q := Round(t, p, now, behind, e);
      AfterFiring(q, d, now, was, log');
    }

    /** What a firing needs to know: the log grows in order, and all that has not fired comes after it. */
    lemma BeforeFiring(p: nat, last: nat, now: nat, was: map<Timer, nat>, log: seq<S.Firing<Timer>>)
      requires Running(p, last, now, was, log) && p < |active| && Deadline(active[p]) <= now
      ensures Valid()
      ensures var log' := log + [S.Firing(active[p], Deadline(active[p]))];
        && InOrder(log', Deadline(active[p]))
        && (forall x :: x in FiredTimers(log') ==> x in was && was[x] <= now)
        && (forall x :: x in was && x !in FiredTimers(log') ==>
          x in active[p + 1..] && x != active[p] && Deadline(x) == was[x])
      ensures forall x :: x in active ==> x in was
      ensures forall x :: x in active[p + 1..] ==> Deadline(active[p]) <= Deadline(x)
    {
      LogExtends(log, active[p], last, Deadline(active[p]));
      SortedAhead(p);
    }

    lemma AfterFiring(q: nat, d: nat, now: nat, was: map<Timer, nat>, log: seq<S.Firing<Timer>>)
      requires Valid() && q <= |active| && d <= now && InOrder(log, d)
      requires forall x :: x in FiredTimers(log) ==> x in was && was[x] <= now
      requires forall x :: x in was && x !in FiredTimers(log) ==> x in active[q..] && Deadline(x) == was[x]
      requires forall x :: x in active ==> x in was
      requires forall x :: x in active[q..] ==> d <= Deadline(x)
      ensures Running(q, d, now, was, log)
    {
      hide Valid, InOrder, FiredTimers, Deadline;
      forall i | q <= i < |active| ensures d <= Deadline(active[i]) {
        assert active[i] == active[q..][i - q];
      }
    }

    lemma SortedAhead(p: nat)
      requires Sorted(active) && p < |active|
      ensures forall x :: x in active[p + 1..] ==> Deadline(active[p]) <= Deadline(x)
    {
      hide Deadline;
    }

    method AdvanceAndResort(t: Timer, ghost p: nat) returns (ghost m: nat)
      requires Valid() && p < |active| && active[p] == t && Deadline(t) + t.usecs < HORIZON
      modifies this`timers, this`active, active`prev, active`next, t`time, t`turns
      ensures Valid() && m < |old(active)| && active == Inserted(Removed(old(active), p), m, t)
      ensures Fits(Removed(old(active), p), m, t)
      ensures Deadline(t) == old(Deadline(t)) + t.usecs && t.turns == old(t.turns) + 1
    {
      ValidImpliesBut(p);
      RemovedIndex(active, p);
      OffList(p);
      hide Lists, Sorted, NormalTimes;
      ghost var r := Removed(active, p);
      t.Advance();
      assert Sorted(r) && NormalTimes(r) && Gridded(r);
      hide Valid, Inserted, ValidBut, Gridded;
      m := Resort(t, p);
    }
  }

  function FiredTimers(log: seq<S.Firing<Timer>>): set<Timer> { set f | f in log :: f.timer }

  /** Deadlines never go back along the log, and none is past `last`. */
  ghost predicate InOrder(log: seq<S.Firing<Timer>>, last: nat) {
    && (forall a, b :: 0 <= a < b < |log| ==> log[a].deadline <= log[b].deadline)
    && (forall a :: 0 <= a < |log| ==> log[a].deadline <= last)
  }

  /** How often a timer fired. */
  function Firings(log: seq<S.Firing<Timer>>, x: Timer): nat {
    if log == [] then 0
    else Firings(log[..|log| - 1], x) + (if log[|log| - 1].timer == x then 1 else 0)
  }

  lemma CountFirings(log: seq<S.Firing<Timer>>, t: Timer, d: nat)
    ensures forall x :: Firings(log + [S.Firing(t, d)], x) == Firings(log, x) + (if x == t then 1 else 0)
  {
    assert (log + [S.Firing(t, d)])[..|log|] == log;
  }

  lemma LogExtends(log: seq<S.Firing<Timer>>, t: Timer, last: nat, d: nat)
    requires InOrder(log, last) && last <= d
    ensures InOrder(log + [S.Firing(t, d)], d)
    ensures FiredTimers(log + [S.Firing(t, d)]) == FiredTimers(log) + {t}
  {
    assert forall f :: f in log + [S.Firing(t, d)] <==> f in log || f == S.Firing(t, d);
  }

  /** A `struct timeval`. */
  datatype Wait = Wait(sec: nat, usec: nat)

  /** Time until a timer is due, 0 when it is due already. */
  ghost function TimeLeft(t: Timer, now: nat): nat
    reads t`time
  {
    if Deadline(t) <= now then 0 else Deadline(t) - now
  }

  // ---------------------------------------------------------------------------------------------
  // How much a run still has to do: microseconds by which active timers are overdue.

  ghost function Overdue(t: Timer, now: nat): nat
    reads t`time
  {
    if Deadline(t) <= now then now - Deadline(t) + 1 else 0
  }

  ghost function Work(s: seq<Timer>, now: nat): nat
    reads s`time
  {
    if s == [] then 0 else Overdue(s[0], now) + Work(s[1..], now)
  }

  lemma {:induction false} WorkOfParts(a: seq<Timer>, b: seq<Timer>, now: nat)
    ensures Work(a + b, now) == Work(a, now) + Work(b, now)
  {
    if a == [] {
      assert a + b == b;
    } else {
      assert (a + b)[1..] == a[1..] + b;
      WorkOfParts(a[1..], b, now);
    }
  }

  lemma WorkOfInserted(s: seq<Timer>, k: nat, t: Timer, now: nat)
    requires k <= |s|
    ensures Work(Inserted(s, k, t), now) == Work(s, now) + Overdue(t, now)
  {
    hide Overdue;
    WorkOfParts(s[..k] + [t], s[k..], now);
    WorkOfParts(s[..k], [t], now);
    WorkOfParts(s[..k], s[k..], now);
    assert s[..k] + s[k..] == s;
    assert Work([t], now) == Overdue(t, now);
  }

  lemma WorkOfRemoved(s: seq<Timer>, k: nat, now: nat)
    requires k < |s|
    ensures Work(s, now) == Work(Removed(s, k), now) + Overdue(s[k], now)
  {
    hide Removed, Inserted, Work;
    RemovedAndBack(s, k);
    RemovedIndex(s, k);
    WorkOfInserted(Removed(s, k), k, s[k], now);
  }

  lemma RemovedMembers(s: seq<Timer>, p: nat)
    requires p < |s|
    ensures var r := Removed(s, p);
      && r[p..] == s[p + 1..] && Nth(r, p) == Nth(s, p + 1)
      && (forall x :: x in r ==> x in s) && (forall x :: x in s ==> x in r || x == s[p])
  {
  }

  /** The list after the timer at `p` has moved to `m`, position by position. */
  lemma MovedIndex(s: seq<Timer>, p: nat, m: nat)
    requires p < |s| && m < |s|
    ensures var r := Inserted(Removed(s, p), m, s[p]);
      && |r| == |s| && r[m] == s[p]
      && (forall i {:trigger r[i]} :: 0 <= i < |s| && i != m ==> r[i] == s[MovedFrom(i, p, m)])
      && (forall i {:trigger s[i]} :: 0 <= i < |s| && i != p ==> s[i] == r[MovedTo(i, p, m)])
  {
    var rest := Removed(s, p);
    RemovedIndex(s, p);
    InsertedIndex(rest, m, s[p]);
    hide Removed, Inserted;
  }

  function MovedFrom(i: int, p: nat, m: nat): int {
    var j := if i < m then i else i - 1;
    if j < p then j else j + 1
  }

  function MovedTo(i: int, p: nat, m: nat): int {
    var j := if i < p then i else i - 1;
    if j < m then j else j + 1
  }

  /** Where the walk goes on after the move. */
  function WalkOn(p: nat, m: nat): nat { if m <= p then p + 1 else p }

  lemma MovedKeepsTimers(s: seq<Timer>, p: nat, m: nat)
    requires p < |s| && m < |s|
    ensures forall x :: x in Inserted(Removed(s, p), m, s[p]) <==> x in s
  {
    MovedIndex(s, p, m);
    var r := Inserted(Removed(s, p), m, s[p]);
    hide Removed, Inserted;
    forall i | 0 <= i < |s| ensures s[i] in r {
      if i != p { assert s[i] == r[MovedTo(i, p, m)]; }
    }
    forall i | 0 <= i < |r| ensures r[i] in s {
      if i != m { assert r[i] == s[MovedFrom(i, p, m)]; }
    }
  }

  /** The walk goes on at the timer that came next before the move. */
  lemma NextAfterMove(s: seq<Timer>, p: nat, m: nat)
    requires p < |s| && m < |s|
    ensures var r, q := Inserted(Removed(s, p), m, s[p]), WalkOn(p, m);
      |r| == |s| && q <= |r| && Nth(r, q) == Nth(s, p + 1)
  {
    MovedIndex(s, p, m);
    hide Removed, Inserted;
    if p + 1 < |s| { assert s[p + 1] == Inserted(Removed(s, p), m, s[p])[MovedTo(p + 1, p, m)]; }
  }

  /** Nothing that lay ahead of the walk is skipped. */
  lemma NoneSkipped(s: seq<Timer>, p: nat, m: nat)
    requires p < |s| && m < |s|
    ensures var r, q := Inserted(Removed(s, p), m, s[p]), WalkOn(p, m);
      q <= |r| && forall i {:trigger s[i]} :: p < i < |s| ==> s[i] in r[q..]
  {
    MovedIndex(s, p, m);
    var r, q := Inserted(Removed(s, p), m, s[p]), WalkOn(p, m);
    hide Removed, Inserted;
    forall i | p < i < |s| ensures s[i] in r[q..] {
      var j := MovedTo(i, p, m);
      assert r[q..][j - q] == r[j];
    }
  }

  /** Nothing comes to lie ahead of the walk but what did before, and the timer that moved. */
  lemma NoneRepeated(s: seq<Timer>, p: nat, m: nat)
    requires p < |s| && m < |s|
    ensures var r, q := Inserted(Removed(s, p), m, s[p]), WalkOn(p, m);
      q <= |r| && forall i {:trigger r[i]} :: q <= i < |r| ==> r[i] in s[p + 1..] || r[i] == s[p]
  {
    MovedIndex(s, p, m);
    var r, q := Inserted(Removed(s, p), m, s[p]), WalkOn(p, m);
    hide Removed, Inserted;
    forall i | q <= i < |r| ensures r[i] in s[p + 1..] || r[i] == s[p] {
      if i != m {
        var j := MovedFrom(i, p, m);
        assert s[p + 1..][j - p - 1] == s[j];
      }
    }
  }

  /** Re-inserting the current timer neither skips nor repeats another one. */
  lemma WalkAfterMove(s: seq<Timer>, p: nat, m: nat)
    requires p < |s| && m < |s|
    ensures var r := Inserted(Removed(s, p), m, s[p]);
      var q := WalkOn(p, m);
      && |r| == |s| && q <= |r| && Nth(r, q) == Nth(s, p + 1)
      && (forall i {:trigger s[i]} :: p < i < |s| ==> s[i] in r[q..])
      && (forall i {:trigger r[i]} :: q <= i < |r| ==> r[i] in s[p + 1..] || r[i] == s[p])
  {
    hide Removed, Inserted;
    NextAfterMove(s, p, m);
    NoneSkipped(s, p, m);
    NoneRepeated(s, p, m);
  }

  lemma PushedChained(s: seq<Timer>, t: Timer)
    requires Chained(s) && Distinct(s) && t !in s && t.next == Nth(s, 0)
    ensures Chained([t] + s) && Distinct([t] + s)
  {
  }

  lemma InsertedGridded(s: seq<Timer>, k: nat, t: Timer)
    requires Gridded(s) && OnGrid(t) && k <= |s|
    ensures Gridded(Inserted(s, k, t))
  {
    InsertedIndex(s, k, t);
    hide Inserted, OnGrid;
  }

  lemma RemovedGridded(s: seq<Timer>, k: nat)
    requires Gridded(s) && k < |s|
    ensures Gridded(Removed(s, k))
  {
    RemovedIndex(s, k);
    hide Removed, OnGrid;
  }

  /** The pointer updates of a removal. */
  method Bridge(t: Timer, ghost s: seq<Timer>, ghost k: nat)
    requires Linked(s) && Distinct(s) && k < |s| && s[k] == t
    modifies s`prev, s`next
    ensures Linked(Removed(s, k)) && t.prev == old(t.prev) && t.next == old(t.next)
  {
    if t.prev != null {
      t.prev.next := t.next;
    }
    if t.next != null {
      t.next.prev := t.prev;
    }
    RemovedLinked(s, k);
  }

  /** The pointer updates of an insertion. */
  method Rewire(t: Timer, before: Timer?, after: Timer?, ghost s: seq<Timer>, ghost k: nat)
    requires Linked(s) && Distinct(s) && t !in s && k <= |s|
    requires before == Nth(s, k - 1) && after == Nth(s, k)
    modifies t`prev, t`next, s`prev, s`next
    ensures Linked(Inserted(s, k, t))
  {
    t.prev := before;
    t.next := after;
    if before != null {
      before.next := t;
    }
    if after != null {
      after.prev := t;
    }
    InsertedLinked(s, k, t);
  }

  // ---------------------------------------------------------------------------------------------
  // The list as the schedule sees it

  ghost function EntryOf(t: Timer): S.Entry<Timer>
    reads t`time, t`usecs, t`periodic
  {
    S.Entry(t, Deadline(t), t.usecs, t.periodic)
  }

  ghost function Entries(s: seq<Timer>): seq<S.Entry<Timer>>
    reads s`time, s`usecs, s`periodic
  {
    if s == [] then [] else [EntryOf(s[0])] + Entries(s[1..])
  }

  lemma {:induction false} EntriesIndex(s: seq<Timer>)
    ensures |Entries(s)| == |s| && forall i :: 0 <= i < |s| ==> Entries(s)[i] == EntryOf(s[i])
  {
    if s != [] {
      EntriesIndex(s[1..]);
      hide EntryOf;
    }
  }

  ghost predicate NoneDue(s: seq<Timer>, now: nat)
    reads s`time
  {
    forall i :: 0 <= i < |s| ==> now < Deadline(s[i])
  }

  lemma InsertedAtFront(s: seq<Timer>, t: Timer)
    ensures Inserted(s, 0, t) == [t] + s && ([t] + s)[1..] == s
  {
  }

  lemma InsertedBehind(s: seq<Timer>, k: nat, t: Timer)
    requires 0 < k <= |s|
    ensures Inserted(s, k, t) != [] && Inserted(s, k, t)[0] == s[0]
    ensures Inserted(s, k, t)[1..] == Inserted(s[1..], k - 1, t)
  {
  }

  /** Insertion into the list is placement in the schedule. */
  lemma {:induction false} EntriesPlaced(s: seq<Timer>, k: nat, t: Timer)
    requires Fits(s, k, t)
    ensures Entries(Inserted(s, k, t)) == S.Placed(Entries(s), EntryOf(t))
  {
    if k == 0 {
      InsertedAtFront(s, t);
    } else {
      FitsTail(s, k, t);
      EntriesPlaced(s[1..], k - 1, t);
      InsertedBehind(s, k, t);
    }
    hide Inserted, Fits;
  }

  lemma FitsTail(s: seq<Timer>, k: nat, t: Timer)
    requires Fits(s, k, t) && k > 0
    ensures Fits(s[1..], k - 1, t) && Deadline(s[0]) <= Deadline(t)
  {
    hide Deadline;
  }

  lemma FitsFrom(s: seq<Timer>, k: nat, t: Timer, p: nat)
    requires Fits(s, k, t) && p <= k
    ensures Fits(s[p..], k - p, t)
  {
    hide Deadline;
  }

  lemma MovedAhead(r: seq<Timer>, p: nat, m: nat, t: Timer)
    requires p <= |r| && m <= |r|
    ensures m <= p ==> Inserted(r, m, t)[p + 1..] == r[p..]
    ensures m > p ==> Inserted(r, m, t)[p..] == Inserted(r[p..], m - p, t)
  {
    InsertedIndex(r, m, t);
    if m > p {
      InsertedIndex(r[p..], m - p, t);
    }
    hide Inserted;
  }

  /** What lies ahead of the walk after a periodic timer has been moved on. */
  lemma MoveIsScheduled(r: seq<Timer>, p: nat, m: nat, t: Timer, e: S.Entry<Timer>)
    requires Fits(r, m, t) && p <= |r| && e.periodic && S.Later(e) == EntryOf(t)
    ensures WalkOn(p, m) <= |Inserted(r, m, t)|
    ensures Entries(Inserted(r, m, t)[WalkOn(p, m)..]) == S.Ahead([e] + Entries(r[p..]))
    ensures S.Parks([e] + Entries(r[p..])) <==> m <= p
  {
    var q := [e] + Entries(r[p..]);
    InsertedIndex(r, m, t);
    MovedAhead(r, p, m, t);
    EntriesIndex(r[p..]);
    assert q[1..] == Entries(r[p..]);
    ParksWhenBehind(r, p, m, t, e);
    if m > p {
      FitsFrom(r, m, t, p);
      EntriesPlaced(r[p..], m - p, t);
    }
    hide Inserted, Fits, Entries;
  }

  lemma ParksWhenBehind(r: seq<Timer>, p: nat, m: nat, t: Timer, e: S.Entry<Timer>)
    requires Fits(r, m, t) && p <= |r| && e.periodic && S.Later(e) == EntryOf(t)
    ensures S.Parks([e] + Entries(r[p..])) <==> m <= p
  {
    EntriesIndex(r[p..]);
    hide Entries;
    if p < |r| {
      assert r[p..][0] == r[p];
      assert ([e] + Entries(r[p..]))[1] == EntryOf(r[p]);
    }
  }

  /** One firing of the planned walk. */
  lemma WalkStep(e: seq<S.Entry<Timer>>, now: nat, log: seq<S.Firing<Timer>>)
    requires S.Due(e, now) && S.Advancing(e)
    ensures S.Advancing(S.Ahead(e))
    ensures log + S.Walk(e, now) == log + [S.FiringOf(e[0])] + S.Walk(S.Ahead(e), now)
    ensures S.Clean(e, now) <==> (S.Parks(e) ==> S.Later(e[0]).deadline > now) && S.Clean(S.Ahead(e), now)
  {
    S.FiredLoad(e, now);
    Assoc(log, [S.FiringOf(e[0])], S.Walk(S.Ahead(e), now));
  }

  lemma EntriesFrom(s: seq<Timer>, p: nat)
    requires p < |s|
    ensures Entries(s[p..]) == [EntryOf(s[p])] + Entries(s[p + 1..])
    ensures Entries(s[p..])[1..] == Entries(s[p + 1..])
  {
    assert s[p..][0] == s[p] && s[p..][1..] == s[p + 1..];
  }

  lemma RemovedTail(s: seq<Timer>, p: nat)
    requires p < |s|
    ensures Removed(s, p)[p..] == s[p + 1..] && Removed(s, p)[..p] == s[..p] && |Removed(s, p)| == |s| - 1
    ensures forall x :: x in Removed(s, p)[p..] ==> x in Removed(s, p)
  {
  }

  /** The timers passed are those passed before, and the current one if it has been parked. */
  ghost predicate Passed(now: seq<Timer>, before: seq<Timer>, t: Timer, parked: bool) {
    && (forall i :: 0 <= i < |now| ==> now[i] in before || (now[i] == t && parked))
    && (forall i :: 0 <= i < |before| ==> before[i] in now)
    && (parked ==> t in now)
  }

  lemma NothingPassed(s: seq<Timer>, p: nat)
    requires p < |s|
    ensures Removed(s, p)[..p] == s[..p] && Passed(s[..p], s[..p], s[p], false)
  {
  }

  lemma MovePasses(s: seq<Timer>, p: nat, m: nat)
    requires p < |s| && m < |s|
    ensures WalkOn(p, m) <= |Inserted(Removed(s, p), m, s[p])|
    ensures Passed(Inserted(Removed(s, p), m, s[p])[..WalkOn(p, m)], s[..p], s[p], m <= p)
  {
    RemovedIndex(s, p);
    InsertedIndex(Removed(s, p), m, s[p]);
    var r, q := Inserted(Removed(s, p), m, s[p]), WalkOn(p, m);
    hide Removed, Inserted;
    forall i | 0 <= i < q ensures r[i] in s[..p] || (r[i] == s[p] && m <= p) {
      if i < m { assert r[i] == s[..p][i]; } else if i > m { assert r[i] == s[..p][i - 1]; }
    }
    forall i | 0 <= i < p ensures s[i] in r[..q] {
      var j := if i < m then i else i + 1;
      assert r[..q][j] == s[i];
    }
    if m <= p { assert r[..q][m] == s[p]; }
  }

  /** The plan of a run is in order, as the list is. */
  lemma PlanIsOrdered(s: seq<Timer>)
    requires Sorted(s)
    ensures S.ByDeadline(Entries(s))
  {
    EntriesIndex(s);
    hide Entries, Deadline;
  }

  /** A timer with period 1, created at 0 and run at 10: it fires once, and is due again when the run ends. */
  method LateTimerStaysDue() returns (queue: Queue, t: Timer, log: seq<S.Firing<Timer>>)
    ensures log == [S.Firing(t, 1)] && t in queue.active && Deadline(t) == 2 && !NoneDue(queue.active, 10)
  {
    queue, t := LoneTimer();
    log := RunLoneTimer(queue, t);
    hide NoneDue;
  }

  method LoneTimer() returns (queue: Queue, t: Timer)
    ensures queue.Valid() && queue.active == [t] && t.periodic && t.usecs == 1
    ensures t.epoch == 0 && t.turns == 0 && Deadline(t) == 1
    ensures fresh(queue) && fresh(t)
  {
    hide Linked, Chained, Sorted, NormalTimes, Gridded;
    queue := new Queue();
    ghost var k;
    t, k := queue.Create(Time(0, 0), 1, true);
  }

  method RunLoneTimer(queue: Queue, t: Timer) returns (log: seq<S.Firing<Timer>>)
    requires queue.Valid() && queue.active == [t] && t.periodic && t.usecs == 1
    requires t.epoch == 0 && t.turns == 0 && Deadline(t) == 1
    modifies queue, t`prev, t`next, t`time, t`turns
    ensures log == [S.Firing(t, 1)] && t in queue.active && Deadline(t) == 2 && !NoneDue(queue.active, 10)
  {
    hide Entries, Queue.Valid;
    ghost var plan := Entries(queue.active);
    EntriesIndex(queue.active);
    ghost var turns := map x | x in queue.active :: x.turns;
    LoneWalk(plan, 10);
    hide S.Walk, S.Schedule, S.Alternates, S.Advancing, FiredTimers, InOrder, Queue.Tallied, NoneDue;
    log := queue.Run(Time(0, 10));
    AfterLoneRun(queue, t, turns, log);
  }

  lemma AfterLoneRun(queue: Queue, t: Timer, turns: map<Timer, nat>, log: seq<S.Firing<Timer>>)
    requires queue.Valid() && queue.Tallied([t], turns, log) && log == [S.Firing(t, 1)]
    requires t.periodic && t.usecs == 1 && t.epoch == 0 && t in turns && turns[t] == 0
    ensures t in queue.active && Deadline(t) == 2 && !NoneDue(queue.active, 10)
  {
    OneFiring(log, t, 1);
    hide Firings, Linked, Chained, Sorted, NormalTimes;
    assert t in [t];
    var i :| 0 <= i < |queue.active| && queue.active[i] == t;
    assert OnGrid(queue.active[i]);
  }

  lemma LoneWalk(plan: seq<S.Entry<Timer>>, now: nat)
    requires |plan| == 1 && plan[0].periodic && plan[0].period > 0 && plan[0].deadline <= now
    ensures S.Advancing(plan) && S.Walk(plan, now) == [S.FiringOf(plan[0])]
  {
    assert S.Parks(plan) && plan[1..] == [];
  }

  lemma OneFiring(log: seq<S.Firing<Timer>>, t: Timer, d: nat)
    ensures log == [S.Firing(t, d)] ==> Firings(log, t) == 1
  {
    if log == [S.Firing(t, d)] { assert log[..0] == []; }
  }
}
