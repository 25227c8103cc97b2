/** The virtual clock: a binary min-heap of scheduled callbacks with lazy cancellation, a horizon
 * and a same-instant stall tripwire. Every method is proved to be one step of the reference
 * scheduler in Scheduler.dfy. */
module VirtualClock {
  import opened Collections
  import opened LazyDeletion
  import opened Scheduler

  // ---------- heap order ----------

  function Parent(k: nat): nat {
    if k == 0 then 0 else (k - 1) / 2
  }

  /** Node `k` is not before its parent. */
  predicate Settled(h: seq<Event>, k: nat) {
    k < |h| && 0 < k ==> !Before(h[k], h[Parent(k)])
  }

  /** Node `k`, if it is a child of a non-root `i`, is not before the parent of `i`. */
  predicate Bridges(h: seq<Event>, i: nat, k: nat) {
    k < |h| && 0 < k && Parent(k) == i && 0 < i < |h| ==> !Before(h[k], h[Parent(i)])
  }

  ghost predicate HeapOrdered(h: seq<Event>) {
    forall k: nat :: Settled(h, k)
  }

  /** Heap order except that node `i` may be before its parent. */
  ghost predicate RisingAt(h: seq<Event>, i: nat) {
    forall k: nat :: (k != i ==> Settled(h, k)) && Bridges(h, i, k)
  }

  /** Heap order except that the children of node `i` may be before it. */
  ghost predicate SinkingAt(h: seq<Event>, i: nat) {
    forall k: nat :: (Parent(k) != i || k == 0 ==> Settled(h, k)) && Bridges(h, i, k)
  }

  lemma RiseStep(h: seq<Event>, i: nat)
    requires 0 < i < |h| && RisingAt(h, i) && Before(h[i], h[Parent(i)])
    ensures RisingAt(Swapped(h, i, Parent(i)), Parent(i))
  {
    var p := Parent(i);
    var r := Swapped(h, i, p);
    forall k: nat ensures (k != p ==> Settled(r, k)) && Bridges(r, p, k) {
      assert Settled(h, k) || k == i;
      assert Bridges(h, i, k);
      assert p != 0 ==> Settled(h, p);
    }
  }

  lemma SinkStep(h: seq<Event>, i: nat, c: nat)
    requires i < c < |h| && Parent(c) == i && SinkingAt(h, i) && Before(h[c], h[i])
    requires forall k: nat | Sibling(h, i, k) :: !Before(h[k], h[c])
    ensures SinkingAt(Swapped(h, i, c), c)
  {
    var r := Swapped(h, i, c);
    forall k: nat ensures (Parent(k) != c || k == 0 ==> Settled(r, k)) && Bridges(r, c, k) {
      assert Parent(k) != i || k == 0 ==> Settled(h, k);
      assert Bridges(h, i, k) && Bridges(h, i, c);
      assert Sibling(h, i, k) ==> !Before(h[k], h[c]);
    }
  }

  predicate Sibling(h: seq<Event>, i: nat, k: nat) {
    0 < k < |h| && Parent(k) == i
  }

  ghost predicate DistinctIds(h: seq<Event>) {
    forall i, j | 0 <= i < j < |h| :: h[i].id != h[j].id
  }

  function Swapped(h: seq<Event>, i: nat, j: nat): (r: seq<Event>)
    requires i < |h| && j < |h|
    ensures multiset(r) == multiset(h)
  {
    SwapKeepsElements(h, i, j);
    h[i := h[j]][j := h[i]]
  }

  lemma SwapKeepsElements(h: seq<Event>, i: nat, j: nat)
    requires i < |h| && j < |h|
    ensures multiset(h[i := h[j]][j := h[i]]) == multiset(h)
  {}

  /** The root of a heap is its least element. */
  lemma {:induction false} RootIsLeast(h: seq<Event>, k: nat)
    requires HeapOrdered(h) && k < |h|
    ensures !Before(h[k], h[0])
  {
    if k > 0 {
      RootIsLeast(h, Parent(k));
      assert Settled(h, k);
    }
  }

  lemma SameElements(h: seq<Event>, r: seq<Event>)
    requires multiset(h) == multiset(r)
    ensures |h| == |r|
    ensures forall e :: e in h <==> e in r
    ensures DistinctIds(h) ==> DistinctIds(r)
  {
    assert |multiset(h)| == |multiset(r)|;
    assert forall e :: e in h <==> e in multiset(h);
    assert forall e :: e in r <==> e in multiset(r);
    if DistinctIds(h) {
      forall i, j | 0 <= i < j < |r| ensures r[i].id != r[j].id {
        if r[i].id == r[j].id {
          assert r[i] in h && r[j] in h;
          assert r[i] == r[j];
          TwiceInside(r, i, j);
          AtMostOnce(h, r[i]);
        }
      }
    }
  }

  lemma TwiceInside(r: seq<Event>, i: nat, j: nat)
    requires i < j < |r| && r[i] == r[j]
    ensures multiset(r)[r[i]] >= 2
  {
    assert r == r[..j] + [r[j]] + r[j + 1..];
    assert r[i] == r[..j][i];
    assert r[i] in multiset(r[..j]);
  }

  lemma {:induction false} AtMostOnce(h: seq<Event>, e: Event)
    requires DistinctIds(h)
    ensures multiset(h)[e] <= 1
  {
    if h != [] {
      AtMostOnce(h[1..], e);
      assert h == [h[0]] + h[1..];
      if e == h[0] {
        assert e !in h[1..];
      }
    }
  }

  /** What `Schedule` answers: a cancellation handle, or one of the two refusals. */
  datatype Scheduled = Handle(id: int) | RefusedNonFinite | RefusedPast

  lemma SinkAfterPop(h: seq<Event>)
    requires |h| > 1 && HeapOrdered(h)
    ensures SinkingAt(h[..|h| - 1][0 := h[|h| - 1]], 0)
  {
    var r := h[..|h| - 1][0 := h[|h| - 1]];
    forall k: nat ensures (Parent(k) != 0 || k == 0 ==> Settled(r, k)) && Bridges(r, 0, k) {
      assert Settled(h, k);
    }
  }

  class Clock {
    var heap: seq<Event>
    var now: int
    var nextId: int
    /** Cancelled ids whose event may still be heaped. */
    var cancelled: set<int>
    /** Events executed so far. */
    var events: nat
    var sameInstant: nat
    const bound: nat
    /** Every id ever cancelled; `cancelled` forgets one when its event surfaces. */
    ghost var revoked: set<int>

    ghost predicate Valid()
      reads this
    {
      && 1 <= nextId
      && HeapOrdered(heap) && DistinctIds(heap)
      && (forall e <- heap :: now <= e.time && 1 <= e.id < nextId)
      && cancelled <= revoked
      && (forall e <- heap :: e.id in revoked ==> e.id in cancelled)
      && (forall id <- revoked :: nextId <= id ==> id in cancelled)
    }

    /** The scheduler state this heap stands for. */
    ghost function Abs(): Sched
      reads this
    {
      Sched(now, nextId, (set e | e in heap && e.id !in cancelled), revoked, sameInstant)
    }

    ghost function Heaped(): set<Event>
      reads `heap
    {
      set e | e in heap
    }

    /** Every cancelled id the clock remembers belongs to an event still heaped. */
    ghost predicate Exact()
      reads `heap, `cancelled
    {
      cancelled <= Ids(Heaped())
    }

    /** No handle was cancelled before it was issued. */
    ghost predicate Issued()
      reads `revoked, `nextId
    {
      forall id <- revoked :: id < nextId
    }

    lemma AbsValid()
      requires Valid()
      ensures Scheduler.Valid(Abs())
    {}

    constructor (bound: nat)
      ensures Valid() && Abs() == Sched(0, 1, {}, {}, 0)
      ensures this.bound == bound && events == 0 && Heaped() == {} && Exact() && Issued()
    {
      heap, now, nextId, cancelled, events, sameInstant := [], 0, 1, {}, 0, 0;
      this.bound := bound;
      revoked := {};
    }

    predicate Less(a: nat, b: nat)
      requires a < |heap| && b < |heap|
      reads this
    {
      Before(heap[a], heap[b])
    }

    method SiftUp(start: nat)
      requires start < |heap| && RisingAt(heap, start)
      modifies this`heap
      ensures HeapOrdered(heap) && multiset(heap) == multiset(old(heap))
    {
      var i := start;
      while i > 0
        invariant 0 <= i < |heap| && multiset(heap) == multiset(old(heap))
        invariant RisingAt(heap, i)
      {
        var parent := (i - 1) / 2;
        if !Less(i, parent) {
          assert Settled(heap, i);
          return;
        }
        RiseStep(heap, i);
        heap := Swapped(heap, i, parent);
        i := parent;
      }
      assert Settled(heap, 0);
    }

    method SiftDown()
      requires heap != [] && SinkingAt(heap, 0)
      modifies this`heap
      ensures HeapOrdered(heap) && multiset(heap) == multiset(old(heap))
    {
      var i := 0;
      while true
        invariant 0 <= i < |heap| && multiset(heap) == multiset(old(heap))
        invariant SinkingAt(heap, i)
        decreases |heap| - i
      {
        var smallest := i;
        var left, right := 2 * i + 1, 2 * i + 2;
        if left < |heap| && Less(left, smallest) { smallest := left; }
        if right < |heap| && Less(right, smallest) { smallest := right; }
        assert forall k: nat | Sibling(heap, i, k) :: k == left || k == right;
        if smallest == i {
          forall k: nat ensures Settled(heap, k) {
            assert Sibling(heap, i, k) || Parent(k) != i || k == 0 || k >= |heap|;
          }
          return;
        }
        SinkStep(heap, i, smallest);
        heap := Swapped(heap, i, smallest);
        i := smallest;
      }
    }

    /** Remove the root. */
    method Pop()
      requires heap != [] && HeapOrdered(heap)
      modifies this`heap
      ensures HeapOrdered(heap)
      ensures multiset(heap) == multiset(old(heap)) - multiset{old(heap)[0]}
    {
      var last := heap[|heap| - 1];
      ghost var h := heap;
      assert h == h[..|h| - 1] + [last];
      heap := heap[..|heap| - 1];
      if |heap| > 0 {
        assert h == [h[0]] + h[1..|h| - 1] + [last];
        heap := heap[0 := last];
        assert heap == [last] + h[1..|h| - 1];
        SinkAfterPop(h);
        SiftDown();
      }
    }

    /** Schedule `fn`, or refuse a non-finite or past deadline and change nothing. */
    method Schedule(time: Deadline, fn: int) returns (r: Scheduled)
      requires Valid()
      modifies this
      ensures Valid() && Abs() == Apply(old(Abs()), At(time, fn))
      ensures events == old(events)
      ensures Heaped() == HeapAfter(old(Abs()), old(Heaped()), At(time, fn))
      ensures old(Exact()) ==> Exact()
      ensures old(Issued()) ==> Issued() && (Exact() ==> old(Exact()))
      ensures r == (if time.NonFinite? then RefusedNonFinite
                    else if time.t < old(now) then RefusedPast
                    else Handle(old(nextId)))
    {
      if time.NonFinite? { return RefusedNonFinite; }
      if time.t < now { return RefusedPast; }
      var id := nextId;
      var e := Event(time.t, id, fn);
      nextId := nextId + 1;
      ghost var h := heap;
      heap := heap + [e];
      assert RisingAt(heap, |heap| - 1) by {
        forall k: nat ensures (k != |h| ==> Settled(heap, k)) && Bridges(heap, |h|, k) {
          assert Settled(h, k);
        }
      }
      ghost var pushed := heap;
      assert DistinctIds(pushed);
      assert forall x :: x in pushed <==> x in h || x == e;
      SiftUp(|heap| - 1);
      SameElements(pushed, heap);
      assert forall x :: x in heap <==> x in h || x == e;
      assert e.id in cancelled <==> e.id in revoked;
      return Handle(id);
    }

    /** Schedule `fn` a delay from now. */
    method ScheduleIn(delay: Deadline, fn: int) returns (r: Scheduled)
      requires Valid()
      modifies this
      ensures Valid() && Abs() == Apply(old(Abs()), In(delay, fn))
      ensures events == old(events)
      ensures Heaped() == HeapAfter(old(Abs()), old(Heaped()), In(delay, fn))
      ensures old(Exact()) ==> Exact()
      ensures old(Issued()) ==> Issued() && (Exact() ==> old(Exact()))
      ensures r == (if delay.NonFinite? then RefusedNonFinite
                    else if delay.t < 0 then RefusedPast
                    else Handle(old(nextId)))
    {
      r := Schedule(if delay.NonFinite? then NonFinite else Finite(now + delay.t), fn);
    }

    /** Revoke a handle, whether or not its event is still heaped. */
    method Cancel(id: int)
      requires Valid()
      modifies this
      ensures Valid() && Abs() == Apply(old(Abs()), Op.Cancel(id))
      ensures events == old(events) && Heaped() == old(Heaped())
      ensures Exact() <==> old(Exact()) && Hits(old(Heaped()), Op.Cancel(id))
      ensures old(Issued()) && id < old(nextId) ==> Issued()
    {
      cancelled := cancelled + {id};
      revoked := revoked + {id};
    }

    /** The root precedes everything else heaped. */
    lemma RootFirst()
      requires Valid() && heap != []
      ensures forall x <- heap :: x == heap[0] || Before(heap[0], x)
      ensures heap[0] in Heaped() && forall x <- Heaped() :: x == heap[0] || Before(heap[0], x)
    {
      forall x <- heap ensures x == heap[0] || Before(heap[0], x) {
        var k :| 0 <= k < |heap| && heap[k] == x;
        RootIsLeast(heap, k);
      }
    }

    /** Drop the cancelled event at the top. */
    method DropHead()
      requires Valid() && heap != [] && heap[0].id in cancelled
      modifies this`heap, this`cancelled
      ensures Valid() && Abs() == old(Abs()) && |heap| < |old(heap)|
      ensures Heaped() == old(Heaped()) - {old(heap)[0]} && (Exact() <==> old(Exact()))
    {
      var next := heap[0];
      ghost var h := heap;
      DropExact(Heaped(), next, cancelled);
      cancelled := cancelled - {next.id};
      Pop();
      PopRemoves(h, heap);
      assert Heaped() == (set e | e in h) - {next};
    }

    /** Take the live event at the top. */
    method TakeHead()
      requires Valid() && heap != [] && heap[0].id !in cancelled
      modifies this`heap
      ensures Valid() && |heap| < |old(heap)| && forall x <- heap :: x in old(heap)
      ensures Heaped() == old(Heaped()) - {old(heap)[0]} && (Exact() <==> old(Exact()))
      ensures Abs().live == old(Abs()).live - {old(heap)[0]}
    {
      ghost var h := heap;
      Pop();
      PopRemoves(h, heap);
      assert Heaped() == (set e | e in h) - {h[0]};
    }

    /** Pop the earliest live event, dropping cancelled ones without advancing time past them. */
    method TakeNext(horizon: int) returns (taken: Taken)
      requires Valid()
      modifies this
      ensures Valid()
      ensures Scheduler.Valid(old(Abs())) && (Abs(), taken) == Take(old(Abs()), horizon, bound)
      ensures events == old(events) + if taken.Next? then 1 else 0
      ensures Heaped() == HeapAfterTake(old(Abs()), old(Heaped()), horizon)
      ensures (Exact() <==> old(Exact())) && (Issued() <==> old(Issued()))
    {
      hide Exact, Ids;
      AbsValid();
      ghost var all := Heaped();
      while true
        invariant Valid() && Abs() == old(Abs()) && events == old(events)
        invariant Surfaced(all, Heaped(), Abs().live) && (Exact() <==> old(Exact()))
        decreases |heap|
      {
        if heap == [] {
          NoneLeft(all, Abs().live);
          return Empty;
        }
        RootFirst();
        var next := heap[0];
        if next.id in cancelled {
          SurfacedMore(all, Heaped(), Abs().live, next);
          DropHead();
          continue;
        }
        assert next in Abs().live && IsLeast(next, Abs().live);
        OnlyLater(all, Heaped(), Abs().live, next);
        if next.time > horizon {
          now := horizon;
          return Horizon;
        }
        TakeHead();
        if next.time == now {
          sameInstant := sameInstant + 1;
          if sameInstant > bound { return Stalled(next); }
        } else {
          sameInstant := 0;
        }
        now := next.time;
        events := events + 1;
        return Next(next);
      }
    }

    /** One callback's clock operations; a refused one changes nothing. */
    method Perform(ops: seq<Op>)
      requires Valid()
      modifies this
      ensures Valid() && Abs() == ApplyAll(old(Abs()), ops)
      ensures events == old(events)
      ensures Heaped() == HeapAfterAll(old(Abs()), old(Heaped()), ops)
      ensures old(Exact()) && HitsAll(old(Abs()), old(Heaped()), ops) ==> Exact()
      ensures old(Issued()) && IssuedAll(old(Abs()), ops) ==>
                Issued() && (Exact() <==> old(Exact()) && HitsAll(old(Abs()), old(Heaped()), ops))
    {
      hide Exact, Issued, Heaped, HeapAfter, Hits, Apply;
      var k := 0;
      ghost var hit, issued := true, true;
      while k < |ops|
        invariant 0 <= k <= |ops| && Valid() && events == old(events)
        invariant ApplyAll(Abs(), ops[k..]) == ApplyAll(old(Abs()), ops)
        invariant HeapAfterAll(Abs(), Heaped(), ops[k..]) == HeapAfterAll(old(Abs()), old(Heaped()), ops)
        invariant hit && HitsAll(Abs(), Heaped(), ops[k..]) <==> HitsAll(old(Abs()), old(Heaped()), ops)
        invariant issued && IssuedAll(Abs(), ops[k..]) <==> IssuedAll(old(Abs()), ops)
        invariant old(Exact()) && hit ==> Exact()
        invariant old(Issued()) && issued ==> Issued() && (Exact() <==> old(Exact()) && hit)
      {
        assert ops[k..][1..] == ops[k + 1..] && ops[k..][0] == ops[k];
        hit := hit && Hits(Heaped(), ops[k]);
        issued := issued && (ops[k].Cancel? ==> ops[k].id < nextId);
        One(ops[k]);
        k := k + 1;
      }
    }

    /** One clock operation. */
    method One(op: Op)
      requires Valid()
      modifies this
      ensures Valid() && Abs() == Apply(old(Abs()), op)
      ensures events == old(events)
      ensures Heaped() == HeapAfter(old(Abs()), old(Heaped()), op)
      ensures old(Exact()) && Hits(old(Heaped()), op) ==> Exact()
      ensures old(Issued()) && (op.Cancel? ==> op.id < old(nextId)) ==>
                Issued() && (Exact() <==> old(Exact()) && Hits(old(Heaped()), op))
    {
      hide Exact, Issued, Heaped, Ids, Apply;
      match op {
        case At(d, fn) => var _ := Schedule(d, fn);
        case In(d, fn) => var _ := ScheduleIn(d, fn);
        case Cancel(id) => Cancel(id);
      }
    }

    /** Pop and run events until the goal, an empty queue, the horizon, a stall or a throw. If only heaped handles are
        cancelled the clock keeps counting its live events; if only issued ones are, it counts them exactly if every
        one of them was heaped. */
    method Run(react: Callbacks, until: Goal, horizon: int) returns (trace: seq<Event>, why: Why)
      requires Valid()
      modifies this
      ensures Valid() && Scheduler.Valid(old(Abs()))
      ensures Scheduler.Run(Abs(), trace, why) == Play(old(Abs()), [], react, until, horizon, bound)
      ensures events == old(events) + |trace|
      ensures var lazy := Lazily(old(Abs()), old(Heaped()), [], react, until, horizon, bound);
        && Heaped() == lazy.heaped
        && (old(Exact()) && lazy.hit ==> Exact())
        && (old(Issued()) && lazy.issued ==> Issued() && (Exact() <==> old(Exact()) && lazy.hit))
    {
      hide Exact, Issued, Heaped, HeapAfterTake, Take, ApplyAll, Apply, HeapOrdered, DistinctIds, HitsAll, IssuedAll;
      hide HeapAfterAll;
      trace := [];
      AbsValid();
      ghost var hit, issued := true, true;
      ghost var lazy := Lazily(Abs(), Heaped(), [], react, until, horizon, bound);
      while true
        invariant Valid() && Scheduler.Valid(Abs())
        invariant Play(Abs(), trace, react, until, horizon, bound) == Play(old(Abs()), [], react, until, horizon, bound)
        invariant events == old(events) + |trace|
        invariant Rest(Lazily(Abs(), Heaped(), trace, react, until, horizon, bound), hit, issued) == lazy
        invariant old(Exact()) && hit ==> Exact()
        invariant old(Issued()) && issued ==> Issued() && (Exact() <==> old(Exact()) && hit)
        decreases horizon - now, bound - sameInstant
      {
        if until(trace) { return trace, ReachedGoal; }
        ghost var before := Abs();
        var taken := TakeNext(horizon);
        match taken {
          case Empty => return trace, RanDry;
          case Horizon => return trace, ReachedHorizon;
          case Stalled(e) => return trace, ClockStalled(e);
          case Next(e) =>
            ghost var _, _, _ := Step(before, trace, react, horizon, bound);
            trace := trace + [e];
            var reaction := react(trace);
            ghost var after := Abs();
            ApplyAllValid(after, reaction.ops);
            hit := hit && HitsAll(after, Heaped(), reaction.ops);
            issued := issued && IssuedAll(after, reaction.ops);
            Perform(reaction.ops);
            if reaction.throws { return trace, Threw; }
        }
      }
    }

    /** Live scheduled events, as the clock reports them. */
    function Pending(): int
      reads this
    {
      |heap| - |cancelled|
    }

    ghost function HeapedIds(): set<int>
      reads this
    {
      set e | e in heap :: e.id
    }

    lemma SameHeapedIds()
      ensures HeapedIds() == Ids(Heaped())
    {
    }

    /** `Pending` is short by the cancelled handles that are no longer heaped, so it is the number
        of live events exactly when only heaped handles were cancelled. */
    lemma PendingCountsLive()
      requires Valid()
      ensures Pending() == |Abs().live| - |cancelled - HeapedIds()|
      ensures Pending() == |Abs().live| <==> Exact()
    {
      DistinctSize(heap);
      DeadAndLive(heap, cancelled);
      EmptyDifference(cancelled, HeapedIds());
      SameHeapedIds();
    }
  }

  /** Cancelling a handle after its event ran is what makes `Pending` drift: here it reports less than nothing. */
  method CancelledTooLate() returns (c: Clock)
    ensures c.Valid() && c.Issued() && c.Abs().live == {} && c.Pending() < |c.Abs().live|
  {
    c := new Clock(1);
    hide Ids, HeapAfter;
    var scheduled := c.Schedule(Finite(5), 0);
    ghost var e := Event(5, 1, 0);
    assert c.Abs() == Sched(0, 2, {e}, {}, 0) && c.Heaped() == {e};
    TakeLeast(c.Abs(), e, 10, 1);
    var taken := c.TakeNext(10);
    assert c.Heaped() == {};
    c.Cancel(scheduled.id);
    c.PendingCountsLive();
  }

  lemma EmptyDifference<T>(a: set<T>, b: set<T>)
    ensures |a - b| == 0 <==> a <= b
  {
    if |a - b| == 0 {
      forall x <- a ensures x in b {
        assert x !in a - b;
      }
    } else {
      var x :| x in a - b;
    }
  }

  /** Heaped events split into live ones and those whose handle is cancelled. */
  lemma DeadAndLive(h: seq<Event>, cancelled: set<int>)
    requires DistinctIds(h)
    ensures var ids := set e | e in h :: e.id;
      |set e | e in h| == |set e | e in h && e.id !in cancelled| + |cancelled| - |cancelled - ids|
  {
    var dead := set e | e in h && e.id in cancelled;
    var live := set e | e in h && e.id !in cancelled;
    DisjointUnion(dead, live);
    assert dead + live == set e | e in h;
    CancelledSplit(h, cancelled);
  }

  /** Cancelled ids are those of dead events and those no longer heaped. */
  lemma CancelledSplit(h: seq<Event>, cancelled: set<int>)
    requires DistinctIds(h)
    ensures |cancelled| == |set e | e in h && e.id in cancelled| + |cancelled - (set e | e in h :: e.id)|
  {
    var ids := set e | e in h :: e.id;
    var dead := set e | e in h && e.id in cancelled;
    var deadIds := set e | e in dead :: e.id;
    SameSize(dead);
    DisjointUnion(deadIds, cancelled - ids);
    assert deadIds + (cancelled - ids) == cancelled;
  }

  lemma PopRemoves(h: seq<Event>, r: seq<Event>)
    requires h != [] && DistinctIds(h) && multiset(r) == multiset(h) - multiset{h[0]}
    ensures DistinctIds(r) && |r| < |h|
    ensures forall e :: e in r <==> e in h && e != h[0]
  {
    assert h == [h[0]] + h[1..];
    assert multiset(r) == multiset(h[1..]);
    SameElements(h[1..], r);
  }

  lemma {:induction false} DistinctSize(h: seq<Event>)
    requires DistinctIds(h)
    ensures |set e | e in h| == |h|
  {
    if h != [] {
      var rest := h[1..];
      DistinctSize(rest);
      assert (set e | e in h) == (set e | e in rest) + {h[0]};
    }
  }

  lemma {:induction false} SameSize(events: set<Event>)
    requires forall a <- events, b <- events :: a.id == b.id ==> a == b
    ensures |set e | e in events :: e.id| == |events|
  {
    if events != {} {
      var e :| e in events;
      var rest := events - {e};
      SameSize(rest);
      var ids := set x | x in rest :: x.id;
      assert (set x | x in events :: x.id) == ids + {e.id};
      assert e.id !in ids;
    }
  }
}
