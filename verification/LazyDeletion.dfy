/** What lazy deletion leaves in the heap of `Clock` (sim/clock.ts), beside the reference scheduler: an event stays
    heaped after its handle is cancelled, until it surfaces at the top. */
module LazyDeletion {
  import opened Scheduler

  ghost function Ids(heaped: set<Event>): set<int> {
    set e | e in heaped :: e.id
  }

  /** Scheduling heaps an event; cancelling takes nothing out. */
  ghost function HeapAfter(s: Sched, heaped: set<Event>, op: Op): set<Event> {
    if op.Cancel? || !Accepts(s.now, Resolve(s.now, op)) then heaped
    else heaped + {Event(Resolve(s.now, op).t, s.nextId, op.fn)}
  }

  /** Taking drops the cancelled events that surface before the least live one, and that one if it is due. */
  ghost function HeapAfterTake(s: Sched, heaped: set<Event>, horizon: int): set<Event>
    requires Valid(s)
  {
    if s.live == {} then {}
    else
      var e := Least(s.live);
      if horizon < e.time then set x | x in heaped && (x == e || Before(e, x))
      else set x | x in heaped && Before(e, x)
  }

  ghost function HeapAfterAll(s: Sched, heaped: set<Event>, ops: seq<Op>): set<Event>
    decreases |ops|
  {
    if ops == [] then heaped else HeapAfterAll(Apply(s, ops[0]), HeapAfter(s, heaped, ops[0]), ops[1..])
  }

  /** The operation does not cancel a handle whose event has left the heap. */
  ghost predicate Hits(heaped: set<Event>, op: Op) {
    op.Cancel? ==> op.id in Ids(heaped)
  }

  ghost predicate HitsAll(s: Sched, heaped: set<Event>, ops: seq<Op>)
    decreases |ops|
  {
    ops != [] ==> Hits(heaped, ops[0]) && HitsAll(Apply(s, ops[0]), HeapAfter(s, heaped, ops[0]), ops[1..])
  }

  /** Only handles that were issued are cancelled. */
  ghost predicate IssuedAll(s: Sched, ops: seq<Op>)
    decreases |ops|
  {
    ops != [] ==> (ops[0].Cancel? ==> ops[0].id < s.nextId) && IssuedAll(Apply(s, ops[0]), ops[1..])
  }

  /** What a whole run leaves heaped, whether each of its cancellations hit a heaped handle, and whether each was of an
      issued one. */
  datatype Lazy = Lazy(heaped: set<Event>, hit: bool, issued: bool)

  ghost function Lazily(
    s: Sched, heaped: set<Event>, trace: seq<Event>, react: Callbacks, until: Goal, horizon: int, bound: nat): Lazy
    requires Valid(s)
    decreases horizon - s.now, bound - s.same
  {
    if until(trace) then Lazy(heaped, true, true)
    else
      var (s1, taken) := Take(s, horizon, bound);
      var heaped1 := HeapAfterTake(s, heaped, horizon);
      if !taken.Next? then Lazy(heaped1, true, true)
      else
        TakeValid(s, horizon, bound);
        var trace1 := trace + [taken.event];
        var reaction := react(trace1);
        ApplyAllValid(s1, reaction.ops);
        var hit, issued := HitsAll(s1, heaped1, reaction.ops), IssuedAll(s1, reaction.ops);
        var heaped2 := HeapAfterAll(s1, heaped1, reaction.ops);
        if reaction.throws then Lazy(heaped2, hit, issued)
        else
          var rest := Lazily(ApplyAll(s1, reaction.ops), heaped2, trace1, react, until, horizon, bound);
          Lazy(rest.heaped, hit && rest.hit, issued && rest.issued)
  }

  /** Dropping a cancelled event and forgetting its id does not change whether only heaped handles are cancelled. */
  lemma DropExact(heaped: set<Event>, e: Event, cancelled: set<int>)
    requires e in heaped && e.id in cancelled && forall x <- heaped, y <- heaped :: x.id == y.id ==> x == y
    ensures cancelled - {e.id} <= Ids(heaped - {e}) <==> cancelled <= Ids(heaped)
  {
    assert Ids(heaped) == Ids(heaped - {e}) + {e.id};
    assert e.id !in Ids(heaped - {e});
  }

  /** What has surfaced is not live and precedes what is left. */
  ghost predicate Surfaced(all: set<Event>, left: set<Event>, live: set<Event>) {
    && left <= all && live <= left
    && forall x <- all - left :: x !in live && forall y <- left :: Before(x, y)
  }

  lemma SurfacedMore(all: set<Event>, left: set<Event>, live: set<Event>, next: Event)
    requires Surfaced(all, left, live) && next in left && next !in live
    requires forall x <- left :: x == next || Before(next, x)
    ensures Surfaced(all, left - {next}, live)
  {
  }

  lemma NoneLeft(all: set<Event>, live: set<Event>)
    requires Surfaced(all, {}, live)
    ensures live == {}
  {
  }

  /** When the least event is live, what is left of the heap is that event and what comes after it. */
  lemma OnlyLater(all: set<Event>, left: set<Event>, live: set<Event>, next: Event)
    requires Surfaced(all, left, live) && next in live && IsLeast(next, live)
    requires forall x <- left :: x == next || Before(next, x)
    requires forall a <- live, b <- live :: a.id == b.id ==> a == b
    ensures Least(live) == next
    ensures left == set x | x in all && (x == next || Before(next, x))
    ensures left - {next} == set x | x in all && Before(next, x)
  {
  }

  /** A run's record, after a beginning that did or did not keep to heaped and to issued handles. */
  ghost function Rest(lazy: Lazy, hit: bool, issued: bool): Lazy {
    Lazy(lazy.heaped, hit && lazy.hit, issued && lazy.issued)
  }
}
