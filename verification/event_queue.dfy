/** The tick-driven event queue (`EventQueue`): a list of [countdown, handler]
    pairs kept in ascending countdown order. One tick (`dequeue_if_ready`)
    pops and fires head entries while the head's countdown is 0, then takes
    one tick off every entry left. Firing a handler is a parameter: it yields
    the handler's new state and the entries it enqueued, in order. */
module EventQueue {
  import opened Wrappers

  datatype Entry<H> = Entry(countdown: int, handler: H)

  type Queue<H> = seq<Entry<H>>

  /** What firing one handler produced: the new state and what it enqueued, in order. */
  datatype Fired<S, H> = Fired(state: S, regs: seq<Entry<H>>)

  /** A finished drain: the final state, the queue left behind, and the popped entries in firing order. */
  datatype Drained<S, H> = Drained(state: S, queue: Queue<H>, fired: seq<Entry<H>>)

  ghost predicate Sorted<H>(q: Queue<H>)
  {
    forall i, j :: 0 <= i < j < |q| ==> q[i].countdown <= q[j].countdown
  }

  ghost predicate NonNegative<H>(q: Queue<H>)
  {
    forall i :: 0 <= i < |q| ==> q[i].countdown >= 0
  }

  /** Where `enqueue` inserts: before the first entry whose countdown is strictly greater. */
  function InsertionPoint<H>(q: Queue<H>, when: int): (i: nat)
    ensures i <= |q|
    ensures forall k :: 0 <= k < i ==> q[k].countdown <= when
    ensures i < |q| ==> when < q[i].countdown
  {
    if q == [] || when < q[0].countdown then 0 else 1 + InsertionPoint(q[1..], when)
  }

  /** The insertion point is the only index with its two properties. */
  lemma InsertionPointUnique<H>(q: Queue<H>, when: int, i: nat)
    requires i <= |q|
    requires forall k :: 0 <= k < i ==> q[k].countdown <= when
    requires i < |q| ==> when < q[i].countdown
    ensures InsertionPoint(q, when) == i
  {
  }

  /** `enqueue(when, obj)`: one new entry at the insertion point, every other entry kept in order. */
  function Enqueue<H>(q: Queue<H>, when: int, h: H): (r: Queue<H>)
    ensures |r| == |q| + 1
    ensures multiset(r) == multiset(q) + multiset{Entry(when, h)}
  {
    var i := InsertionPoint(q, when);
    assert q == q[..i] + q[i..];
    q[..i] + [Entry(when, h)] + q[i..]
  }

  /** Where everything lands: the new entry at the insertion point, the
      entries before it in place, the entries after it shifted by one. */
  lemma EnqueueShape<H>(q: Queue<H>, when: int, h: H)
    ensures var r := Enqueue(q, when, h); var i := InsertionPoint(q, when);
            && r[i] == Entry(when, h)
            && (forall k :: 0 <= k < i ==> r[k] == q[k])
            && (forall k :: i < k < |r| ==> r[k] == q[k - 1])
  {
    var i := InsertionPoint(q, when);
    var r := Enqueue(q, when, h);
    assert r == q[..i] + [Entry(when, h)] + q[i..];
    forall k | 0 <= k < i
      ensures r[k] == q[k]
    {
      assert r[k] == q[..i][k];
    }
    forall k | i < k < |r|
      ensures r[k] == q[k - 1]
    {
      assert r[k] == q[i..][k - i - 1];
    }
  }

  /** An entry due strictly before the head of the queue goes first. */
  lemma EnqueueFront<H>(q: Queue<H>, when: int, h: H)
    requires q == [] || when < q[0].countdown
    ensures Enqueue(q, when, h) == [Entry(when, h)] + q
  {
    assert InsertionPoint(q, when) == 0;
    assert q[..0] == [] && q[0..] == q;
  }

  /** In a sorted queue, an entry due no earlier than the last one is
      appended: the `else` branch of the scan. */
  lemma EnqueueBack<H>(q: Queue<H>, when: int, h: H)
    requires Sorted(q) && (q == [] || q[|q| - 1].countdown <= when)
    ensures Enqueue(q, when, h) == q + [Entry(when, h)]
  {
    InsertionPointUnique(q, when, |q|);
    assert q[..|q|] == q && q[|q|..] == [];
  }

  /** Two entries registered with the same delay keep their registration
      order, and an entry registered later with a shorter delay goes before
      both. */
  lemma TiedThenSooner<H>(a: H, b: H, c: H, later: int, sooner: int)
    requires sooner < later
    ensures Enqueue(Enqueue(Enqueue([], later, a), later, b), sooner, c)
            == [Entry(sooner, c), Entry(later, a), Entry(later, b)]
  {
    var q2 := [Entry(later, a), Entry(later, b)];
    TiedPair(a, b, later);
    EnqueueFront(q2, sooner, c);
  }

  /** Two registrations with the same delay into an empty queue, in registration order. */
  lemma TiedPair<H>(a: H, b: H, later: int)
    ensures Enqueue(Enqueue([], later, a), later, b) == [Entry(later, a), Entry(later, b)]
  {
    var q1 := Enqueue([], later, a);
    assert q1 == [Entry(later, a)] by { EnqueueFront([], later, a); }
    EnqueueBack(q1, later, b);
  }

  /** The queue those three registrations leave is in order, and holds no
      negative countdown when the delays are not negative. */
  lemma TiedThenSoonerOrdered<H>(a: H, b: H, c: H, later: int, sooner: int)
    requires sooner < later
    ensures var r := Enqueue(Enqueue(Enqueue([], later, a), later, b), sooner, c);
            Sorted(r) && (0 <= sooner ==> NonNegative(r))
  {
    TiedThenSooner(a, b, c, later, sooner);
    OrderedTriple(Entry(sooner, c), Entry(later, a), Entry(later, b));
  }

  /** Three entries in countdown order form a sorted queue. */
  lemma OrderedTriple<H>(x: Entry<H>, y: Entry<H>, z: Entry<H>)
    requires x.countdown <= y.countdown <= z.countdown
    ensures Sorted([x, y, z])
    ensures 0 <= x.countdown ==> NonNegative([x, y, z])
  {
    var r := [x, y, z];
    assert r[0] == x && r[1] == y && r[2] == z;
  }

  /** The `for ... else` scan of `enqueue`, step by step: insert before the
      first strictly greater countdown, or append when there is none. */
  method EnqueueScan<H>(q: Queue<H>, when: int, h: H) returns (r: Queue<H>)
    ensures r == Enqueue(q, when, h)
  {
    var i := 0;
    while i < |q|
      invariant 0 <= i <= |q|
      invariant forall k :: 0 <= k < i ==> q[k].countdown <= when
    {
      if when < q[i].countdown {
        InsertionPointUnique(q, when, i);
        return q[..i] + [Entry(when, h)] + q[i..];
      }
      i := i + 1;
    }
    InsertionPointUnique(q, when, |q|);
    assert q[|q|..] == [];
    return q + [Entry(when, h)];
  }

  /** `enqueue` keeps the list sorted by countdown. */
  lemma EnqueueKeepsSorted<H>(q: Queue<H>, when: int, h: H)
    requires Sorted(q)
    ensures Sorted(Enqueue(q, when, h))
  {
    var r := Enqueue(q, when, h);
    var p := InsertionPoint(q, when);
    EnqueueShape(q, when, h);
    forall i, j | 0 <= i < j < |r|
      ensures r[i].countdown <= r[j].countdown
    {
      if j < p {
        assert r[i] == q[i] && r[j] == q[j];
      } else if j == p {
        assert r[i] == q[i];
      } else if i < p {
        assert r[i] == q[i] && r[j] == q[j - 1];
      } else if i == p {
        assert r[j] == q[j - 1];
        assert q[p].countdown <= q[j - 1].countdown;
      } else {
        assert r[i] == q[i - 1] && r[j] == q[j - 1];
      }
    }
  }

  /** In a sorted queue the new entry lands after every entry whose countdown
      is at most `when` (so equal countdowns fire first-in first-out) and
      before every entry whose countdown is greater. */
  lemma EnqueueAfterTies<H>(q: Queue<H>, when: int, h: H)
    requires Sorted(q)
    ensures Enqueue(q, when, h)[InsertionPoint(q, when)] == Entry(when, h)
    ensures forall k :: 0 <= k < |q| ==> (q[k].countdown <= when <==> k < InsertionPoint(q, when))
  {
    var p := InsertionPoint(q, when);
    EnqueueShape(q, when, h);
    forall k | p <= k < |q|
      ensures when < q[k].countdown
    {
      assert q[p].countdown <= q[k].countdown;
    }
  }

  /** Two entries enqueued with the same delay keep their order: the first one
      sits at a smaller index of the queue. */
  lemma TiesFireInInsertionOrder<H>(q: Queue<H>, when: int, a: H, b: H)
    requires Sorted(q)
    ensures var r := Enqueue(Enqueue(q, when, a), when, b);
            exists i, j :: 0 <= i < j < |r| && r[i] == Entry(when, a) && r[j] == Entry(when, b)
  {
    var r1 := Enqueue(q, when, a);
    var i := InsertionPoint(q, when);
    EnqueueShape(q, when, a);
    EnqueueShape(r1, when, b);
    EnqueueKeepsSorted(q, when, a);
    EnqueueAfterTies(r1, when, b);
    var j := InsertionPoint(r1, when);
    assert i < j;
    var r := Enqueue(r1, when, b);
    assert r[i] == r1[i] == Entry(when, a);
    assert r[j] == Entry(when, b);
  }

  /** `ready`: the queue is non-empty and its head is due. */
  predicate Ready<H>(q: Queue<H>)
  {
    |q| > 0 && q[0].countdown == 0
  }

  /** In a sorted queue without negative countdowns, `ready` holds exactly
      when some entry, anywhere in the queue, is due. */
  lemma ReadyIffSomeDue<H>(q: Queue<H>)
    requires Sorted(q) && NonNegative(q)
    ensures Ready(q) <==> exists i :: 0 <= i < |q| && q[i].countdown == 0
  {
    if exists i :: 0 <= i < |q| && q[i].countdown == 0 {
      var i :| 0 <= i < |q| && q[i].countdown == 0;
      assert q[0].countdown <= q[i].countdown;
    }
  }

  /** The closing loop of `dequeue_if_ready`: every remaining entry is one tick closer. */
  function Decrement<H>(q: Queue<H>): (r: Queue<H>)
    ensures |r| == |q|
    ensures forall k :: 0 <= k < |q| ==> r[k] == Entry(q[k].countdown - 1, q[k].handler)
  {
    if q == [] then [] else [Entry(q[0].countdown - 1, q[0].handler)] + Decrement(q[1..])
  }

  /** The entries one handler registered, enqueued one after the other. */
  function EnqueueAll<H>(q: Queue<H>, regs: seq<Entry<H>>): (r: Queue<H>)
    ensures |r| == |q| + |regs|
    decreases |regs|
  {
    if regs == [] then q
    else EnqueueAll(Enqueue(q, regs[0].countdown, regs[0].handler), regs[1..])
  }

  /** Enqueueing a batch loses and invents nothing: the result holds the old
      entries and the new ones, each as often as before. */
  lemma {:induction false} EnqueueAllPermutes<H>(q: Queue<H>, regs: seq<Entry<H>>)
    ensures multiset(EnqueueAll(q, regs)) == multiset(q) + multiset(regs)
    decreases |regs|
  {
    if regs != [] {
      EnqueueAllPermutes(Enqueue(q, regs[0].countdown, regs[0].handler), regs[1..]);
      assert regs == [regs[0]] + regs[1..];
    }
  }

  lemma EnqueueAllContains<H>(q: Queue<H>, regs: seq<Entry<H>>, e: Entry<H>)
    requires e in q || e in regs
    ensures e in EnqueueAll(q, regs)
  {
    EnqueueAllPermutes(q, regs);
    assert e in multiset(q) || e in multiset(regs);
    assert e in multiset(EnqueueAll(q, regs));
  }

  /** The `while self.ready()` loop: pop the head, fire it, enqueue what it
      registered, and test `ready` again, so entries enqueued with delay 0
      during the drain fire in this same tick. The loop need not end, as a
      handler may keep re-enqueueing itself with delay 0; `fuel` bounds the
      number of firings and None means the drain did not end within it. */
  function Drain<S, H>(s: S, q: Queue<H>, fire: (S, H) -> Fired<S, H>, fuel: nat): (r: Option<Drained<S, H>>)
    ensures r.Some? ==> !Ready(r.value.queue)
    ensures r.Some? ==> |r.value.fired| <= fuel
    ensures !Ready(q) ==> r == Some(Drained(s, q, []))
    ensures Ready(q) && r.Some? ==> |r.value.fired| > 0 && r.value.fired[0] == q[0]
    decreases fuel
  {
    if !Ready(q) then Some(Drained(s, q, []))
    else if fuel == 0 then None
    else
      var f := fire(s, q[0].handler);
      match Drain(f.state, EnqueueAll(q[1..], f.regs), fire, fuel - 1)
      case None => None
      case Some(d) => Some(Drained(d.state, d.queue, [q[0]] + d.fired))
  }

  /** One step of the drain loop: a due head is popped and fired, and the
      drain carries on with the rest plus what the handler enqueued. */
  lemma DrainStep<S, H>(s: S, q: Queue<H>, fire: (S, H) -> Fired<S, H>, fuel: nat)
    requires Ready(q) && fuel > 0
    ensures var f := fire(s, q[0].handler);
            var rest := Drain(f.state, EnqueueAll(q[1..], f.regs), fire, fuel - 1);
            && (Drain(s, q, fire, fuel).Some? <==> rest.Some?)
            && (rest.Some? ==> Drain(s, q, fire, fuel).value
                               == Drained(rest.value.state, rest.value.queue, [q[0]] + rest.value.fired))
  {
  }

  /** `dequeue_if_ready`: drain the due entries, then decrement the rest. */
  function DequeueIfReady<S, H>(s: S, q: Queue<H>, fire: (S, H) -> Fired<S, H>, fuel: nat): (r: Option<Drained<S, H>>)
    ensures r.Some? <==> Drain(s, q, fire, fuel).Some?
    ensures r.Some? ==> var d := Drain(s, q, fire, fuel).value;
                        && r.value.state == d.state && r.value.fired == d.fired
                        && |r.value.queue| == |d.queue|
                        && forall k :: 0 <= k < |d.queue| ==>
                             r.value.queue[k] == Entry(d.queue[k].countdown - 1, d.queue[k].handler)
  {
    match Drain(s, q, fire, fuel)
    case None => None
    case Some(d) => Some(Drained(d.state, Decrement(d.queue), d.fired))
  }

  /** Every registration a handler can produce has a non-negative delay. */
  ghost predicate RegistersNonNegative<S(!new), H(!new)>(fire: (S, H) -> Fired<S, H>)
  {
    forall s, h :: NonNegative(fire(s, h).regs)
  }

  /** Every entry of `regs` waits at least one tick. */
  ghost predicate AllLater<H>(regs: seq<Entry<H>>)
  {
    forall k :: 0 <= k < |regs| ==> regs[k].countdown >= 1
  }

  /** No handler ever enqueues with delay 0 (or less). */
  ghost predicate RegistersLater<S(!new), H(!new)>(fire: (S, H) -> Fired<S, H>)
  {
    forall s, h :: AllLater(fire(s, h).regs)
  }

  lemma {:induction false} EnqueueAllKeepsOrder<H>(q: Queue<H>, regs: seq<Entry<H>>)
    requires Sorted(q) && NonNegative(q) && NonNegative(regs)
    ensures Sorted(EnqueueAll(q, regs)) && NonNegative(EnqueueAll(q, regs))
    decreases |regs|
  {
    if regs != [] {
      var q1 := Enqueue(q, regs[0].countdown, regs[0].handler);
      EnqueueKeepsSorted(q, regs[0].countdown, regs[0].handler);
      forall k | 0 <= k < |q1|
        ensures q1[k].countdown >= 0
      {
        assert q1[k] in multiset(q1);
        assert q1[k] in multiset(q) || q1[k] == regs[0];
      }
      EnqueueAllKeepsOrder(q1, regs[1..]);
    }
  }

  /** A drain keeps the queue sorted and free of negative countdowns. */
  lemma {:induction false} DrainKeepsOrder<S(!new), H(!new)>(s: S, q: Queue<H>, fire: (S, H) -> Fired<S, H>, fuel: nat)
    requires Sorted(q) && NonNegative(q) && RegistersNonNegative(fire)
    ensures Drain(s, q, fire, fuel).Some? ==>
              Sorted(Drain(s, q, fire, fuel).value.queue) && NonNegative(Drain(s, q, fire, fuel).value.queue)
    decreases fuel
  {
    if Ready(q) && fuel > 0 {
      var f := fire(s, q[0].handler);
      assert NonNegative(f.regs);
      EnqueueAllKeepsOrder(q[1..], f.regs);
      DrainKeepsOrder(f.state, EnqueueAll(q[1..], f.regs), fire, fuel - 1);
    }
  }

  /** One tick keeps a sorted, non-negative queue sorted and non-negative:
      after the drain the head is not due, so every countdown left is at least 1. */
  lemma TickKeepsOrder<S(!new), H(!new)>(s: S, q: Queue<H>, fire: (S, H) -> Fired<S, H>, fuel: nat)
    requires Sorted(q) && NonNegative(q) && RegistersNonNegative(fire)
    ensures DequeueIfReady(s, q, fire, fuel).Some? ==>
              Sorted(DequeueIfReady(s, q, fire, fuel).value.queue)
              && NonNegative(DequeueIfReady(s, q, fire, fuel).value.queue)
  {
    DrainKeepsOrder(s, q, fire, fuel);
    var r := DequeueIfReady(s, q, fire, fuel);
    if r.Some? {
      var d := Drain(s, q, fire, fuel).value;
      forall k | 0 <= k < |d.queue|
        ensures d.queue[k].countdown >= 1
      {
        assert d.queue[0].countdown <= d.queue[k].countdown;
      }
    }
  }

  /** How many entries at the head of the queue are due. */
  function DueCount<H>(q: Queue<H>): (n: nat)
    ensures n <= |q|
    ensures forall k :: 0 <= k < n ==> q[k].countdown == 0
    ensures n < |q| ==> q[n].countdown != 0
  {
    if q == [] || q[0].countdown != 0 then 0 else 1 + DueCount(q[1..])
  }

  lemma DueCountUnique<H>(q: Queue<H>, n: nat)
    requires n <= |q|
    requires forall k :: 0 <= k < n ==> q[k].countdown == 0
    requires n < |q| ==> q[n].countdown != 0
    ensures DueCount(q) == n
  {
  }

  /** Enqueueing a delay of at least one tick leaves the due head of a sorted queue alone. */
  lemma EnqueueKeepsDueHead<H>(q: Queue<H>, when: int, h: H)
    requires Sorted(q) && NonNegative(q) && when >= 1
    ensures DueCount(Enqueue(q, when, h)) == DueCount(q)
    ensures Enqueue(q, when, h)[..DueCount(q)] == q[..DueCount(q)]
  {
    var n := DueCount(q);
    var p := InsertionPoint(q, when);
    var r := Enqueue(q, when, h);
    EnqueueShape(q, when, h);
    assert n <= p;
    DueCountUnique(r, n);
  }

  lemma {:induction false} EnqueueAllKeepsDueHead<H>(q: Queue<H>, regs: seq<Entry<H>>)
    requires Sorted(q) && NonNegative(q)
    requires AllLater(regs)
    ensures DueCount(EnqueueAll(q, regs)) == DueCount(q)
    ensures EnqueueAll(q, regs)[..DueCount(q)] == q[..DueCount(q)]
    decreases |regs|
  {
    if regs != [] {
      var q1 := Enqueue(q, regs[0].countdown, regs[0].handler);
      EnqueueKeepsDueHead(q, regs[0].countdown, regs[0].handler);
      EnqueueKeepsSorted(q, regs[0].countdown, regs[0].handler);
      EnqueueAllKeepsOrder(q, [regs[0]]);
      assert EnqueueAll(q, [regs[0]]) == q1 by {
        assert [regs[0]][1..] == [];
      }
      EnqueueAllKeepsDueHead(q1, regs[1..]);
      var n := DueCount(q);
      assert EnqueueAll(q1, regs[1..])[..n] == q1[..n];
    }
  }

  /** The head entry followed by the due entries behind it is the whole due head. */
  lemma PrependDueHead<H>(q: Queue<H>, q1: Queue<H>, tail: seq<Entry<H>>)
    requires Ready(q) && DueCount(q1) == DueCount(q) - 1
    requires q1[..DueCount(q) - 1] == q[1..DueCount(q)]
    requires tail == q1[..DueCount(q1)]
    ensures [q[0]] + tail == q[..DueCount(q)]
  {
    assert [q[0]] + q[1..DueCount(q)] == q[..DueCount(q)];
  }

  /** Popping and firing a due head when no handler enqueues with delay 0:
      the rest of the due head is still at the front, one entry shorter. */
  lemma PopKeepsDueHead<S(!new), H(!new)>(s: S, q: Queue<H>, fire: (S, H) -> Fired<S, H>)
    requires Sorted(q) && NonNegative(q) && RegistersLater(fire) && Ready(q)
    ensures var q1 := EnqueueAll(q[1..], fire(s, q[0].handler).regs);
            && Sorted(q1) && NonNegative(q1) && DueCount(q1) == DueCount(q) - 1
            && q1[..DueCount(q) - 1] == q[1..DueCount(q)]
  {
    assert AllLater(fire(s, q[0].handler).regs);
    PopEnqueueKeepsDueHead(q, fire(s, q[0].handler).regs);
  }

  /** The same for any batch of registrations that all wait at least one tick. */
  lemma PopEnqueueKeepsDueHead<H>(q: Queue<H>, regs: seq<Entry<H>>)
    requires Sorted(q) && NonNegative(q) && AllLater(regs) && Ready(q)
    ensures var q1 := EnqueueAll(q[1..], regs);
            && Sorted(q1) && NonNegative(q1) && DueCount(q1) == DueCount(q) - 1
            && q1[..DueCount(q) - 1] == q[1..DueCount(q)]
  {
    var t := q[1..];
    assert Sorted(t) && NonNegative(t);
    assert NonNegative(regs);
    EnqueueAllKeepsOrder(t, regs);
    EnqueueAllKeepsDueHead(t, regs);
    assert DueCount(q) == 1 + DueCount(t);
    assert t[..DueCount(t)] == q[1..DueCount(q)];
  }

  /** When no handler enqueues with delay 0, a tick fires exactly the entries
      that were due when it began, in queue order, and nothing else. */
  lemma {:induction false} DrainFiresDueHead<S(!new), H(!new)>(s: S, q: Queue<H>, fire: (S, H) -> Fired<S, H>, fuel: nat)
    requires Sorted(q) && NonNegative(q) && RegistersLater(fire)
    requires fuel >= DueCount(q)
    ensures Drain(s, q, fire, fuel).Some?
    ensures Drain(s, q, fire, fuel).value.fired == q[..DueCount(q)]
    decreases fuel
  {
    if Ready(q) {
      var f := fire(s, q[0].handler);
      var q1 := EnqueueAll(q[1..], f.regs);
      PopKeepsDueHead(s, q, fire);
      DrainFiresDueHead(f.state, q1, fire, fuel - 1);
      PrependDueHead(q, q1, Drain(f.state, q1, fire, fuel - 1).value.fired);
      DrainStep(s, q, fire, fuel);
    } else {
      DueCountUnique(q, 0);
      assert q[..0] == [];
    }
  }

  /** One step of a drain that goes on to fire `e`: `e`, still waiting
      behind the head or just enqueued by the head's handler, is in the
      queue the drain carries on with, which is still in order. */
  lemma DrainStepKeeps<S(!new), H(!new)>(s: S, q: Queue<H>, fire: (S, H) -> Fired<S, H>, fuel: nat, e: Entry<H>)
    requires Sorted(q) && NonNegative(q) && RegistersNonNegative(fire)
    requires Ready(q) && Drain(s, q, fire, fuel).Some?
    requires e in q[1..] || e in fire(s, q[0].handler).regs
    ensures var f := fire(s, q[0].handler); var q1 := EnqueueAll(q[1..], f.regs);
            && fuel > 0 && e in q1 && Sorted(q1) && NonNegative(q1)
            && Drain(f.state, q1, fire, fuel - 1).Some?
            && Drain(s, q, fire, fuel).value.fired == [q[0]] + Drain(f.state, q1, fire, fuel - 1).value.fired
  {
    var f := fire(s, q[0].handler);
    EnqueueAllContains(q[1..], f.regs, e);
    assert Sorted(q[1..]) && NonNegative(q[1..]) && NonNegative(f.regs);
    EnqueueAllKeepsOrder(q[1..], f.regs);
    DrainStep(s, q, fire, fuel);
  }

  /** A due entry anywhere in a sorted queue makes the queue ready; it is the head or waits behind it. */
  lemma DueEntryReady<H>(q: Queue<H>, e: Entry<H>)
    requires Sorted(q) && NonNegative(q) && e in q && e.countdown == 0
    ensures Ready(q) && (q[0] == e || e in q[1..])
  {
    var k :| 0 <= k < |q| && q[k] == e;
    assert q[0].countdown <= q[k].countdown;
    if k > 0 {
      assert q[1..][k - 1] == e;
    }
  }

  /** Every entry that is due when a drain starts is fired by it (when the drain ends). */
  lemma {:induction false} DueEntriesFire<S(!new), H(!new)>(s: S, q: Queue<H>, fire: (S, H) -> Fired<S, H>, fuel: nat, e: Entry<H>)
    requires Sorted(q) && NonNegative(q) && RegistersNonNegative(fire)
    requires e in q && e.countdown == 0
    requires Drain(s, q, fire, fuel).Some?
    ensures e in Drain(s, q, fire, fuel).value.fired
    decreases fuel
  {
    DueEntryReady(q, e);
    if q[0] != e {
      DrainStepKeeps(s, q, fire, fuel, e);
      var f := fire(s, q[0].handler);
      DueEntriesFire(f.state, EnqueueAll(q[1..], f.regs), fire, fuel - 1, e);
    }
  }

  /** The open policy question, as the code answers it: an entry enqueued with
      delay 0 by a handler fired during a drain fires in that same tick. */
  lemma ZeroDelayFiresSameTick<S(!new), H(!new)>(s: S, q: Queue<H>, fire: (S, H) -> Fired<S, H>, fuel: nat, b: H)
    requires Sorted(q) && NonNegative(q) && RegistersNonNegative(fire)
    requires Ready(q) && Entry(0, b) in fire(s, q[0].handler).regs
    requires Drain(s, q, fire, fuel).Some?
    ensures Entry(0, b) in Drain(s, q, fire, fuel).value.fired
  {
    DrainStepKeeps(s, q, fire, fuel, Entry(0, b));
    var f := fire(s, q[0].handler);
    DueEntriesFire(f.state, EnqueueAll(q[1..], f.regs), fire, fuel - 1, Entry(0, b));
  }

  /** A drain step by step preserves any property of the state that every handler preserves. */
  lemma {:induction false} DrainPreserves<S, H>(s: S, q: Queue<H>, fire: (S, H) -> Fired<S, H>, fuel: nat, P: S -> bool)
    requires P(s)
    requires forall st, h :: P(st) ==> P(fire(st, h).state)
    ensures Drain(s, q, fire, fuel).Some? ==> P(Drain(s, q, fire, fuel).value.state)
    decreases fuel
  {
    if Ready(q) && fuel > 0 {
      var f := fire(s, q[0].handler);
      DrainPreserves(f.state, EnqueueAll(q[1..], f.regs), fire, fuel - 1, P);
    }
  }

  /** The two events of the scheduling example: A enqueued with delay 3, then B with delay 1. */
  datatype Sample = A | B

  function Idle(s: nat, h: Sample): Fired<nat, Sample>
  {
    Fired(s + 1, [])
  }

  /** `enqueue(3, A)` then `enqueue(1, B)`: B fires on the second tick, A on
      the fourth, and the ticks in between fire nothing. */
  lemma ScheduleExample()
    ensures var q0 := Enqueue(Enqueue([], 3, A), 1, B);
            && q0 == [Entry(1, B), Entry(3, A)]
            && DequeueIfReady(0, q0, Idle, 5) == Some(Drained(0, [Entry(0, B), Entry(2, A)], []))
            && DequeueIfReady(0, [Entry(0, B), Entry(2, A)], Idle, 5) == Some(Drained(1, [Entry(1, A)], [Entry(0, B)]))
            && DequeueIfReady(1, [Entry(1, A)], Idle, 5) == Some(Drained(1, [Entry(0, A)], []))
            && DequeueIfReady(1, [Entry(0, A)], Idle, 5) == Some(Drained(2, [], [Entry(0, A)]))
  {
    var q1 := Enqueue([], 3, A);
    assert InsertionPoint<Sample>([], 3) == 0;
    assert q1 == [Entry(3, A)];
    assert InsertionPoint(q1, 1) == 0;
    var q0 := Enqueue(q1, 1, B);
    assert q0 == [Entry(1, B), Entry(3, A)];
    assert Decrement(q0) == [Entry(0, B), Entry(2, A)];
    // second tick: B fires, A is left with 2 and is then decremented
    var q2 := [Entry(0, B), Entry(2, A)];
    assert q2[1..] == [Entry(2, A)];
    assert EnqueueAll([Entry(2, A)], []) == [Entry(2, A)];
    assert Drain(1, [Entry(2, A)], Idle, 4) == Some(Drained(1, [Entry(2, A)], []));
    DrainStep(0, q2, Idle, 5);
    assert [q2[0]] + [] == [Entry(0, B)];
    assert Drain(0, q2, Idle, 5) == Some(Drained(1, [Entry(2, A)], [Entry(0, B)]));
    assert Decrement([Entry(2, A)]) == [Entry(1, A)];
    // third tick: nothing due
    assert Decrement([Entry(1, A)]) == [Entry(0, A)];
    // fourth tick: A fires
    assert [Entry(0, A)][1..] == [];
    assert EnqueueAll<Sample>([], []) == [];
    assert Drain(2, [], Idle, 4) == Some(Drained(2, [], []));
    DrainStep(1, [Entry(0, A)], Idle, 5);
    assert Drain(1, [Entry(0, A)], Idle, 5) == Some(Drained(2, [], [Entry(0, A)]));
    assert Decrement<Sample>([]) == [];
  }
}
