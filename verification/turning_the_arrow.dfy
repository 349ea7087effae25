/** The EventQueue of turning_the_arrow.py, the same code as the main
    engine's. These lemmas follow one entry over several ticks: `ready` looks
    only at the head, so a queue whose head is not yet due fires nothing and
    only counts down, and an entry at the head with countdown `d` is due
    after exactly `d` ticks. */
module TurningTheArrow {
  import opened Wrappers
  import opened EventQueue

  /** `n` ticks of the game loop in a row: the final state and queue, and
      every entry fired, in firing order. None when some tick's drain did not
      end within `fuel` firings. */
  function Ticks<S, H>(s: S, q: Queue<H>, fire: (S, H) -> Fired<S, H>, fuel: nat, n: nat): (r: Option<Drained<S, H>>)
    ensures n == 0 ==> r == Some(Drained(s, q, []))
    ensures n > 0 && r.Some? ==> DequeueIfReady(s, q, fire, fuel).Some?
    decreases n
  {
    if n == 0 then Some(Drained(s, q, []))
    else
      match DequeueIfReady(s, q, fire, fuel)
      case None => None
      case Some(d) =>
        match Ticks(d.state, d.queue, fire, fuel, n - 1)
        case None => None
        case Some(e) => Some(Drained(e.state, e.queue, d.fired + e.fired))
  }

  /** While the head is not due, ticks fire nothing, leave the state alone
      and take exactly one off every countdown each: after `n` ticks from a
      queue whose head waits at least `n`, every entry waits `n` less. */
  lemma {:induction false} WaitingTicksOnlyCountDown<S, H>(s: S, q: Queue<H>, fire: (S, H) -> Fired<S, H>, fuel: nat, n: nat)
    requires q == [] || q[0].countdown >= n
    ensures var r := Ticks(s, q, fire, fuel, n);
            && r.Some? && r.value.state == s && r.value.fired == []
            && |r.value.queue| == |q|
            && forall k :: 0 <= k < |q| ==> r.value.queue[k] == Entry(q[k].countdown - n, q[k].handler)
    decreases n
  {
    if n > 0 {
      assert !Ready(q);
      var q1 := Decrement(q);
      assert DequeueIfReady(s, q, fire, fuel) == Some(Drained(s, q1, []));
      WaitingTicksOnlyCountDown(s, q1, fire, fuel, n - 1);
      var e := Ticks(s, q1, fire, fuel, n - 1).value;
      assert Ticks(s, q, fire, fuel, n) == Some(Drained(e.state, e.queue, [] + e.fired));
    }
  }

  /** An entry at the head with countdown `d` is due after exactly `d`
      ticks: the ticks before fire nothing, and then the queue is ready with
      that entry at its head, so the next tick fires it first. */
  lemma HeadDueAfterItsCountdown<S, H>(s: S, q: Queue<H>, fire: (S, H) -> Fired<S, H>, fuel: nat)
    requires q != [] && q[0].countdown >= 0
    ensures var d := q[0].countdown; var r := Ticks(s, q, fire, fuel, d);
            && r.Some? && r.value.fired == [] && Ready(r.value.queue)
            && r.value.queue[0] == Entry(0, q[0].handler)
            && (forall k :: 0 < k < d ==>
                  var t := Ticks(s, q, fire, fuel, k); t.Some? && !Ready(t.value.queue))
  {
    var d := q[0].countdown;
    WaitingTicksOnlyCountDown(s, q, fire, fuel, d);
    forall k | 0 < k < d
      ensures var t := Ticks(s, q, fire, fuel, k); t.Some? && !Ready(t.value.queue)
    {
      WaitingTicksOnlyCountDown(s, q, fire, fuel, k);
    }
  }
}
