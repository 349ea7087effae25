/** olredux.py, the earlier version of the same engine, on the same world
    model: its Screen treats only tile code 2 (a tree) as UNWALKABLE, no
    object can ever be walked over (`Thing.is_walkable` is always False),
    Characters never turn on their own, and a Rat has no ashes to become.
    Its grid has tiles of 24 pixels. */
module Olredux {
  import opened Grid
  import opened Entities
  import opened Screen
  import opened Movement
  import PlayerActions
  import EventQueue

  /** The olredux screen's only UNWALKABLE tile code. */
  const Tree: int := 2

  /** A world olredux can produce. */
  predicate OlWorld(w: World)
  {
    && Valid(w)
    && w.terrain.unwalkable == {Tree}
    && forall i :: 0 <= i < |w.ents| ==> !w.ents[i].caps.walkable
  }

  /** Some object in play stands at (x, y). */
  predicate Occupied(w: World, x: int, y: int)
    requires Valid(w)
  {
    exists k :: 0 <= k < |w.things| && At(w.ents[w.things[k]], x, y)
  }

  /** In olredux every object blocks: a cell is blocked exactly when it is occupied. */
  lemma BlockedIffOccupied(w: World, x: int, y: int)
    requires OlWorld(w)
    ensures BlockedAt(w, x, y) <==> Occupied(w, x, y)
  {
    if Occupied(w, x, y) {
      var k :| 0 <= k < |w.things| && At(w.ents[w.things[k]], x, y);
      assert !w.ents[w.things[k]].caps.walkable;
    }
  }

  /** olredux `Character.move` (no turning, as Rats never turn): the
      character stays put exactly when the target is off the map, holds a
      tree, or holds any object at all; otherwise it moves by one step in
      direction `d`, and nothing else changes. */
  lemma CharacterMoveBlockedByAnyObject(w: World, id: Id, d: Dir)
    requires OlWorld(w) && id < |w.ents|
    ensures var e := w.ents[id]; var r := Step(w, id, d); var (tx, ty) := Target(e, d);
            && OlWorld(r)
            && (At(r.ents[id], e.x, e.y) <==>
                  !InBounds(tx, ty) || Tile(w.terrain, tx, ty) == Tree || Occupied(w, tx, ty))
            && (!At(r.ents[id], e.x, e.y) ==> r == w.(ents := w.ents[id := e.(x := tx, y := ty)]))
  {
    var e := w.ents[id];
    var (tx, ty) := Target(e, d);
    if InBounds(tx, ty) {
      BlockedIffOccupied(w, tx, ty);
    }
  }

  /** olredux `Player.move`: a new direction only turns the player, and the
      player walks, in the direction faced, exactly when the target is on
      the map, holds no tree and holds no object. */
  lemma PlayerMoveOnlyTurnsOrSteps(w: World, d: Dir)
    requires OlWorld(w)
    ensures var p := PlayerOf(w); var r := PlayerMove(w, d); var (tx, ty) := Target(p, d);
            && OlWorld(r)
            && (p.facing != d ==> PlayerOf(r) == p.(facing := d) && r.things == w.things)
            && (p.facing == d ==>
                  (PlayerOf(r) == p.(x := tx, y := ty) <==>
                     InBounds(tx, ty) && Tile(w.terrain, tx, ty) != Tree && !Occupied(w, tx, ty)))
  {
    var p := PlayerOf(w);
    var (tx, ty) := Target(p, d);
    if p.facing == d {
      assert PlayerMove(w, d) == Step(w, w.player, d);
      CharacterMoveBlockedByAnyObject(w, w.player, d);
      assert (tx, ty) != (p.x, p.y) by { DeltaInjective(d, d); }
    }
  }

  /** olredux `Player.take`: the inventory grows by one exactly when the
      first object ahead is takable; that object then leaves the map, and
      otherwise nothing changes. */
  lemma TakeAppends(w: World)
    requires OlWorld(w)
    ensures var f := FacingObject(w, w.player); var r := PlayerActions.Take(w);
            var taken := f.Some? && w.ents[f.value].caps.takable;
            && OlWorld(r)
            && (|PlayerOf(r).kind.inventory| == |PlayerOf(w).kind.inventory| + 1 <==> taken)
            && (taken ==> f.value !in r.things && |r.things| == |w.things| - 1)
            && (!taken ==> r == w)
  {
    var f := FacingObject(w, w.player);
    var r := PlayerActions.Take(w);
    assert OlWorld(r) by {
      forall i | 0 <= i < |r.ents|
        ensures !r.ents[i].caps.walkable
      {
        assert r.ents[i].caps == w.ents[i].caps;
      }
    }
    if f.Some? && w.ents[f.value].caps.takable {
      assert f.value in multiset(w.things) by {
        var k :| 0 <= k < |w.things| && w.things[k] == f.value;
      }
      assert |multiset(r.things)| == |multiset(w.things)| - 1;
    }
  }

  /** olredux `Rat.event`: no burnt test, so the Rat always takes its
      optional random step and always registers again with its frequency. */
  function RatEvent(w: World, id: Id, restless: bool, dir: Dir): (r: Outcome)
    requires Valid(w) && id < |w.ents|
    ensures Valid(r.w) && r.w.things == w.things && |r.w.ents| == |w.ents|
    ensures r.regs == [Register(id, w.ents[id].freq)]
    ensures forall i :: 0 <= i < |w.ents| && i != id ==> r.w.ents[i] == w.ents[i]
  {
    Outcome(if restless then Step(w, id, dir) else w, [Register(id, w.ents[id].freq)])
  }

  /** A Rat event moves the Rat by at most one unit step and keeps the
      world one olredux can produce. */
  lemma RatEventIsUnitStep(w: World, id: Id, restless: bool, dir: Dir)
    requires OlWorld(w) && id < |w.ents|
    ensures var e := w.ents[id]; var f := RatEvent(w, id, restless, dir).w.ents[id];
            && Abs(f.x - e.x) + Abs(f.y - e.y) <= 1
            && OlWorld(RatEvent(w, id, restless, dir).w)
  {
    CharacterMoveBlockedByAnyObject(w, id, dir);
  }

  /** olredux `ind_to_pos` undoes `_pos` for tiles of 24 pixels, for every
      row (Python's floor `%` and `/` agree with Dafny's here, since the
      divisor is positive and the division exact). */
  lemma IndToPosRoundTrip(x: int, y: int)
    requires 0 <= x < LevelWidth
    ensures IndToPos(Pos(x, y), ReduxTileSize) == (x * 24, y * 24)
  {
    IndToPosInvertsPos(x, y, ReduxTileSize);
  }

  /** The olredux `enqueue`: in a sorted queue it adds exactly one entry, keeps
      the queue sorted, and puts the new entry after every entry due no
      later and before every entry due later. */
  lemma EnqueueSortedFifo<H>(q: EventQueue.Queue<H>, when: int, h: H)
    requires EventQueue.Sorted(q)
    ensures var r := EventQueue.Enqueue(q, when, h); var i := EventQueue.InsertionPoint(q, when);
            && |r| == |q| + 1 && EventQueue.Sorted(r) && r[i] == EventQueue.Entry(when, h)
            && (forall k :: 0 <= k < |q| && q[k].countdown <= when ==> k < i && r[k] == q[k])
            && (forall k :: 0 <= k < |q| && when < q[k].countdown ==> i <= k && r[k + 1] == q[k])
  {
    EventQueue.EnqueueKeepsSorted(q, when, h);
    EventQueue.EnqueueAfterTies(q, when, h);
    EventQueue.EnqueueShape(q, when, h);
  }

  /** The olredux `dequeue_if_ready`: with handlers that only register for
      later ticks, it fires exactly the entries due now, head first, and
      every entry left over waits exactly one tick less. */
  lemma DequeueFiresDueThenDecrements<S(!new), H(!new)>(
    s: S, q: EventQueue.Queue<H>, fire: (S, H) -> EventQueue.Fired<S, H>, fuel: nat)
    requires EventQueue.Sorted(q) && EventQueue.NonNegative(q) && EventQueue.RegistersLater(fire)
    requires fuel >= EventQueue.DueCount(q)
    ensures var r := EventQueue.DequeueIfReady(s, q, fire, fuel);
            && r.Some?
            && r.value.fired == q[..EventQueue.DueCount(q)]
            && |r.value.queue| == |EventQueue.Drain(s, q, fire, fuel).value.queue|
            && forall k :: 0 <= k < |r.value.queue| ==>
                 r.value.queue[k].countdown == EventQueue.Drain(s, q, fire, fuel).value.queue[k].countdown - 1
  {
    EventQueue.DrainFiresDueHead(s, q, fire, fuel);
  }
}
