/** Walking on the grid: `Character.move` (with the Llama's `turn`, which
    spends the move on turning) and `Player.move`, which turns before it
    walks. A step is refused when the target is off the map, has an
    UNWALKABLE tile, or holds an object in play that cannot be walked over. */
module Movement {
  import opened Grid
  import opened Entities
  import opened Screen

  /** The cell one step from the object in direction `d`. */
  function Target(e: Entity, d: Dir): (int, int)
  {
    (e.x + Delta(d).0, e.y + Delta(d).1)
  }

  /** The three tests that may refuse a step, in the order the source makes them. */
  predicate CanEnter(w: World, x: int, y: int)
    requires Valid(w)
  {
    && InBounds(x, y)
    && Tile(w.terrain, x, y) !in w.terrain.unwalkable
    && !BlockedAt(w, x, y)
  }

  /** The part of a move after the turn test: walk one cell if it can be
      entered, otherwise change nothing. */
  function Step(w: World, id: Id, d: Dir): (r: World)
    requires Valid(w) && id < |w.ents|
    ensures Valid(r) && r.things == w.things && |r.ents| == |w.ents|
    ensures forall i :: 0 <= i < |w.ents| && i != id ==> r.ents[i] == w.ents[i]
    ensures var (tx, ty) := Target(w.ents[id], d);
            && (CanEnter(w, tx, ty) ==> r == w.(ents := w.ents[id := w.ents[id].(x := tx, y := ty)]))
            && (!CanEnter(w, tx, ty) ==> r == w)
  {
    var e := w.ents[id];
    var (tx, ty) := Target(e, d);
    if CanEnter(w, tx, ty) then SetEnt(w, id, e.(x := tx, y := ty)) else w
  }

  /** `Character.move`: a Llama not already facing `d` only turns (its `turn`
      reports having turned); every other character walks if it can. */
  function CharacterMove(w: World, id: Id, d: Dir): (r: World)
    requires Valid(w) && id < |w.ents|
    ensures Valid(r) && r == w.(ents := r.ents) && |r.ents| == |w.ents|
    ensures forall i :: 0 <= i < |w.ents| && i != id ==> r.ents[i] == w.ents[i]
  {
    var e := w.ents[id];
    if e.kind.Llama? && e.facing != d then SetEnt(w, id, e.(facing := d))
    else Step(w, id, d)
  }

  /** `Player.move`: turning to a new direction takes the whole keypress. */
  function PlayerMove(w: World, d: Dir): (r: World)
    requires Valid(w)
    ensures Valid(r) && r.things == w.things && |r.ents| == |w.ents| && r.player == w.player
    ensures forall i :: 0 <= i < |w.ents| && i != w.player ==> r.ents[i] == w.ents[i]
  {
    var p := PlayerOf(w);
    if p.facing != d then SetEnt(w, w.player, p.(facing := d))
    else Step(w, w.player, d)
  }

  /** The player's move, case by case: a new direction only turns the
      player; in the direction faced, the player stays put when the target
      is off the map, on an UNWALKABLE tile or behind an object that cannot
      be walked over, and otherwise moves by exactly one step. */
  lemma PlayerMoveCases(w: World, d: Dir)
    requires Valid(w)
    ensures var p := PlayerOf(w); var r := PlayerOf(PlayerMove(w, d)); var (tx, ty) := Target(p, d);
            && (p.facing != d ==> r == p.(facing := d))
            && (p.facing == d && !InBounds(tx, ty) ==> PlayerMove(w, d) == w)
            && ((p.facing == d && InBounds(tx, ty) && Tile(w.terrain, tx, ty) in w.terrain.unwalkable)
                ==> PlayerMove(w, d) == w)
            && (p.facing == d && InBounds(tx, ty) && BlockedAt(w, tx, ty) ==> PlayerMove(w, d) == w)
            && (p.facing == d && CanEnter(w, tx, ty) ==> r == p.(x := p.x + Delta(d).0, y := p.y + Delta(d).1))
  {
  }

  /** A Llama's move, case by case: turning spends the move; facing `d`, it
      steps like any other character. */
  lemma LlamaMoveCases(w: World, id: Id, d: Dir)
    requires Valid(w) && id < |w.ents| && w.ents[id].kind.Llama?
    ensures var e := w.ents[id]; var r := CharacterMove(w, id, d).ents[id];
            && (e.facing != d ==> r == e.(facing := d))
            && (e.facing == d ==> CharacterMove(w, id, d) == Step(w, id, d))
  {
  }

  /** Every move changes an object's position by at most one unit step. */
  lemma MoveIsUnitStep(w: World, id: Id, d: Dir)
    requires Valid(w) && id < |w.ents|
    ensures var e := w.ents[id]; var r := CharacterMove(w, id, d).ents[id];
            Abs(r.x - e.x) + Abs(r.y - e.y) <= 1
    ensures var e := w.ents[id]; var r := CharacterMove(w, id, d).ents[id];
            (r.x, r.y) == (e.x, e.y) || (r.x, r.y) == Target(e, d)
  {
  }

  /** No two objects in play that cannot be walked over share a cell. */
  ghost predicate Exclusive(w: World)
    requires Valid(w)
  {
    forall j, k :: 0 <= j < k < |w.things|
      && !w.ents[w.things[j]].caps.walkable && !w.ents[w.things[k]].caps.walkable
      ==> !At(w.ents[w.things[j]], w.ents[w.things[k]].x, w.ents[w.things[k]].y)
  }

  /** Walking never lets two solid objects share a cell: a step is refused
      whenever the target holds an object that cannot be walked over. */
  lemma StepKeepsExclusive(w: World, id: Id, d: Dir)
    requires Valid(w) && id < |w.ents| && Exclusive(w)
    ensures Exclusive(Step(w, id, d))
  {
    var r := Step(w, id, d);
    var e := w.ents[id];
    var (tx, ty) := Target(e, d);
    if CanEnter(w, tx, ty) {
      forall j, k | 0 <= j < k < |r.things|
        && !r.ents[r.things[j]].caps.walkable && !r.ents[r.things[k]].caps.walkable
        ensures !At(r.ents[r.things[j]], r.ents[r.things[k]].x, r.ents[r.things[k]].y)
      {
        var a, b := r.things[j], r.things[k];
        assert a != b;
        if a == id {
          assert At(r.ents[a], tx, ty);
          assert r.ents[b] == w.ents[b];
          assert !At(w.ents[w.things[k]], tx, ty);
        } else if b == id {
          assert r.ents[a] == w.ents[a];
          assert !At(w.ents[w.things[j]], tx, ty);
        } else {
          assert r.ents[a] == w.ents[a] && r.ents[b] == w.ents[b];
        }
      }
    }
  }

  /** Every kind of move keeps solid objects apart. */
  lemma MovesKeepExclusive(w: World, id: Id, d: Dir)
    requires Valid(w) && id < |w.ents| && Exclusive(w)
    ensures Exclusive(CharacterMove(w, id, d))
    ensures Exclusive(PlayerMove(w, d))
  {
    StepKeepsExclusive(w, id, d);
    StepKeepsExclusive(w, w.player, d);
    var e := w.ents[id];
    if e.kind.Llama? && e.facing != d {
      TurnKeepsExclusive(w, id, e.(facing := d));
    }
    var p := PlayerOf(w);
    if p.facing != d {
      TurnKeepsExclusive(w, w.player, p.(facing := d));
    }
  }

  /** Turning in place moves nothing. */
  lemma TurnKeepsExclusive(w: World, id: Id, e: Entity)
    requires Valid(w) && id < |w.ents| && Exclusive(w)
    requires e == w.ents[id].(facing := e.facing)
    ensures Exclusive(SetEnt(w, id, e))
  {
    var r := SetEnt(w, id, e);
    forall j, k | 0 <= j < k < |r.things|
      && !r.ents[r.things[j]].caps.walkable && !r.ents[r.things[k]].caps.walkable
      ensures !At(r.ents[r.things[j]], r.ents[r.things[k]].x, r.ents[r.things[k]].y)
    {
      var a, b := r.things[j], r.things[k];
      assert r.ents[a].x == w.ents[a].x && r.ents[a].y == w.ents[a].y && r.ents[a].caps == w.ents[a].caps;
      assert r.ents[b].x == w.ents[b].x && r.ents[b].y == w.ents[b].y && r.ents[b].caps == w.ents[b].caps;
    }
  }
}
