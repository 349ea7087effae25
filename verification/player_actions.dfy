/** The player's actions other than walking: `shoot` (a Fireball), `take`
    (into the inventory) and `interact` (eat a pizza slice, step through the
    Vortex). Text shown on the screen is left out; the effects on the world
    and the queue entries registered are kept. */
module PlayerActions {
  import opened Wrappers
  import opened Grid
  import opened Entities
  import opened Screen
  import opened Projectiles

  /** The guards of `Player.shoot`, in order: the cell ahead is on the map,
      its tile is not UNWALKABLE-and-not-FLAMMABLE, and the first object in
      it (if any) is walkable, flammable or a Llama. */
  predicate CanShoot(w: World)
    requires Valid(w)
  {
    var p := PlayerOf(w);
    var (tx, ty) := Ahead(p);
    && InBounds(tx, ty)
    && !(Tile(w.terrain, tx, ty) in w.terrain.unwalkable && Tile(w.terrain, tx, ty) !in w.terrain.flammable)
    && !FacingSatisfies(w, w.player, BlocksFireball)
  }

  /** `Player.shoot`: a Fireball with the player's range and power appears in
      the cell ahead, flying the way the player faces, registered with the
      player's fireball speed. */
  function Shoot(w: World): (r: Outcome)
    requires Valid(w)
    ensures Valid(r.w) && r.w.player == w.player && PlayerOf(r.w) == PlayerOf(w)
    ensures !CanShoot(w) ==> r == Outcome(w, [])
    ensures CanShoot(w) ==>
              var p := PlayerOf(w); var n := |w.ents|;
              && |r.w.ents| == n + 1
              && r.w.ents[n].kind == Fireball(p.kind.fbRange, p.kind.fbPower)
              && At(r.w.ents[n], Ahead(p).0, Ahead(p).1) && r.w.ents[n].facing == p.facing
              && r.w.things == w.things + [n]
              && r.regs == [Register(n, p.kind.fbSpeed)]
    ensures CanShoot(w) ==>
              var p := PlayerOf(w);
              && r.w.ents == w.ents + [NewFireball(p.facing, p.kind.fbRange, p.kind.fbPower, Ahead(p).0, Ahead(p).1, p.kind.fbSpeed)]
              && r.w == w.(ents := r.w.ents, things := r.w.things)
  {
    if CanShoot(w) then
      var p := PlayerOf(w);
      var f := NewFireball(p.facing, p.kind.fbRange, p.kind.fbPower, Ahead(p).0, Ahead(p).1, p.kind.fbSpeed);
      Outcome(Spawn(w, f), [Register(|w.ents|, p.kind.fbSpeed)])
    else Outcome(w, [])
  }

  /** The player shoots exactly when a Fireball standing in the player's
      place would not be stopped by the border or by what lies ahead: the
      guards of `shoot` are the first and fourth stop tests of
      `move_or_stop`, with the second test's tile condition in between. (A
      flammable tile under the player masks the fourth test.) */
  lemma ShootGuardsMatchFireball(w: World)
    requires Valid(w)
    ensures var reason := FireballStopReason(w, w.player);
            CanShoot(w) ==> reason != Some(Border) && reason != Some(BlockingTile) && reason != Some(BlockingThing)
    ensures var reason := FireballStopReason(w, w.player);
            (reason.None? || reason == Some(OnLlama) || reason == Some(OnFlammable)) ==> CanShoot(w)
  {
    AtBorderIffLeaving(w.ents[w.player]);
  }

  /** `Player.take`: a takable object ahead goes to the end of the inventory
      and leaves the map; anything else leaves the world as it is. */
  function Take(w: World): (r: World)
    requires Valid(w)
    ensures Valid(r) && r.player == w.player && r.terrain == w.terrain && |r.ents| == |w.ents|
    ensures PlayerOf(r) == PlayerOf(w).(kind := PlayerOf(r).kind)
    ensures forall i :: 0 <= i < |w.ents| && i != w.player ==> r.ents[i] == w.ents[i]
    ensures var f := FacingObject(w, w.player);
            (f.None? || !w.ents[f.value].caps.takable) ==> r == w
    ensures var f := FacingObject(w, w.player);
            f.Some? && w.ents[f.value].caps.takable ==>
              && PlayerOf(r).kind.inventory == PlayerOf(w).kind.inventory + [f.value]
              && f.value !in r.things
              && multiset(r.things) == multiset(w.things) - multiset{f.value}
    ensures var f := FacingObject(w, w.player);
            f.Some? && w.ents[f.value].caps.takable ==>
              && PlayerOf(r).kind == PlayerOf(w).kind.(inventory := PlayerOf(w).kind.inventory + [f.value])
              && r.things == Remove(w.things, f.value)
              && r == w.(ents := r.ents, things := r.things)
  {
    match FacingObject(w, w.player)
    case None => w
    case Some(o) =>
      if w.ents[o].caps.takable then
        var p := PlayerOf(w);
        var k := p.kind;
        var p' := p.(kind := Player(k.health, k.maxHealth, k.fbRange, k.fbSpeed, k.fbPower, k.inventory + [o]));
        Delete(SetEnt(w, w.player, p'), o)
      else w
  }

  /** Taking only moves an object from the map into the inventory: the
      objects on the map and in the inventory, together, stay the same. */
  lemma TakeConserves(w: World)
    requires Valid(w)
    ensures var r := Take(w);
            multiset(r.things) + multiset(PlayerOf(r).kind.inventory)
              == multiset(w.things) + multiset(PlayerOf(w).kind.inventory)
  {
    var f := FacingObject(w, w.player);
    if f.Some? && w.ents[f.value].caps.takable {
      var o := f.value;
      var r := Take(w);
      assert o in w.things by {
        var k :| 0 <= k < |w.things| && w.things[k] == o;
      }
      MoveConserves(w.things, r.things, PlayerOf(w).kind.inventory, PlayerOf(r).kind.inventory, o);
    }
  }

  /** Moving one object from one list to the end of another keeps the two together the same. */
  lemma MoveConserves(from: seq<Id>, from': seq<Id>, to: seq<Id>, to': seq<Id>, o: Id)
    requires o in from && multiset(from') == multiset(from) - multiset{o} && to' == to + [o]
    ensures multiset(from') + multiset(to') == multiset(from) + multiset(to)
  {
    assert multiset(to') == multiset(to) + multiset{o};
    assert o in multiset(from);
  }

  /** The player's statistics after eating a pizza slice: one more maximum
      health, healed to it, fireballs stronger by one, reaching two cells
      further and registered three ticks sooner. */
  function Fed(k: Kind): (r: Kind)
    requires k.Player?
    ensures r.Player? && r.inventory == k.inventory
    ensures r.maxHealth == k.maxHealth + 1 && r.health == r.maxHealth
    ensures r.fbPower == k.fbPower + 1 && r.fbRange == k.fbRange + 2 && r.fbSpeed == k.fbSpeed - 3
  {
    Player(k.maxHealth + 1, k.maxHealth + 1, k.fbRange + 2, k.fbSpeed - 3, k.fbPower + 1, k.inventory)
  }

  /** `Player.interact`: eating a pizza slice removes it, improves the player
      and makes a Vortex appear at (48, 48), registered every 20 ticks;
      interacting with the Vortex completes the level; anything else only
      shows its description. */
  function Interact(w: World): (r: Outcome)
    requires Valid(w)
    ensures Valid(r.w) && r.w.player == w.player && r.w.lost == w.lost && r.w.quit == w.quit
    ensures FacingObject(w, w.player).None? ==> r == Outcome(w, [])
  {
    match FacingObject(w, w.player)
    case None => Outcome(w, [])
    case Some(o) =>
      var t := w.ents[o];
      if t.kind.Pizza? then EatPizza(w, o)
      else if t.kind.Vortex? then Outcome(w.(done := true), [])
      else Outcome(w, [])
  }

  /** Eating the pizza slice `o`: it leaves play, the player is fed, and a
      Vortex enters play at (48, 48), registered every 20 ticks. */
  function EatPizza(w: World, o: Id): (r: Outcome)
    requires Valid(w) && o in w.things
    ensures Valid(r.w) && r.w.player == w.player
    ensures r.w.things == Remove(w.things, o) + [|w.ents|] && o !in r.w.things
    ensures |r.w.ents| == |w.ents| + 1 && r.w.ents[|w.ents|] == NewVortex(VortexX, VortexY, VortexSpeed)
    ensures PlayerOf(r.w) == PlayerOf(w).(kind := Fed(PlayerOf(w).kind))
    ensures forall i :: 0 <= i < |w.ents| && i != w.player ==> r.w.ents[i] == w.ents[i]
    ensures r.w == w.(ents := r.w.ents, things := r.w.things)
    ensures r.regs == [Register(|w.ents|, VortexSpeed)]
  {
    RemoveKeepsValid(w.things, o, |w.ents|);
    var w1 := Delete(w, o);
    var p := PlayerOf(w1);
    var w2 := SetEnt(w1, w1.player, p.(kind := Fed(p.kind)));
    Outcome(Spawn(w2, NewVortex(VortexX, VortexY, VortexSpeed)), [Register(|w.ents|, VortexSpeed)])
  }

  /** What `interact` does, object by object. */
  lemma InteractCases(w: World)
    requires Valid(w)
    ensures var f := FacingObject(w, w.player); var r := Interact(w);
            f.Some? && w.ents[f.value].kind.Pizza? ==>
              && r.w.things == Remove(w.things, f.value) + [|w.ents|]
              && f.value !in r.w.things
              && PlayerOf(r.w).kind == Fed(PlayerOf(w).kind)
              && r.w.ents[|w.ents|] == NewVortex(VortexX, VortexY, VortexSpeed)
              && r.regs == [Register(|w.ents|, VortexSpeed)]
              && r.w.done == w.done
    ensures var f := FacingObject(w, w.player); var r := Interact(w);
            f.Some? && w.ents[f.value].kind.Pizza? ==>
              && |r.w.ents| == |w.ents| + 1
              && PlayerOf(r.w) == PlayerOf(w).(kind := Fed(PlayerOf(w).kind))
              && (forall i :: 0 <= i < |w.ents| && i != w.player ==> r.w.ents[i] == w.ents[i])
              && r.w == w.(ents := r.w.ents, things := r.w.things)
    ensures var f := FacingObject(w, w.player); var r := Interact(w);
            f.Some? && w.ents[f.value].kind.Vortex? ==> r == Outcome(w.(done := true), [])
    ensures var f := FacingObject(w, w.player); var r := Interact(w);
            f.Some? && !w.ents[f.value].kind.Pizza? && !w.ents[f.value].kind.Vortex? ==> r == Outcome(w, [])
  {
    var f := FacingObject(w, w.player);
    if f.Some? && w.ents[f.value].kind.Pizza? {
      var o := f.value;
      var k :| 0 <= k < |w.things| && w.things[k] == o;
      assert Interact(w) == EatPizza(w, o);
    }
  }

  /** Only the Vortex ends the level, and a pizza slice can be eaten only
      once: once eaten it is gone from the map, so it can never be the
      object ahead again. */
  lemma DoneOnlyThroughVortex(w: World)
    requires Valid(w)
    ensures var f := FacingObject(w, w.player);
            Interact(w).w.done ==> w.done || (f.Some? && w.ents[f.value].kind.Vortex?)
    ensures var f := FacingObject(w, w.player); var r := Interact(w).w;
            f.Some? && w.ents[f.value].kind.Pizza? ==> FacingObject(r, r.player) != f
  {
    InteractCases(w);
  }
}
