/** Projectiles: a Fireball (shot by the player) or a Spitball (spat by a
    Llama) flies one cell per event in the direction it was fired, for at
    most its range. Before each step `move_or_stop` runs a fixed sequence of
    stop tests; a stopped projectile acts on whatever it rests on and leaves
    play without registering again. */
module Projectiles {
  import opened Wrappers
  import opened Grid
  import opened Entities
  import opened Screen
  import opened Combat

  /** The test of `move_or_stop` that stopped a projectile. */
  datatype StopReason =
    | Border          // the next cell is off the map
    | BlockingTile    // the next tile cannot be entered
    | BurningTile     // a Fireball standing on a flammable tile
    | BlockingThing   // the first object ahead blocks it
    | OnLlama         // a Fireball on a live Llama
    | OnFlammable     // a Fireball on a flammable object
    | OnPlayer        // a Spitball on the player

  /** The four border tests: the projectile sits on an edge of the map and flies off it. */
  predicate AtBorder(e: Entity)
  {
    || (e.x == 0 && Delta(e.facing).0 == -1)
    || (e.x == LevelWidth - 1 && Delta(e.facing).0 == 1)
    || (e.y == 0 && Delta(e.facing).1 == -1)
    || (e.y == LevelHeight - 1 && Delta(e.facing).1 == 1)
  }

  /** For an object on the map, the border tests hold exactly when the cell ahead is off the map. */
  lemma AtBorderIffLeaving(e: Entity)
    requires InBounds(e.x, e.y)
    ensures AtBorder(e) <==> !InBounds(Ahead(e).0, Ahead(e).1)
  {
  }

  /** `f_obj`/`o_obj` tests, on the first object found. */
  predicate FacingSatisfies(w: World, id: Id, p: Entity -> bool)
    requires IdsIn(w.things, |w.ents|) && id < |w.ents|
  {
    var f := FacingObject(w, id);
    f.Some? && p(w.ents[f.value])
  }

  predicate OnSatisfies(w: World, id: Id, p: Entity -> bool)
    requires IdsIn(w.things, |w.ents|) && id < |w.ents|
  {
    var o := OnObject(w, id);
    o.Some? && p(w.ents[o.value])
  }

  /** The object tests of the stop rules. */
  predicate BlocksFireball(t: Entity) { !t.caps.walkable && !t.caps.flammable && !t.kind.Llama? }
  predicate LiveLlama(t: Entity) { t.kind.Llama? && !t.caps.burnt }
  predicate Flammable(t: Entity) { t.caps.flammable }
  predicate BlocksSpitball(t: Entity) { !t.caps.walkable && !t.kind.Player? }
  predicate IsPlayer(t: Entity) { t.kind.Player? }

  /** The tile tests of the stop rules: the tile ahead is on the map and
      UNWALKABLE but not FLAMMABLE (a Fireball cannot enter it), or merely
      UNWALKABLE (a Spitball cannot); the tile underneath is FLAMMABLE. */
  predicate TileAheadBlocksFireball(w: World, id: Id)
    requires Valid(w) && id < |w.ents|
  {
    var (tx, ty) := Ahead(w.ents[id]);
    InBounds(tx, ty) && Tile(w.terrain, tx, ty) in w.terrain.unwalkable && Tile(w.terrain, tx, ty) !in w.terrain.flammable
  }

  predicate TileAheadBlocksSpitball(w: World, id: Id)
    requires Valid(w) && id < |w.ents|
  {
    var (tx, ty) := Ahead(w.ents[id]);
    InBounds(tx, ty) && Tile(w.terrain, tx, ty) in w.terrain.unwalkable
  }

  predicate OnFlammableTile(w: World, id: Id)
    requires Valid(w) && id < |w.ents|
  {
    Tile(w.terrain, w.ents[id].x, w.ents[id].y) in w.terrain.flammable
  }

  /** The stop tests of `Projectile.move_or_stop` (used by Fireballs), in
      order: border, an UNWALKABLE tile ahead that is not FLAMMABLE, a
      FLAMMABLE tile underneath, a solid, non-flammable, non-Llama object
      ahead, a live Llama underneath, a flammable object underneath. The
      first test that holds names the reason; when none holds the Fireball
      flies on. */
  function FireballStopReason(w: World, id: Id): (r: Option<StopReason>)
    requires Valid(w) && id < |w.ents|
    ensures var e := w.ents[id];
            && (r == Some(Border) <==> AtBorder(e))
            && (r == Some(BlockingTile) <==> !AtBorder(e) && TileAheadBlocksFireball(w, id))
            && (r == Some(BurningTile) <==> !AtBorder(e) && !TileAheadBlocksFireball(w, id) && OnFlammableTile(w, id))
            && (r == Some(BlockingThing) <==>
                  !AtBorder(e) && !TileAheadBlocksFireball(w, id) && !OnFlammableTile(w, id)
                  && FacingSatisfies(w, id, BlocksFireball))
            && (r == Some(OnLlama) <==>
                  !AtBorder(e) && !TileAheadBlocksFireball(w, id) && !OnFlammableTile(w, id)
                  && !FacingSatisfies(w, id, BlocksFireball) && OnSatisfies(w, id, LiveLlama))
            && (r == Some(OnFlammable) <==>
                  !AtBorder(e) && !TileAheadBlocksFireball(w, id) && !OnFlammableTile(w, id)
                  && !FacingSatisfies(w, id, BlocksFireball) && !OnSatisfies(w, id, LiveLlama)
                  && OnSatisfies(w, id, Flammable))
            && (r.None? <==>
                  !AtBorder(e) && !TileAheadBlocksFireball(w, id) && !OnFlammableTile(w, id)
                  && !FacingSatisfies(w, id, BlocksFireball) && !OnSatisfies(w, id, LiveLlama)
                  && !OnSatisfies(w, id, Flammable))
    ensures r.None? ==> && InBounds(Ahead(w.ents[id]).0, Ahead(w.ents[id]).1)
                        && var t := Tile(w.terrain, Ahead(w.ents[id]).0, Ahead(w.ents[id]).1);
                           !(t in w.terrain.unwalkable && t !in w.terrain.flammable)
    ensures r != Some(OnPlayer)
  {
    var e := w.ents[id];
    if AtBorder(e) then Some(Border)
    else
      AtBorderIffLeaving(e);
      if TileAheadBlocksFireball(w, id) then Some(BlockingTile)
      else if OnFlammableTile(w, id) then Some(BurningTile)
      else if FacingSatisfies(w, id, BlocksFireball) then Some(BlockingThing)
      else if OnSatisfies(w, id, LiveLlama) then Some(OnLlama)
      else if OnSatisfies(w, id, Flammable) then Some(OnFlammable)
      else None
  }

  /** The stop tests of `Spitball.move_or_stop`, in order: border, any
      UNWALKABLE tile ahead, a solid object ahead other than the player, the
      player underneath. The first test that holds names the reason; when
      none holds the Spitball flies on. */
  function SpitballStopReason(w: World, id: Id): (r: Option<StopReason>)
    requires Valid(w) && id < |w.ents|
    ensures var e := w.ents[id];
            && (r == Some(Border) <==> AtBorder(e))
            && (r == Some(BlockingTile) <==> !AtBorder(e) && TileAheadBlocksSpitball(w, id))
            && (r == Some(BlockingThing) <==>
                  !AtBorder(e) && !TileAheadBlocksSpitball(w, id) && FacingSatisfies(w, id, BlocksSpitball))
            && (r == Some(OnPlayer) <==>
                  !AtBorder(e) && !TileAheadBlocksSpitball(w, id) && !FacingSatisfies(w, id, BlocksSpitball)
                  && OnSatisfies(w, id, IsPlayer))
            && (r.None? <==>
                  !AtBorder(e) && !TileAheadBlocksSpitball(w, id) && !FacingSatisfies(w, id, BlocksSpitball)
                  && !OnSatisfies(w, id, IsPlayer))
    ensures r.None? ==> && InBounds(Ahead(w.ents[id]).0, Ahead(w.ents[id]).1)
                        && Tile(w.terrain, Ahead(w.ents[id]).0, Ahead(w.ents[id]).1) !in w.terrain.unwalkable
    ensures r != Some(BurningTile) && r != Some(OnLlama) && r != Some(OnFlammable)
  {
    var e := w.ents[id];
    if AtBorder(e) then Some(Border)
    else
      AtBorderIffLeaving(e);
      if TileAheadBlocksSpitball(w, id) then Some(BlockingTile)
      else if FacingSatisfies(w, id, BlocksSpitball) then Some(BlockingThing)
      else if OnSatisfies(w, id, IsPlayer) then Some(OnPlayer)
      else None
  }

  function StopReasonOf(w: World, id: Id): (r: Option<StopReason>)
    requires Valid(w) && id < |w.ents|
    ensures r.None? ==> InBounds(Ahead(w.ents[id]).0, Ahead(w.ents[id]).1)
  {
    if w.ents[id].kind.Fireball? then FireballStopReason(w, id) else SpitballStopReason(w, id)
  }

  /** The projectile's class with `n` range left. */
  function WithRange(k: Kind, n: int): (r: Kind)
    requires IsProjectile(k)
    ensures IsProjectile(r) && r.Fireball? == k.Fireball? && r.rangeLeft == n && r.power == k.power
  {
    if k.Fireball? then Fireball(n, k.power) else Spitball(n, k.power)
  }

  /** The part of a projectile that its flight is about: class state,
      position, direction and frequency (burning changes none of them). */
  function Moves(e: Entity): (Kind, int, int, Dir, int)
  {
    (e.kind, e.x, e.y, e.facing, e.freq)
  }

  /** What a stopping Fireball does to the object `o` it rests on: nothing
      to ashes; otherwise it burns a flammable object, or else hits a
      Llama, or else turns a FLAMMABLE tile into code 0. */
  function FireballActsOn(w: World, id: Id, o: Id): (r: World)
    requires Valid(w) && id < |w.ents| && w.ents[id].kind.Fireball? && o < |w.ents|
    ensures Valid(r) && |r.ents| == |w.ents| && Moves(r.ents[id]) == Moves(w.ents[id])
    ensures r.player == w.player && r.done == w.done && r.lost == w.lost && r.quit == w.quit
    ensures var t := w.ents[o]; var e := w.ents[id];
            && (t.caps.burnt ==> r == w)
            && ((!t.caps.burnt && t.caps.flammable)
                ==> r == w.(ents := w.ents[o := Burn(t)]))
            && ((!t.caps.burnt && !t.caps.flammable && t.kind.Llama?)
                ==> && r == LlamaHit(w, o, e.kind.power)
                    && r.ents[o].kind == Llama(t.kind.intelligence, t.kind.health - (e.kind.power + 1), t.kind.ax, t.kind.ay)
                    && r.terrain == w.terrain && (r.ents[o].caps.burnt <==> r.ents[o].kind.health <= 0))
            && ((!t.caps.burnt && !t.caps.flammable && !t.kind.Llama?)
                ==> r == w.(terrain := r.terrain)
                      && (Tile(w.terrain, e.x, e.y) in w.terrain.flammable ==> Tile(r.terrain, e.x, e.y) == 0)
                      && (Tile(w.terrain, e.x, e.y) !in w.terrain.flammable ==> r == w))
  {
    var e := w.ents[id];
    var t := w.ents[o];
    if t.caps.burnt then w
    else if t.caps.flammable then SetEnt(w, o, Burn(t))
    else if t.kind.Llama? then FireballHitsLlama(w, id, o)
    else if Tile(w.terrain, e.x, e.y) in w.terrain.flammable then FireballScorches(w, id)
    else w
  }

  /** The Llama branch of `FireballActsOn`: the Llama is hit with the
      Fireball's power, and the Fireball itself is left as it was. */
  function FireballHitsLlama(w: World, id: Id, o: Id): (r: World)
    requires Valid(w) && id < |w.ents| && w.ents[id].kind.Fireball? && o < |w.ents| && w.ents[o].kind.Llama?
    ensures r == LlamaHit(w, o, w.ents[id].kind.power)
    ensures Valid(r) && |r.ents| == |w.ents| && r.ents[id] == w.ents[id] && r.terrain == w.terrain
    ensures r.player == w.player && r.done == w.done && r.lost == w.lost && r.quit == w.quit
  {
    var r := LlamaHit(w, o, w.ents[id].kind.power);
    assert o != id;
    r
  }

  /** The tile branch of `FireballActsOn`: the tile under the Fireball becomes code 0, nothing else changes. */
  function FireballScorches(w: World, id: Id): (r: World)
    requires Valid(w) && id < |w.ents|
    ensures Valid(r) && r == w.(terrain := r.terrain)
    ensures Tile(r.terrain, w.ents[id].x, w.ents[id].y) == 0
  {
    w.(terrain := Scorch(w.terrain, w.ents[id].x, w.ents[id].y))
  }

  /** What a stopping Fireball does to the first object in its own cell
      (possibly itself), as `FireballActsOn` says; with no object there, nothing. */
  function FireballEffect(w: World, id: Id): (r: World)
    requires Valid(w) && id < |w.ents| && w.ents[id].kind.Fireball?
    ensures Valid(r) && |r.ents| == |w.ents| && Moves(r.ents[id]) == Moves(w.ents[id])
    ensures r.player == w.player && r.done == w.done && r.lost == w.lost && r.quit == w.quit
    ensures OnObject(w, id).None? ==> r == w
    ensures OnObject(w, id).Some? ==>
              var o := OnObject(w, id).value; var t := w.ents[o]; var e := w.ents[id];
              && (t.caps.burnt ==> r == w)
              && ((!t.caps.burnt && t.caps.flammable)
                  ==> r == w.(ents := w.ents[o := Burn(t)]))
              && ((!t.caps.burnt && !t.caps.flammable && t.kind.Llama?)
                  ==> && r == LlamaHit(w, o, e.kind.power)
                      && r.ents[o].kind == Llama(t.kind.intelligence, t.kind.health - (e.kind.power + 1), t.kind.ax, t.kind.ay)
                      && r.terrain == w.terrain && (r.ents[o].caps.burnt <==> r.ents[o].kind.health <= 0))
              && ((!t.caps.burnt && !t.caps.flammable && !t.kind.Llama?)
                  ==> r == w.(terrain := r.terrain)
                        && (Tile(w.terrain, e.x, e.y) in w.terrain.flammable ==> Tile(r.terrain, e.x, e.y) == 0)
                        && (Tile(w.terrain, e.x, e.y) !in w.terrain.flammable ==> r == w))
  {
    match OnObject(w, id)
    case None => w
    case Some(o) => FireballActsOn(w, id, o)
  }

  /** `Fireball.stop`: the range drops to 0, the Fireball acts on what it
      rests on, and it leaves play. The effect never reads the range, so the
      model resets the range after the effect instead of before it. */
  function FireballStop(w: World, id: Id): (r: World)
    requires Valid(w) && id < |w.ents| && w.ents[id].kind.Fireball?
    ensures Valid(r) && |r.ents| == |w.ents| && id !in r.things
    ensures Moves(r.ents[id]) == Moves(w.ents[id].(kind := Fireball(0, w.ents[id].kind.power)))
    ensures r.player == w.player && r.done == w.done && r.lost == w.lost && r.quit == w.quit
    ensures var f := FireballEffect(w, id);
            && r.ents[id] == f.ents[id].(kind := Fireball(0, w.ents[id].kind.power))
            && (forall i :: 0 <= i < |w.ents| && i != id ==> r.ents[i] == f.ents[i])
            && r.terrain == f.terrain && r.things == Remove(f.things, id)
            && r.initialLlamas == f.initialLlamas && r.dedLlamas == f.dedLlamas
  {
    var e := w.ents[id];
    var w1 := FireballEffect(w, id);
    Delete(SetEnt(w1, id, w1.ents[id].(kind := Fireball(0, e.kind.power))), id)
  }

  /** A Fireball in play always finds something in its own cell (itself, if
      nothing earlier), so one of the cases of `FireballEffect` applies; and
      whatever it does, it leaves play. */
  lemma FireballStopCases(w: World, id: Id, k: nat)
    requires Valid(w) && k < |w.things| && w.things[k] == id && w.ents[id].kind.Fireball?
    ensures OnObject(w, id).Some?
    ensures var o := OnObject(w, id).value; var t := w.ents[o]; var r := FireballStop(w, id);
            && (o == id <==> forall j :: 0 <= j < k ==> !At(w.ents[w.things[j]], w.ents[id].x, w.ents[id].y))
            && (!t.caps.burnt && t.caps.flammable && o != id ==> r.ents[o] == Burn(t))
            && (t.caps.burnt ==> r.terrain == w.terrain)
            && id !in r.things
  {
    OnObjectFindsSelfOrEarlier(w, id, k);
  }

  /** Two entity tables that place every object alike answer `on_object` alike. */
  lemma {:induction false} FirstIndexAtSame(a: seq<Entity>, b: seq<Entity>, ids: seq<Id>, x: int, y: int)
    requires |a| == |b| && IdsIn(ids, |a|)
    requires forall i :: 0 <= i < |a| ==> (At(a[i], x, y) <==> At(b[i], x, y))
    ensures FirstIndexAt(a, ids, x, y) == FirstIndexAt(b, ids, x, y)
  {
    if ids != [] {
      FirstIndexAtSame(a, b, ids[1..], x, y);
    }
  }

  /** `Spitball.stop`: the range drops to 0 and a Spitball resting on the
      player hits it. The Spitball then leaves play, unless the hit ended the
      game (the program exits inside `die`, before the Spitball is removed). */
  function SpitballStop(w: World, id: Id): (r: World)
    requires Valid(w) && id < |w.ents| && w.ents[id].kind.Spitball?
    ensures Valid(r) && |r.ents| == |w.ents| && r.player == w.player && r.terrain == w.terrain
    ensures Moves(r.ents[id]) == Moves(w.ents[id].(kind := Spitball(0, w.ents[id].kind.power)))
    ensures OnSatisfies(w, id, IsPlayer)
            ==> PlayerOf(r).kind.health == PlayerOf(w).kind.health - (w.ents[id].kind.power + 1)
    ensures !OnSatisfies(w, id, IsPlayer) ==> PlayerOf(r) == PlayerOf(w) && r.lost == w.lost
    ensures OnSatisfies(w, id, IsPlayer) ==> (r.lost <==> w.lost || PlayerOf(r).kind.health <= 0)
                                             && PlayerOf(r) == PlayerOf(w).(kind := PlayerOf(r).kind)
    ensures forall i :: 0 <= i < |w.ents| && i != id && i != w.player ==> r.ents[i] == w.ents[i]
    ensures r.things == (if OnSatisfies(w, id, IsPlayer) && r.lost then w.things else Remove(w.things, id))
    ensures r.initialLlamas == w.initialLlamas && r.dedLlamas == w.dedLlamas
    ensures r.done == w.done && r.quit == w.quit
    ensures r.lost || id !in r.things
  {
    SpitballLands(SpitballSpent(w, id), id, OnSatisfies(w, id, IsPlayer))
  }

  /** The first step of `Spitball.stop`: the range drops to 0. The Spitball
      stays where it is, so it rests on the same object as before. */
  function SpitballSpent(w: World, id: Id): (r: World)
    requires Valid(w) && id < |w.ents| && w.ents[id].kind.Spitball?
    ensures Valid(r) && r == w.(ents := r.ents) && |r.ents| == |w.ents|
    ensures r.ents[id] == w.ents[id].(kind := Spitball(0, w.ents[id].kind.power))
    ensures forall i :: 0 <= i < |w.ents| && i != id ==> r.ents[i] == w.ents[i]
    ensures PlayerOf(r) == PlayerOf(w)
    ensures OnSatisfies(r, id, IsPlayer) == OnSatisfies(w, id, IsPlayer)
  {
    var e := w.ents[id];
    var r := SetEnt(w, id, e.(kind := Spitball(0, e.kind.power)));
    assert OnObject(r, id) == OnObject(w, id) by {
      FirstIndexAtSame(w.ents, r.ents, w.things, e.x, e.y);
    }
    r
  }

  /** The rest of `Spitball.stop` once the range is 0: a hit on the player
      when the Spitball rests on it, then the Spitball leaves play unless
      that hit lost the game. */
  function SpitballLands(w: World, id: Id, onPlayer: bool): (r: World)
    requires Valid(w) && id < |w.ents| && w.ents[id].kind.Spitball?
    ensures Valid(r) && |r.ents| == |w.ents| && r.player == w.player && r.terrain == w.terrain
    ensures r.ents[id] == w.ents[id]
    ensures onPlayer ==> && PlayerOf(r).kind.health == PlayerOf(w).kind.health - (w.ents[id].kind.power + 1)
                         && (r.lost <==> w.lost || PlayerOf(r).kind.health <= 0)
                         && PlayerOf(r) == PlayerOf(w).(kind := PlayerOf(r).kind)
    ensures !onPlayer ==> PlayerOf(r) == PlayerOf(w) && r.lost == w.lost
    ensures forall i :: 0 <= i < |w.ents| && i != w.player ==> r.ents[i] == w.ents[i]
    ensures r.things == (if onPlayer && r.lost then w.things else Remove(w.things, id))
    ensures r.initialLlamas == w.initialLlamas && r.dedLlamas == w.dedLlamas
    ensures r.done == w.done && r.quit == w.quit
  {
    if onPlayer then
      var w2 := PlayerHit(w, w.ents[id].kind.power);
      if w2.lost then w2 else Delete(w2, id)
    else Delete(w, id)
  }

  function StopProjectile(w: World, id: Id): (r: World)
    requires Valid(w) && id < |w.ents| && IsProjectile(w.ents[id].kind)
    ensures Valid(r) && |r.ents| == |w.ents| && r.player == w.player
    ensures Moves(r.ents[id]) == Moves(w.ents[id].(kind := WithRange(w.ents[id].kind, 0)))
    ensures r.lost || id !in r.things
  {
    if w.ents[id].kind.Fireball? then FireballStop(w, id) else SpitballStop(w, id)
  }

  /** One step of flight: one unit of range spent, one cell further on. */
  function Advance(w: World, id: Id): (r: World)
    requires Valid(w) && id < |w.ents| && IsProjectile(w.ents[id].kind)
    requires InBounds(Ahead(w.ents[id]).0, Ahead(w.ents[id]).1)
    ensures Valid(r) && r == w.(ents := r.ents) && |r.ents| == |w.ents|
    ensures var e := w.ents[id];
            r.ents[id] == e.(kind := WithRange(e.kind, e.kind.rangeLeft - 1), x := Ahead(e).0, y := Ahead(e).1)
    ensures forall i :: 0 <= i < |w.ents| && i != id ==> r.ents[i] == w.ents[i]
  {
    var e := w.ents[id];
    SetEnt(w, id, e.(kind := WithRange(e.kind, e.kind.rangeLeft - 1), x := Ahead(e).0, y := Ahead(e).1))
  }

  /** `Projectile.event`: with range left, spend one unit of it and either
      stop or advance one cell and register again with the same frequency;
      with no range left, stop. A stopped projectile registers nothing.
      (The unit spent before a stop is not observable: stopping resets the
      range to 0.) */
  function ProjectileEvent(w: World, id: Id): (r: Outcome)
    requires Valid(w) && id < |w.ents| && IsProjectile(w.ents[id].kind)
    ensures Valid(r.w) && |r.w.ents| == |w.ents| && r.w.player == w.player
    ensures var e := w.ents[id]; var f := r.w.ents[id];
            && f.kind.Fireball? == e.kind.Fireball? && IsProjectile(f.kind)
            && f.facing == e.facing && f.freq == e.freq && f.kind.power == e.kind.power
    ensures r.regs == [] || r.regs == [Register(id, w.ents[id].freq)]
  {
    var e := w.ents[id];
    if e.kind.rangeLeft > 0 && StopReasonOf(w, id).None? then
      Outcome(Advance(w, id), [Register(id, e.freq)])
    else Outcome(StopProjectile(w, id), [])
  }

  /** The two outcomes of a projectile's event. It registers again exactly
      when it had range left and no stop test fired; then it has spent one
      unit of range, stands one cell further on and every other object is
      still in play. Otherwise it has no range left, has not moved, and has
      left play (unless its hit ended the game). */
  lemma ProjectileEventCases(w: World, id: Id)
    requires Valid(w) && id < |w.ents| && IsProjectile(w.ents[id].kind)
    ensures var r := ProjectileEvent(w, id); var e := w.ents[id]; var f := r.w.ents[id];
            && (r.regs != [] <==> e.kind.rangeLeft > 0 && StopReasonOf(w, id).None?)
            && (r.regs != [] ==> && f.kind.rangeLeft == e.kind.rangeLeft - 1
                                 && At(f, Ahead(e).0, Ahead(e).1)
                                 && r.w.things == w.things)
            && (r.regs == [] ==> && f.kind.rangeLeft == 0
                                 && At(f, e.x, e.y)
                                 && (r.w.lost || id !in r.w.things))
  {
  }

  /** A Fireball never advances into a cell off the map or onto an
      UNWALKABLE tile that is not FLAMMABLE, and never advances from a
      FLAMMABLE tile. */
  lemma FireballAdvanceIsSafe(w: World, id: Id)
    requires Valid(w) && id < |w.ents| && w.ents[id].kind.Fireball?
    requires ProjectileEvent(w, id).regs != []
    ensures var f := ProjectileEvent(w, id).w.ents[id];
            && InBounds(f.x, f.y)
            && var t := Tile(w.terrain, f.x, f.y); !(t in w.terrain.unwalkable && t !in w.terrain.flammable)
    ensures Tile(w.terrain, w.ents[id].x, w.ents[id].y) !in w.terrain.flammable
  {
    ProjectileEventCases(w, id);
  }

  /** A Fireball with range left on a FLAMMABLE tile stops where it is,
      whatever lies ahead. */
  lemma FireballStopsOnFlammableTile(w: World, id: Id)
    requires Valid(w) && id < |w.ents| && w.ents[id].kind.Fireball? && w.ents[id].kind.rangeLeft > 0
    requires Tile(w.terrain, w.ents[id].x, w.ents[id].y) in w.terrain.flammable
    ensures ProjectileEvent(w, id).regs == []
    ensures At(ProjectileEvent(w, id).w.ents[id], w.ents[id].x, w.ents[id].y)
  {
    ProjectileEventCases(w, id);
  }

  /** The next `n` events of the projectile all find range left and no stop test firing. */
  ghost predicate Unobstructed(w: World, id: Id, n: nat)
    requires Valid(w) && id < |w.ents| && IsProjectile(w.ents[id].kind)
    decreases n
  {
    n == 0 ||
      (&& w.ents[id].kind.rangeLeft > 0
       && StopReasonOf(w, id).None?
       && Unobstructed(Advance(w, id), id, n - 1))
  }

  /** The state after `n` unobstructed events of the projectile: each one
      moves it one cell and spends one unit of range, so it has moved `n`
      cells in its direction and spent `n` units. */
  function Flight(w: World, id: Id, n: nat): (r: World)
    requires Valid(w) && id < |w.ents| && IsProjectile(w.ents[id].kind)
    requires Unobstructed(w, id, n)
    ensures Valid(r) && |r.ents| == |w.ents| && IsProjectile(r.ents[id].kind)
    ensures r.ents[id].facing == w.ents[id].facing && r.ents[id].freq == w.ents[id].freq
    ensures r.ents[id].kind.rangeLeft == w.ents[id].kind.rangeLeft - n
    ensures r.ents[id].x == w.ents[id].x + n * Delta(w.ents[id].facing).0
    ensures r.ents[id].y == w.ents[id].y + n * Delta(w.ents[id].facing).1
    decreases n
  {
    if n == 0 then w
    else
      var e := w.ents[id];
      var r := Flight(Advance(w, id), id, n - 1);
      assert r.ents[id].x == e.x + Delta(e.facing).0 + (n - 1) * Delta(e.facing).0;
      assert r.ents[id].y == e.y + Delta(e.facing).1 + (n - 1) * Delta(e.facing).1;
      OneMoreStep(Delta(e.facing).0, n);
      OneMoreStep(Delta(e.facing).1, n);
      r
  }

  /** One step of `d` followed by `n - 1` more is `n` steps. */
  lemma OneMoreStep(d: int, n: nat)
    requires n > 0
    ensures d + (n - 1) * d == n * d
  {
  }

  /** An unobstructed event is exactly one step of flight, registered again with the same frequency. */
  lemma UnobstructedEventAdvances(w: World, id: Id, n: nat)
    requires Valid(w) && id < |w.ents| && IsProjectile(w.ents[id].kind)
    requires n > 0 && Unobstructed(w, id, n)
    ensures ProjectileEvent(w, id) == Outcome(Advance(w, id), [Register(id, w.ents[id].freq)])
  {
  }

  /** A projectile fired with range `n` whose path stays clear advances
      exactly `n` cells in its direction; the next event finds no range
      left, stops it and registers nothing. */
  lemma FlightThenStop(w: World, id: Id, n: nat)
    requires Valid(w) && id < |w.ents| && IsProjectile(w.ents[id].kind)
    requires w.ents[id].kind.rangeLeft == n && Unobstructed(w, id, n)
    ensures var e := w.ents[id]; var f := Flight(w, id, n).ents[id];
            && f.x == e.x + n * Delta(e.facing).0 && f.y == e.y + n * Delta(e.facing).1
            && f.kind.rangeLeft == 0
    ensures var last := ProjectileEvent(Flight(w, id, n), id);
            last.regs == [] && (last.w.lost || id !in last.w.things)
  {
    ProjectileEventCases(Flight(w, id, n), id);
  }

}
