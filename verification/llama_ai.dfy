/** The Llamas' behaviour: turning to face the player, chasing the player,
    spitting at the player, and the three intelligence tiers of
    `Llama.event`. The random draws of an event are passed in as `Rolls`. */
module LlamaAI {
  import opened Wrappers
  import opened Grid
  import opened Entities
  import opened Screen
  import opened Movement
  import opened Projectiles

  /** The outcome of the random draws of one event:
      `first`  — the first `randrange(..) == 0` test of the tier,
      `second` — the `elif randrange(..) == 0` test after it,
      `dir`    — `random.choice(MOVE.values())`,
      `pickSecond` — `random.choice(choices)` picks the second of two choices. */
  datatype Rolls = Rolls(first: bool, second: bool, dir: Dir, pickSecond: bool)

  /** `face_player`'s choice for a player at offset (dx, dy): horizontal only
      when strictly further away horizontally, ties going vertical. */
  function FacingTowards(dx: int, dy: int): (r: Dir)
    ensures (r == Left || r == Right) <==> Abs(dx) > Abs(dy)
    ensures Dot(Delta(r), dx, dy) == Max(Abs(dx), Abs(dy))
  {
    if Abs(dx) > Abs(dy) then (if dx > 0 then Right else Left)
    else (if dy > 0 then Down else Up)
  }

  /** No facing points more towards the player than the one `face_player` picks. */
  lemma FacingTowardsIsBest(dx: int, dy: int, d: Dir)
    ensures Dot(Delta(d), dx, dy) <= Dot(Delta(FacingTowards(dx, dy)), dx, dy)
  {
  }

  function PlayerOffset(w: World, id: Id): (int, int)
    requires Valid(w) && id < |w.ents|
  {
    (PlayerOf(w).x - w.ents[id].x, PlayerOf(w).y - w.ents[id].y)
  }

  /** `face_player`: the Llama turns towards the player; nothing else changes. */
  function FacePlayer(w: World, id: Id): (r: World)
    requires Valid(w) && id < |w.ents| && w.ents[id].kind.Llama?
    ensures Valid(r) && r == w.(ents := r.ents) && |r.ents| == |w.ents|
    ensures r.ents[id] == w.ents[id].(facing := FacingTowards(PlayerOffset(w, id).0, PlayerOffset(w, id).1))
    ensures forall i :: 0 <= i < |w.ents| && i != id ==> r.ents[i] == w.ents[i]
  {
    var (dx, dy) := PlayerOffset(w, id);
    SetEnt(w, id, w.ents[id].(facing := FacingTowards(dx, dy)))
  }

  /** The `choices` of `move_towards_player`: a unit step along each axis on
      which the player is offset, horizontal first. */
  function Choices(dx: int, dy: int): (r: seq<Dir>)
    ensures |r| == (if dx != 0 then 1 else 0) + (if dy != 0 then 1 else 0)
    ensures forall k :: 0 <= k < |r| ==> Dot(Delta(r[k]), dx, dy) > 0
  {
    (if dx != 0 then [if dx > 0 then Right else Left] else [])
    + (if dy != 0 then [if dy > 0 then Down else Up] else [])
  }

  /** `move_towards_player`'s step: only when the player is within the
      wander range on both axes and not on the Llama's own cell; the step is
      along an axis on which the player is offset, towards the player. */
  function TowardsStep(dx: int, dy: int, pickSecond: bool): (r: Option<Dir>)
    ensures r.Some? <==> Abs(dx) < WanderRange && Abs(dy) < WanderRange && (dx, dy) != (0, 0)
    ensures r.Some? ==> r.value in Choices(dx, dy)
    ensures r.Some? ==> Abs(dx - Delta(r.value).0) + Abs(dy - Delta(r.value).1) == Abs(dx) + Abs(dy) - 1
  {
    var cs := Choices(dx, dy);
    if Abs(dx) < WanderRange && Abs(dy) < WanderRange && |cs| > 0 then
      Some(if pickSecond && |cs| == 2 then cs[1] else cs[0])
    else None
  }

  /** Every step the chase can take: each axis on which the player is offset is a possible choice. */
  lemma TowardsStepChoices(dx: int, dy: int)
    requires Abs(dx) < WanderRange && Abs(dy) < WanderRange
    ensures dx != 0 ==> TowardsStep(dx, dy, false) == Some(if dx > 0 then Right else Left)
    ensures dx != 0 && dy != 0 ==> TowardsStep(dx, dy, true) == Some(if dy > 0 then Down else Up)
    ensures dx == 0 && dy != 0 ==> TowardsStep(dx, dy, false) == Some(if dy > 0 then Down else Up)
  {
  }

  /** `move_towards_player`: a Llama move in the chosen direction (which
      may only turn the Llama), or nothing. */
  function MoveTowardsPlayer(w: World, id: Id, pickSecond: bool): (r: World)
    requires Valid(w) && id < |w.ents| && w.ents[id].kind.Llama?
    ensures Valid(r) && r == w.(ents := r.ents) && |r.ents| == |w.ents|
    ensures forall i :: 0 <= i < |w.ents| && i != id ==> r.ents[i] == w.ents[i]
    ensures var (dx, dy) := PlayerOffset(w, id); var s := TowardsStep(dx, dy, pickSecond);
            && (s.Some? ==> r == CharacterMove(w, id, s.value))
            && (s.None? ==> r == w)
  {
    var (dx, dy) := PlayerOffset(w, id);
    match TowardsStep(dx, dy, pickSecond)
    case None => w
    case Some(d) => CharacterMove(w, id, d)
  }

  /** A chasing Llama never ends up further from the player (in steps on
      the grid) than it was. */
  lemma ChaseNeverRecedes(w: World, id: Id, pickSecond: bool)
    requires Valid(w) && id < |w.ents| && w.ents[id].kind.Llama? && id != w.player
    ensures var r := MoveTowardsPlayer(w, id, pickSecond); var p := PlayerOf(w); var e := r.ents[id];
            Abs(p.x - e.x) + Abs(p.y - e.y) <= Abs(p.x - w.ents[id].x) + Abs(p.y - w.ents[id].y)
  {
    var (dx, dy) := PlayerOffset(w, id);
    match TowardsStep(dx, dy, pickSecond)
    case None =>
    case Some(d) =>
      MoveIsUnitStep(w, id, d);
  }

  /** The guards of `shoot_at_player`, in order: the player within
      `_fb_range + 3` cells on both axes, the cell ahead on the map, its tile
      not UNWALKABLE, and no solid object other than the player first
      ahead. The Llama need not be facing the player. */
  predicate CanSpit(w: World, id: Id)
    requires Valid(w) && id < |w.ents|
  {
    var e := w.ents[id];
    var (tx, ty) := Ahead(e);
    && Abs(PlayerOffset(w, id).0) < LlamaSpitRange + 3
    && Abs(PlayerOffset(w, id).1) < LlamaSpitRange + 3
    && InBounds(tx, ty)
    && !TileAheadBlocksSpitball(w, id)
    && !FacingSatisfies(w, id, BlocksSpitball)
  }

  /** A Llama spits exactly when the player is within spitting range and a
      Spitball standing in the Llama's place would not be stopped by the
      border or by what lies ahead: the remaining guards of
      `shoot_at_player` are the first three stop tests of the Spitball's
      `move_or_stop`, in the same order. */
  lemma SpitGuardsMatchSpitball(w: World, id: Id)
    requires Valid(w) && id < |w.ents|
    ensures var reason := SpitballStopReason(w, id);
            CanSpit(w, id) <==>
              && Abs(PlayerOffset(w, id).0) < LlamaSpitRange + 3
              && Abs(PlayerOffset(w, id).1) < LlamaSpitRange + 3
              && reason != Some(Border) && reason != Some(BlockingTile) && reason != Some(BlockingThing)
    ensures var reason := SpitballStopReason(w, id);
            CanSpit(w, id) ==> reason.None? || reason == Some(OnPlayer)
  {
    AtBorderIffLeaving(w.ents[id]);
  }

  /** `shoot_at_player`: when the guards pass, a new Spitball of range
      `_fb_range` and power 0 appears in the cell ahead, flying the way the
      Llama faces, registered with `_fb_speed`. */
  function ShootAtPlayer(w: World, id: Id): (r: Outcome)
    requires Valid(w) && id < |w.ents| && w.ents[id].kind.Llama?
    ensures Valid(r.w)
    ensures !CanSpit(w, id) ==> r == Outcome(w, [])
    ensures CanSpit(w, id) ==>
              var s := |w.ents|; var e := w.ents[id];
              && r.w.ents == w.ents + [NewSpitball(e.facing, LlamaSpitRange, 0, Ahead(e).0, Ahead(e).1, LlamaSpitSpeed)]
              && r.w.things == w.things + [s]
              && r.regs == [Register(s, LlamaSpitSpeed)]
    ensures r.w.terrain == w.terrain && r.w.player == w.player && r.w.lost == w.lost
    ensures r.w.done == w.done && r.w.quit == w.quit
    ensures r.w.initialLlamas == w.initialLlamas && r.w.dedLlamas == w.dedLlamas
  {
    if CanSpit(w, id) then
      var e := w.ents[id];
      var s := NewSpitball(e.facing, LlamaSpitRange, 0, Ahead(e).0, Ahead(e).1, LlamaSpitSpeed);
      Outcome(Spawn(w, s), [Register(|w.ents|, LlamaSpitSpeed)])
    else Outcome(w, [])
  }

  /** The first branch of each tier of `Llama.event`: a dumb Llama faces
      the player, an average one wanders one step in the drawn direction
      while that keeps it within the wander range of its anchor, a smart one
      chases the player. Only the Llama itself changes, and never its class
      state or its frequency. */
  function LlamaMoves(w: World, id: Id, rolls: Rolls): (r: World)
    requires Valid(w) && id < |w.ents| && w.ents[id].kind.Llama?
    ensures Valid(r) && r == w.(ents := r.ents) && |r.ents| == |w.ents|
    ensures r.ents[id].kind == w.ents[id].kind && r.ents[id].freq == w.ents[id].freq
    ensures forall i :: 0 <= i < |w.ents| && i != id ==> r.ents[i] == w.ents[i]
    ensures w.ents[id].kind.intelligence == 0 ==> r == FacePlayer(w, id)
    ensures w.ents[id].kind.intelligence == 1 ==> r == Wander(w, id, rolls.dir)
    ensures w.ents[id].kind.intelligence == 2 ==> r == MoveTowardsPlayer(w, id, rolls.pickSecond)
    ensures !(0 <= w.ents[id].kind.intelligence <= 2) ==> r == w
  {
    var e := w.ents[id];
    var k := e.kind;
    if k.intelligence == 0 then FacePlayer(w, id)
    else if k.intelligence == 1 then Wander(w, id, rolls.dir)
    else if k.intelligence == 2 then MoveTowardsPlayer(w, id, rolls.pickSecond)
    else w
  }

  /** An average Llama's random step: taken only when the cell it leads to
      stays within the wander range of the Llama's anchor. */
  function Wander(w: World, id: Id, d: Dir): (r: World)
    requires Valid(w) && id < |w.ents| && w.ents[id].kind.Llama?
    ensures Valid(r) && r == w.(ents := r.ents) && |r.ents| == |w.ents|
    ensures r.ents[id].kind == w.ents[id].kind && r.ents[id].freq == w.ents[id].freq
    ensures forall i :: 0 <= i < |w.ents| && i != id ==> r.ents[i] == w.ents[i]
    ensures var e := w.ents[id]; var (dx, dy) := Delta(d);
            !(Abs(e.x + dx - e.kind.ax) < WanderRange && Abs(e.y + dy - e.kind.ay) < WanderRange) ==> r == w
    ensures var e := w.ents[id]; var (dx, dy) := Delta(d);
            (Abs(e.x + dx - e.kind.ax) < WanderRange && Abs(e.y + dy - e.kind.ay) < WanderRange)
            ==> r == CharacterMove(w, id, d)
  {
    var e := w.ents[id];
    var (dx, dy) := Delta(d);
    if Abs(e.x + dx - e.kind.ax) < WanderRange && Abs(e.y + dy - e.kind.ay) < WanderRange
    then CharacterMove(w, id, d)
    else w
  }

  /** The tier-dependent part of `Llama.event`, before the Llama registers
      again: every tier draws first for its move and otherwise for a spit;
      an intelligence outside 0..2 does nothing. */
  function LlamaAct(w: World, id: Id, rolls: Rolls): (r: Outcome)
    requires Valid(w) && id < |w.ents| && w.ents[id].kind.Llama?
    ensures Valid(r.w) && |r.w.ents| >= |w.ents| && r.w.player == w.player && r.w.lost == w.lost
    ensures r.w.ents[id].kind == w.ents[id].kind && r.w.ents[id].freq == w.ents[id].freq
    ensures r.w.done == w.done && r.w.quit == w.quit
    ensures |r.regs| <= 1
    ensures |r.regs| == 1 ==> && |r.w.ents| == |w.ents| + 1
                              && r.regs[0] == Register(|w.ents|, LlamaSpitSpeed)
                              && r.w.ents[|w.ents|].kind == Spitball(LlamaSpitRange, 0)
    ensures |r.regs| == 0 ==> |r.w.ents| == |w.ents|
    ensures forall i :: 0 <= i < |w.ents| && i != id ==> r.w.ents[i] == w.ents[i]
    ensures r.w.terrain == w.terrain && r.w.initialLlamas == w.initialLlamas && r.w.dedLlamas == w.dedLlamas
    ensures r.w.things == (if |r.regs| == 1 then w.things + [|w.ents|] else w.things)
    ensures 0 <= w.ents[id].kind.intelligence <= 2 && rolls.first ==> r == Outcome(LlamaMoves(w, id, rolls), [])
    ensures 0 <= w.ents[id].kind.intelligence <= 2 && !rolls.first && rolls.second ==> r == ShootAtPlayer(w, id)
    ensures !(0 <= w.ents[id].kind.intelligence <= 2) || (!rolls.first && !rolls.second) ==> r == Outcome(w, [])
  {
    if !(0 <= w.ents[id].kind.intelligence <= 2) then Outcome(w, [])
    else if rolls.first then Outcome(LlamaMoves(w, id, rolls), [])
    else if rolls.second then ShootAtPlayer(w, id)
    else Outcome(w, [])
  }

  /** `Llama.event`: a pile of ashes does nothing and is not registered
      again; a live Llama acts according to its tier and then registers
      again with its frequency, after any Spitball it fired. */
  function LlamaEvent(w: World, id: Id, rolls: Rolls): (r: Outcome)
    requires Valid(w) && id < |w.ents| && w.ents[id].kind.Llama?
    ensures Valid(r.w) && |r.w.ents| >= |w.ents| && r.w.player == w.player
    ensures w.ents[id].caps.burnt ==> r == Outcome(w, [])
    ensures !w.ents[id].caps.burnt ==>
              && 1 <= |r.regs| <= 2
              && r.regs[|r.regs| - 1] == Register(id, w.ents[id].freq)
              && (|r.regs| == 2 ==> && |r.w.ents| == |w.ents| + 1
                                    && r.regs[0] == Register(|w.ents|, LlamaSpitSpeed)
                                    && r.w.ents[|w.ents|].kind == Spitball(LlamaSpitRange, 0))
              && (|r.regs| == 1 ==> |r.w.ents| == |w.ents|)
    ensures forall i :: 0 <= i < |w.ents| && i != id ==> r.w.ents[i] == w.ents[i]
    ensures r.w.terrain == w.terrain && r.w.initialLlamas == w.initialLlamas && r.w.dedLlamas == w.dedLlamas
    ensures r.w.lost == w.lost && r.w.done == w.done && r.w.quit == w.quit
    ensures r.w.things == (if |r.regs| == 2 then w.things + [|w.ents|] else w.things)
    ensures !w.ents[id].caps.burnt ==>
              r == Outcome(LlamaAct(w, id, rolls).w, LlamaAct(w, id, rolls).regs + [Register(id, w.ents[id].freq)])
  {
    var e := w.ents[id];
    if e.caps.burnt then Outcome(w, [])
    else
      var act := LlamaAct(w, id, rolls);
      Outcome(act.w, act.regs + [Register(id, e.freq)])
  }

  /** An average Llama (tier 1) wanders but never steps 7 or more cells
      away from its anchor: starting within range, it stays within range. */
  lemma WanderStaysNearAnchor(w: World, id: Id, rolls: Rolls)
    requires Valid(w) && id < |w.ents| && w.ents[id].kind.Llama? && w.ents[id].kind.intelligence == 1
    requires Abs(w.ents[id].x - w.ents[id].kind.ax) < WanderRange
    requires Abs(w.ents[id].y - w.ents[id].kind.ay) < WanderRange
    ensures var e := LlamaEvent(w, id, rolls).w.ents[id]; var k := w.ents[id].kind;
            Abs(e.x - k.ax) < WanderRange && Abs(e.y - k.ay) < WanderRange
  {
    var e := w.ents[id];
    if !e.caps.burnt && rolls.first {
      MoveIsUnitStep(w, id, rolls.dir);
    }
  }

  /** A dumb Llama (tier 0) never moves. */
  lemma DumbLlamaStaysPut(w: World, id: Id, rolls: Rolls)
    requires Valid(w) && id < |w.ents| && w.ents[id].kind.Llama? && w.ents[id].kind.intelligence == 0
    ensures At(LlamaEvent(w, id, rolls).w.ents[id], w.ents[id].x, w.ents[id].y)
  {
  }

  /** A live dumb Llama (tier 0) whose first draw comes up turns to face the
      player, and only that: it stays on its cell and registers again. */
  lemma DumbLlamaFacesPlayer(w: World, id: Id, rolls: Rolls)
    requires Valid(w) && id < |w.ents| && w.ents[id].kind.Llama? && w.ents[id].kind.intelligence == 0
    requires !w.ents[id].caps.burnt && rolls.first
    ensures var r := LlamaEvent(w, id, rolls); var (dx, dy) := PlayerOffset(w, id);
            && r.w.ents[id] == w.ents[id].(facing := FacingTowards(dx, dy))
            && r.regs == [Register(id, w.ents[id].freq)]
  {
  }

  /** A live average Llama (tier 1) whose first draw comes up, already
      facing the drawn direction, steps into the drawn cell when that cell
      stays within the wander range of its anchor and can be entered; facing
      another way, it only turns. */
  lemma AverageLlamaWanders(w: World, id: Id, rolls: Rolls)
    requires Valid(w) && id < |w.ents| && w.ents[id].kind.Llama? && w.ents[id].kind.intelligence == 1
    requires !w.ents[id].caps.burnt && rolls.first
    requires var e := w.ents[id]; var (tx, ty) := Target(e, rolls.dir);
             Abs(tx - e.kind.ax) < WanderRange && Abs(ty - e.kind.ay) < WanderRange
    ensures var e := w.ents[id]; var r := LlamaEvent(w, id, rolls).w.ents[id]; var (tx, ty) := Target(e, rolls.dir);
            && (e.facing != rolls.dir ==> r == e.(facing := rolls.dir))
            && (e.facing == rolls.dir && CanEnter(w, tx, ty) ==> r == e.(x := tx, y := ty))
            && (e.facing == rolls.dir && !CanEnter(w, tx, ty) ==> r == e)
  {
    LlamaMoveCases(w, id, rolls.dir);
  }

  /** A live smart Llama (tier 2) whose first draw comes up, already facing
      the step `move_towards_player` picks and able to enter the cell it
      leads to, ends exactly one cell closer to the player. */
  lemma SmartLlamaChases(w: World, id: Id, rolls: Rolls)
    requires Valid(w) && id < |w.ents| && w.ents[id].kind.Llama? && w.ents[id].kind.intelligence == 2
    requires !w.ents[id].caps.burnt && rolls.first
    requires var (dx, dy) := PlayerOffset(w, id); var s := TowardsStep(dx, dy, rolls.pickSecond);
             && s.Some? && w.ents[id].facing == s.value
             && CanEnter(w, Target(w.ents[id], s.value).0, Target(w.ents[id], s.value).1)
    ensures var p := PlayerOf(w); var e := w.ents[id]; var r := LlamaEvent(w, id, rolls).w.ents[id];
            Abs(p.x - r.x) + Abs(p.y - r.y) == Abs(p.x - e.x) + Abs(p.y - e.y) - 1
  {
    var (dx, dy) := PlayerOffset(w, id);
    var d := TowardsStep(dx, dy, rolls.pickSecond).value;
    LlamaMoveCases(w, id, d);
  }

  /** A live Llama whose first draw fails and whose second comes up spits
      when the guards of `shoot_at_player` pass: the Spitball enters play and
      is registered ahead of the Llama's own entry. When they fail, the
      Llama only registers again. */
  lemma LlamaSpits(w: World, id: Id, rolls: Rolls)
    requires Valid(w) && id < |w.ents| && w.ents[id].kind.Llama? && 0 <= w.ents[id].kind.intelligence <= 2
    requires !w.ents[id].caps.burnt && !rolls.first && rolls.second
    ensures var r := LlamaEvent(w, id, rolls); var e := w.ents[id];
            CanSpit(w, id) ==>
              && r.w.ents == w.ents + [NewSpitball(e.facing, LlamaSpitRange, 0, Ahead(e).0, Ahead(e).1, LlamaSpitSpeed)]
              && r.w.things == w.things + [|w.ents|]
              && r.regs == [Register(|w.ents|, LlamaSpitSpeed), Register(id, e.freq)]
    ensures !CanSpit(w, id) ==> LlamaEvent(w, id, rolls) == Outcome(w, [Register(id, w.ents[id].freq)])
  {
  }
}
