/** The things of the world: every object on the map is a Thing with a name,
    a description, a position, a facing, the event frequency it registered
    with, and the capability flags `walkable`, `takable`, `flammable` and
    `burnt`. The class of the object (and the state its class adds) is the
    `Kind`. */
module Entities {
  import opened Grid

  /** Index of an entity in the world's entity table. */
  type Id = nat

  datatype Caps = Caps(walkable: bool, takable: bool, flammable: bool, burnt: bool)

  /** The classes of the object hierarchy, with the state each one adds. */
  datatype Kind =
    | Decor                      // a plain Thing (Felix and the like)
    | Door                       // a flammable Thing
    | Barricade                  // BarricadeDoor
    | Pizza
    | Vortex(state: int)
    | Rat
    | Llama(intelligence: int, health: int, ax: int, ay: int)
    | Player(health: int, maxHealth: int, fbRange: int, fbSpeed: int, fbPower: int, inventory: seq<Id>)
    | Fireball(rangeLeft: int, power: int)
    | Spitball(rangeLeft: int, power: int)

  datatype Entity = Entity(
    name: string,
    description: string,
    kind: Kind,
    x: int,
    y: int,
    facing: Dir,
    caps: Caps,
    freq: int)

  /** Spitball range and event frequency of every Llama (`_fb_range`, `_fb_speed`). */
  const LlamaSpitRange: int := 2
  const LlamaSpitSpeed: int := 15
  /** How far a Llama wanders from its anchor, and how close the player must be to be chased. */
  const WanderRange: int := 7
  /** Event frequency and position of the Vortex that appears when the pizza is eaten. */
  const VortexSpeed: int := 20
  const VortexX: int := 48
  const VortexY: int := 48

  /** The flags of a fresh Thing: nothing can walk over, take or burn it. */
  const ThingCaps: Caps := Caps(false, false, false, false)

  predicate IsProjectile(k: Kind)
  {
    k.Fireball? || k.Spitball?
  }

  predicate At(e: Entity, x: int, y: int)
  {
    e.x == x && e.y == y
  }

  /** A new projectile: a Thing that can be walked over, flying towards `facing`. */
  function NewFireball(facing: Dir, range: int, power: int, x: int, y: int, freq: int): (e: Entity)
    ensures e.kind == Fireball(range, power) && At(e, x, y) && e.facing == facing && e.freq == freq
    ensures e.caps == Caps(true, false, false, false)
  {
    Entity("Projectile", "A projectile", Fireball(range, power), x, y, facing, ThingCaps.(walkable := true), freq)
  }

  function NewSpitball(facing: Dir, range: int, power: int, x: int, y: int, freq: int): (e: Entity)
    ensures e.kind == Spitball(range, power) && At(e, x, y) && e.facing == facing && e.freq == freq
    ensures e.caps == Caps(true, false, false, false)
  {
    Entity("Projectile", "A projectile", Spitball(range, power), x, y, facing, ThingCaps.(walkable := true), freq)
  }

  /** A new Vortex in its first animation state; its facing is never used. */
  function NewVortex(x: int, y: int, freq: int): (e: Entity)
    ensures e.kind == Vortex(0) && At(e, x, y) && e.freq == freq && e.caps == ThingCaps
  {
    Entity("Vortex", "Where does it lead?", Vortex(0), x, y, Left, ThingCaps, freq)
  }

  /** `burn`: the object becomes a pile of ashes. It can be walked over, can
      no longer be taken or set on fire, is marked burnt, and its name and
      description say what it used to be. Position, facing, class state and
      frequency are untouched. */
  function Burn(e: Entity): (r: Entity)
    ensures r.caps.walkable && !r.caps.takable && !r.caps.flammable && r.caps.burnt
    ensures r.name == e.name + "'s ashes"
    ensures r.description == "what used to be " + e.description
    ensures r.kind == e.kind && At(r, e.x, e.y) && r.facing == e.facing && r.freq == e.freq
  {
    e.(caps := Caps(walkable := true, takable := false, flammable := false, burnt := true),
       name := e.name + "'s ashes",
       description := "what used to be " + e.description)
  }

  /** Burning is a one-way transition of the flags: burning ashes again
      leaves every flag as it was, but the name grows by another "'s ashes". */
  lemma BurnFlagsIdempotent(e: Entity)
    ensures Burn(Burn(e)).caps == Burn(e).caps
    ensures Burn(Burn(e)).name == Burn(e).name + "'s ashes"
    ensures |Burn(Burn(e)).name| > |Burn(e).name|
    ensures Burn(Burn(e)) != Burn(e)
  {
    assert |Burn(Burn(e)).name| == |Burn(e).name| + 8;
  }
}
