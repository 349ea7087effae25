/** The Screen: the level's terrain, the entity table and the ordered list
    `_things` of the objects currently in play, the Llama bookkeeping used by
    the win condition, and the game-over flags. Objects are referred to by
    their index in the entity table; an object that leaves play (eaten,
    taken, a projectile that stopped) keeps its entry in the table but leaves
    `things`. */
module Screen {
  import opened Wrappers
  import opened Grid
  import opened Entities
  import EventQueue

  /** Who an event queue entry belongs to: an object of the world, or the input poll. */
  datatype Handler = EntityEvent(id: Id) | InputPoll

  type Reg = EventQueue.Entry<Handler>

  datatype World = World(
    terrain: Terrain,
    ents: seq<Entity>,
    things: seq<Id>,
    initialLlamas: seq<Id>,
    dedLlamas: seq<Id>,
    player: Id,
    done: bool,
    lost: bool,
    quit: bool)

  /** The effect of firing one handler: the new world and the entries it
      enqueued, in the order it enqueued them. */
  datatype Outcome = Outcome(w: World, regs: seq<Reg>)

  /** `register(q, freq)`: an entry for object `id` due in `freq` ticks. */
  function Register(id: Id, freq: int): Reg
  {
    EventQueue.Entry(freq, EntityEvent(id))
  }

  predicate IdsIn(ids: seq<Id>, n: nat)
  {
    forall k :: 0 <= k < |ids| ==> ids[k] < n
  }

  predicate Distinct(ids: seq<Id>)
  {
    forall j, k :: 0 <= j < k < |ids| ==> ids[j] != ids[k]
  }

  /** What always holds of a running game: a full-size map, exactly one
      Player (the one the screen knows), every object on the map, and
      `things` a list of distinct objects of the table. */
  predicate Valid(w: World)
  {
    && WellSized(w.terrain)
    && w.player < |w.ents|
    && (forall i :: 0 <= i < |w.ents| ==> (w.ents[i].kind.Player? <==> i == w.player))
    && (forall i :: 0 <= i < |w.ents| ==> InBounds(w.ents[i].x, w.ents[i].y))
    && IdsIn(w.things, |w.ents|)
    && Distinct(w.things)
  }

  function PlayerOf(w: World): (p: Entity)
    requires Valid(w)
    ensures p.kind.Player?
  {
    w.ents[w.player]
  }

  /** The first position in `ids` (insertion order) holding an object at (x, y), or |ids|. */
  function FirstIndexAt(ents: seq<Entity>, ids: seq<Id>, x: int, y: int): (k: nat)
    requires IdsIn(ids, |ents|)
    ensures k <= |ids|
    ensures forall j :: 0 <= j < k ==> !At(ents[ids[j]], x, y)
    ensures k < |ids| ==> At(ents[ids[k]], x, y)
  {
    if ids == [] then 0
    else if At(ents[ids[0]], x, y) then 0
    else 1 + FirstIndexAt(ents, ids[1..], x, y)
  }

  /** The loop shared by `facing_object` and `on_object`: the first object in
      `things` standing at (x, y), or nothing (the source returns False). */
  function ObjectAt(w: World, x: int, y: int): (r: Option<Id>)
    requires IdsIn(w.things, |w.ents|)
    ensures r.None? <==> forall k :: 0 <= k < |w.things| ==> !At(w.ents[w.things[k]], x, y)
    ensures r.Some? ==> r.value < |w.ents| && At(w.ents[r.value], x, y)
    ensures r.Some? ==> exists k :: 0 <= k < |w.things| && w.things[k] == r.value
                                    && forall j :: 0 <= j < k ==> !At(w.ents[w.things[j]], x, y)
  {
    var k := FirstIndexAt(w.ents, w.things, x, y);
    if k < |w.things| then Some(w.things[k]) else None
  }

  /** The `for thing in self._screen._things` scan, step by step. */
  method ScanObjectAt(w: World, x: int, y: int) returns (r: Option<Id>)
    requires IdsIn(w.things, |w.ents|)
    ensures r == ObjectAt(w, x, y)
  {
    var i := 0;
    while i < |w.things|
      invariant 0 <= i <= |w.things|
      invariant forall j :: 0 <= j < i ==> !At(w.ents[w.things[j]], x, y)
    {
      if At(w.ents[w.things[i]], x, y) {
        FirstIndexAtUnique(w.ents, w.things, x, y, i);
        return Some(w.things[i]);
      }
      i := i + 1;
    }
    FirstIndexAtUnique(w.ents, w.things, x, y, |w.things|);
    return None;
  }

  lemma FirstIndexAtUnique(ents: seq<Entity>, ids: seq<Id>, x: int, y: int, k: nat)
    requires IdsIn(ids, |ents|)
    requires k <= |ids|
    requires forall j :: 0 <= j < k ==> !At(ents[ids[j]], x, y)
    requires k < |ids| ==> At(ents[ids[k]], x, y)
    ensures FirstIndexAt(ents, ids, x, y) == k
  {
  }

  /** The cell one step ahead of an object. */
  function Ahead(e: Entity): (int, int)
  {
    (e.x + Delta(e.facing).0, e.y + Delta(e.facing).1)
  }

  /** `facing_object`: the first object in the cell ahead. */
  function FacingObject(w: World, id: Id): Option<Id>
    requires IdsIn(w.things, |w.ents|) && id < |w.ents|
  {
    ObjectAt(w, Ahead(w.ents[id]).0, Ahead(w.ents[id]).1)
  }

  /** `on_object`: the first object in the object's own cell, which may be the object itself. */
  function OnObject(w: World, id: Id): Option<Id>
    requires IdsIn(w.things, |w.ents|) && id < |w.ents|
  {
    ObjectAt(w, w.ents[id].x, w.ents[id].y)
  }

  /** An object in play always finds something under itself: itself, unless
      an object that entered play earlier stands in the same cell. So the
      answer is never False while the object is in `things`. */
  lemma OnObjectFindsSelfOrEarlier(w: World, id: Id, k: nat)
    requires Valid(w) && k < |w.things| && w.things[k] == id
    ensures OnObject(w, id).Some?
    ensures OnObject(w, id) == Some(id) <==>
              forall j :: 0 <= j < k ==> !At(w.ents[w.things[j]], w.ents[id].x, w.ents[id].y)
  {
    var e := w.ents[id];
    var f := FirstIndexAt(w.ents, w.things, e.x, e.y);
    assert f <= k;
    if f < k {
      assert w.things[f] != id;
    }
  }

  /** The "Thing that is unwalkable" test of movement: some object in play at
      (x, y) cannot be walked over. */
  predicate BlockedAt(w: World, x: int, y: int)
    requires IdsIn(w.things, |w.ents|)
  {
    exists k :: 0 <= k < |w.things| && At(w.ents[w.things[k]], x, y) && !w.ents[w.things[k]].caps.walkable
  }

  /** `list.remove(x)`: drop the first occurrence of `x`. Where Python raises
      ValueError for a missing `x`, the model leaves the list as it is. */
  function Remove(s: seq<Id>, x: Id): (r: seq<Id>)
    ensures multiset(r) == multiset(s) - multiset{x}
    ensures |r| <= |s|
    ensures x !in s ==> r == s
  {
    if s == [] then []
    else
      assert s == [s[0]] + s[1..];
      if s[0] == x then s[1..] else [s[0]] + Remove(s[1..], x)
  }

  /** Removing from a list whose first occurrence of `x` is at `i` closes the gap at `i`. */
  lemma {:induction false} RemoveAt(s: seq<Id>, x: Id, i: nat)
    requires i < |s| && s[i] == x && x !in s[..i]
    ensures Remove(s, x) == s[..i] + s[i + 1..]
  {
    if i > 0 {
      var t := s[1..];
      assert s[0] != x by { assert s[0] in s[..i]; }
      assert x !in t[..i - 1] by { assert t[..i - 1] == s[1..i]; }
      RemoveAt(t, x, i - 1);
      ConsSplice(s, i);
    }
  }

  /** Putting back the head of a list in front of its tail with index `i - 1` cut out cuts out index `i`. */
  lemma ConsSplice(s: seq<Id>, i: nat)
    requires 0 < i < |s|
    ensures [s[0]] + (s[1..][..i - 1] + s[1..][i..]) == s[..i] + s[i + 1..]
  {
    assert [s[0]] + s[1..][..i - 1] == s[..i] && s[1..][i..] == s[i + 1..];
  }

  /** `Screen.add`: the object goes to the end of `things`, and a Llama is
      also recorded among the level's initial Llamas. */
  function Add(w: World, id: Id): (r: World)
    requires Valid(w) && id < |w.ents| && id !in w.things
    ensures Valid(r)
    ensures r.things == w.things + [id]
    ensures r.initialLlamas == (if w.ents[id].kind.Llama? then w.initialLlamas + [id] else w.initialLlamas)
    ensures r.ents == w.ents && r.dedLlamas == w.dedLlamas && r.terrain == w.terrain && r.player == w.player
    ensures r.done == w.done && r.lost == w.lost && r.quit == w.quit
  {
    var r := w.(things := w.things + [id],
                initialLlamas := if w.ents[id].kind.Llama? then w.initialLlamas + [id] else w.initialLlamas);
    assert forall k :: 0 <= k < |w.things| ==> r.things[k] == w.things[k];
    r
  }

  /** `Screen.delete`: the object leaves `things`; every other object stays, in order. */
  function Delete(w: World, id: Id): (r: World)
    requires Valid(w)
    ensures Valid(r)
    ensures multiset(r.things) == multiset(w.things) - multiset{id}
    ensures id !in r.things && r.things == Remove(w.things, id)
    ensures r.ents == w.ents && r.initialLlamas == w.initialLlamas && r.dedLlamas == w.dedLlamas
    ensures r.terrain == w.terrain && r.player == w.player
    ensures r.done == w.done && r.lost == w.lost && r.quit == w.quit
  {
    var t := Remove(w.things, id);
    RemoveKeepsValid(w.things, id, |w.ents|);
    w.(things := t)
  }

  /** Removing keeps the other entries in their order and drops exactly `x`. */
  lemma RemoveKeepsValid(s: seq<Id>, x: Id, n: nat)
    requires IdsIn(s, n) && Distinct(s)
    ensures IdsIn(Remove(s, x), n) && Distinct(Remove(s, x)) && x !in Remove(s, x)
  {
    if x in s {
      var i :| 0 <= i < |s| && s[i] == x;
      assert x !in s[..i];
      RemoveAt(s, x, i);
      RemoveGap(s, i);
    }
  }

  lemma RemoveGap(s: seq<Id>, i: nat)
    requires i < |s| && Distinct(s)
    ensures var r := s[..i] + s[i + 1..];
            && |r| == |s| - 1
            && (forall k :: 0 <= k < |r| ==> r[k] == if k < i then s[k] else s[k + 1])
            && Distinct(r) && s[i] !in r
  {
    var r := s[..i] + s[i + 1..];
    assert forall k :: 0 <= k < |r| ==> r[k] == if k < i then s[k] else s[k + 1];
  }

  /** Replace the object at `id` (its position, flags or class state). */
  function SetEnt(w: World, id: Id, e: Entity): (r: World)
    requires Valid(w) && id < |w.ents|
    requires InBounds(e.x, e.y) && (e.kind.Player? <==> id == w.player)
    ensures Valid(r)
    ensures |r.ents| == |w.ents| && r == w.(ents := r.ents)
    ensures r.ents[id] == e && forall i :: 0 <= i < |w.ents| && i != id ==> r.ents[i] == w.ents[i]
  {
    w.(ents := w.ents[id := e])
  }

  /** A new object enters the table at id |ents| and comes into play at the end of `things`. */
  function Spawn(w: World, e: Entity): (r: World)
    requires Valid(w) && InBounds(e.x, e.y) && !e.kind.Player?
    ensures Valid(r)
    ensures r.ents == w.ents + [e] && r.things == w.things + [|w.ents|]
    ensures r.initialLlamas == (if e.kind.Llama? then w.initialLlamas + [|w.ents|] else w.initialLlamas)
    ensures r.dedLlamas == w.dedLlamas && r.terrain == w.terrain && r.player == w.player
    ensures r.done == w.done && r.lost == w.lost && r.quit == w.quit
  {
    var w1 := w.(ents := w.ents + [e]);
    assert |w.ents| !in w.things;
    Add(w1, |w.ents|)
  }

  /** Putting an object into play and taking it out again restores `things`. */
  lemma AddThenDelete(w: World, id: Id)
    requires Valid(w) && id < |w.ents| && id !in w.things
    ensures Delete(Add(w, id), id).things == w.things
  {
    var s := w.things + [id];
    assert s[|w.things|] == id && s[..|w.things|] == w.things;
    RemoveAt(s, id, |w.things|);
    assert s[|w.things| + 1..] == [];
  }
}
