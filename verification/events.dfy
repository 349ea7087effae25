/** The remaining event handlers (`Rat.event`, `Vortex.event`, the input
    poll `CheckInput.event`), the dispatch of a queue entry to its handler,
    and one tick of the game loop: `q.dequeue_if_ready()` on the game's
    queue. What the outside world supplies to a handler (the key read by
    `checkKey` and the random draws) arrives as a stream of `Stimulus`
    values, one per firing. Also the set-up of `play_level_0`. */
module Events {
  import opened Wrappers
  import opened Grid
  import opened Entities
  import opened Screen
  import opened Movement
  import opened Projectiles
  import opened Combat
  import opened LlamaAI
  import PlayerActions
  import EventQueue

  /** `Vortex.event`: the animation state steps through 0, 1, 2, 3 and the
      Vortex registers again with its frequency. */
  function VortexEvent(w: World, id: Id): (r: Outcome)
    requires Valid(w) && id < |w.ents| && w.ents[id].kind.Vortex?
    ensures Valid(r.w) && r.w == w.(ents := r.w.ents) && |r.w.ents| == |w.ents|
    ensures r.w.ents[id].kind.Vortex? && r.w.ents[id] == w.ents[id].(kind := r.w.ents[id].kind)
    ensures forall i :: 0 <= i < |w.ents| && i != id ==> r.w.ents[i] == w.ents[i]
    ensures r.regs == [Register(id, w.ents[id].freq)]
  {
    var e := w.ents[id];
    Outcome(SetEnt(w, id, e.(kind := Vortex((e.kind.state + 1) % 4))), [Register(id, e.freq)])
  }

  /** The animation state stays in 0..3 and comes back to where it started
      after four events. */
  lemma {:induction false} VortexCycles(w: World, id: Id)
    requires Valid(w) && id < |w.ents| && w.ents[id].kind.Vortex?
    requires 0 <= w.ents[id].kind.state < 4
    ensures var w1 := VortexEvent(w, id).w;
            0 <= w1.ents[id].kind.state < 4 && w1.ents[id].kind.state != w.ents[id].kind.state
    ensures var w1 := VortexEvent(w, id).w;
            var w2 := VortexEvent(w1, id).w;
            var w3 := VortexEvent(w2, id).w;
            VortexEvent(w3, id).w == w
  {
    var s := w.ents[id].kind.state;
    var w1 := VortexEvent(w, id).w;
    var w2 := VortexEvent(w1, id).w;
    var w3 := VortexEvent(w2, id).w;
    var w4 := VortexEvent(w3, id).w;
    assert w1.ents[id].kind.state == (s + 1) % 4;
    assert w2.ents[id].kind.state == (s + 2) % 4;
    assert w3.ents[id].kind.state == (s + 3) % 4;
    assert w4.ents[id] == w.ents[id];
    assert w4.ents == w.ents;
  }

  /** `Rat.event`: a pile of ashes does nothing and is not registered again;
      a live Rat may take a random step and always registers again. The
      Rat fires whether or not it is still on the map: a Rat that was taken
      keeps wandering, unseen. */
  function RatEvent(w: World, id: Id, rolls: Rolls): (r: Outcome)
    requires Valid(w) && id < |w.ents| && w.ents[id].kind.Rat?
    ensures Valid(r.w) && r.w.things == w.things && |r.w.ents| == |w.ents|
    ensures forall i :: 0 <= i < |w.ents| && i != id ==> r.w.ents[i] == w.ents[i]
    ensures w.ents[id].caps.burnt ==> r == Outcome(w, [])
    ensures !w.ents[id].caps.burnt ==> r.regs == [Register(id, w.ents[id].freq)]
    ensures !w.ents[id].caps.burnt ==> r.w == (if rolls.first then Step(w, id, rolls.dir) else w)
  {
    var e := w.ents[id];
    if e.caps.burnt then Outcome(w, [])
    else
      var w' := if rolls.first then CharacterMove(w, id, rolls.dir) else w;
      Outcome(w', [Register(id, e.freq)])
  }

  /** A Rat moves by at most one unit step per event, in the rolled direction. */
  lemma RatStepsAtMostOnce(w: World, id: Id, rolls: Rolls)
    requires Valid(w) && id < |w.ents| && w.ents[id].kind.Rat?
    ensures var e := w.ents[id]; var f := RatEvent(w, id, rolls).w.ents[id];
            && Abs(f.x - e.x) + Abs(f.y - e.y) <= 1
            && ((f.x, f.y) == (e.x, e.y) || (rolls.first && (f.x, f.y) == Target(e, rolls.dir)))
  {
    MoveIsUnitStep(w, id, rolls.dir);
  }

  /** The input poll's entry: due again one tick after every poll. */
  const PollAgain: Reg := EventQueue.Entry(1, InputPoll)

  /** `CheckInput.event`: 'q' ends the game (the process exits, so nothing is
      enqueued); any other key runs its action, and the poll then enqueues
      itself with delay 1, after whatever the action registered. */
  function InputEvent(w: World, key: string): (r: Outcome)
    requires Valid(w)
    ensures Valid(r.w) && r.w.player == w.player && r.w.lost == w.lost
    ensures KeyCommand(key) == Quit ==> r == Outcome(w.(quit := true), [])
    ensures KeyCommand(key) != Quit ==> |r.regs| >= 1 && r.regs[|r.regs| - 1] == PollAgain && r.w.quit == w.quit
    ensures KeyCommand(key) == NoCommand ==> r == Outcome(w, [PollAgain])
  {
    Perform(w, KeyCommand(key))
  }

  /** The poll's response to the command its key stands for. */
  function Perform(w: World, c: Command): (r: Outcome)
    requires Valid(w)
    ensures Valid(r.w) && r.w.player == w.player && r.w.lost == w.lost
    ensures c == Quit ==> r == Outcome(w.(quit := true), [])
    ensures c != Quit ==> |r.regs| >= 1 && r.regs[|r.regs| - 1] == PollAgain && r.w.quit == w.quit
    ensures c == NoCommand ==> r == Outcome(w, [PollAgain])
    ensures c.Go? ==> r == Outcome(PlayerMove(w, c.d), [PollAgain])
    ensures c == Take ==> r == Outcome(PlayerActions.Take(w), [PollAgain])
    ensures c == Interact ==> r == Outcome(PlayerActions.Interact(w).w, PlayerActions.Interact(w).regs + [PollAgain])
    ensures c == Shoot ==> r == Outcome(PlayerActions.Shoot(w).w, PlayerActions.Shoot(w).regs + [PollAgain])
  {
    if c == Quit then Outcome(w.(quit := true), [])
    else
      var act := Act(w, c);
      Outcome(act.w, act.regs + [PollAgain])
  }

  /** The action a command other than Quit runs, before the poll re-enqueues itself. */
  function Act(w: World, c: Command): (r: Outcome)
    requires Valid(w) && c != Quit
    ensures Valid(r.w) && r.w.player == w.player && r.w.lost == w.lost && r.w.quit == w.quit
    ensures c == NoCommand ==> r == Outcome(w, [])
    ensures c.Go? ==> r == Outcome(PlayerMove(w, c.d), [])
    ensures c == Take ==> r == Outcome(PlayerActions.Take(w), [])
    ensures c == Interact ==> r == PlayerActions.Interact(w)
    ensures c == Shoot ==> r == PlayerActions.Shoot(w)
  {
    match c
    case Go(d) => Outcome(PlayerMove(w, d), [])
    case Take => Outcome(PlayerActions.Take(w), [])
    case Interact => PlayerActions.Interact(w)
    case Shoot => PlayerActions.Shoot(w)
    case NoCommand => Outcome(w, [])
  }

  /** Each key reaches exactly one action: the move keys walk or turn the
      player, 'f' takes, 'e' interacts, 'space' shoots. */
  lemma InputReachesAction(w: World, key: string)
    requires Valid(w)
    ensures key == "a" || key == "Left" ==> InputEvent(w, key) == Outcome(PlayerMove(w, Left), [PollAgain])
    ensures key == "d" || key == "Right" ==> InputEvent(w, key) == Outcome(PlayerMove(w, Right), [PollAgain])
    ensures key == "w" || key == "Up" ==> InputEvent(w, key) == Outcome(PlayerMove(w, Up), [PollAgain])
    ensures key == "s" || key == "Down" ==> InputEvent(w, key) == Outcome(PlayerMove(w, Down), [PollAgain])
    ensures key == "f" ==> InputEvent(w, key) == Outcome(PlayerActions.Take(w), [PollAgain])
    ensures key == "e" ==> InputEvent(w, key) == Outcome(PlayerActions.Interact(w).w, PlayerActions.Interact(w).regs + [PollAgain])
    ensures key == "space" ==> InputEvent(w, key) == Outcome(PlayerActions.Shoot(w).w, PlayerActions.Shoot(w).regs + [PollAgain])
  {
    var c := KeyCommand(key);
    if key == "a" || key == "Left" {
      assert c == Go(Left);
    } else if key == "d" || key == "Right" {
      assert c == Go(Right);
    } else if key == "w" || key == "Up" {
      assert c == Go(Up);
    } else if key == "s" || key == "Down" {
      assert c == Go(Down);
    }
  }

  /** What the outside world hands the handler that fires: the key
      `checkKey` returns ("" when none was pressed) and the random draws. */
  datatype Stimulus = Stimulus(key: string, rolls: Rolls)

  const Quiet: Stimulus := Stimulus("", Rolls(false, false, Left, false))

  /** `entry[1].event(self)`: run the handler of the object the entry
      belongs to. Once the player has died or quit, the process has exited
      and nothing happens any more. */
  function Dispatch(w: World, h: Handler, st: Stimulus): (r: Outcome)
    ensures Valid(w) ==> Valid(r.w)
    ensures (!Valid(w) || w.lost || w.quit) ==> r == Outcome(w, [])
  {
    if !Valid(w) || w.lost || w.quit then Outcome(w, [])
    else match h
      case InputPoll => InputEvent(w, st.key)
      case EntityEvent(id) =>
        if id >= |w.ents| then Outcome(w, [])
        else match w.ents[id].kind
          case Llama(_, _, _, _) => LlamaEvent(w, id, st.rolls)
          case Rat => RatEvent(w, id, st.rolls)
          case Vortex(_) => VortexEvent(w, id)
          case Fireball(_, _) => ProjectileEvent(w, id)
          case Spitball(_, _) => ProjectileEvent(w, id)
          case _ => Outcome(w, [])
  }

  /** The running game: the world and the stimuli still to come. */
  datatype Game = Game(w: World, inputs: seq<Stimulus>)

  /** Fire one handler, consuming one stimulus (a quiet one when the stream is exhausted). */
  function Fire(g: Game, h: Handler): (f: EventQueue.Fired<Game, Handler>)
    ensures Valid(g.w) ==> Valid(f.state.w)
    ensures (g.w.lost || g.w.quit) ==> f.state.w == g.w && f.regs == []
  {
    var st := if |g.inputs| > 0 then g.inputs[0] else Quiet;
    var o := Dispatch(g.w, h, st);
    EventQueue.Fired(Game(o.w, if |g.inputs| > 0 then g.inputs[1..] else []), o.regs)
  }

  /** One pass of the main loop: `q.dequeue_if_ready()`. */
  function Tick(g: Game, q: EventQueue.Queue<Handler>, fuel: nat): Option<EventQueue.Drained<Game, Handler>>
  {
    EventQueue.DequeueIfReady(g, q, Fire, fuel)
  }

  predicate ValidGame(g: Game)
  {
    Valid(g.w)
  }

  /** Every tick keeps the world well formed: one Player, every object on
      the map, `things` a list of distinct objects. */
  lemma TickKeepsValid(g: Game, q: EventQueue.Queue<Handler>, fuel: nat)
    requires Valid(g.w)
    ensures Tick(g, q, fuel).Some? ==> Valid(Tick(g, q, fuel).value.state.w)
  {
    forall st: Game, h: Handler | ValidGame(st)
      ensures ValidGame(Fire(st, h).state)
    {
    }
    EventQueue.DrainPreserves(g, q, Fire, fuel, ValidGame);
  }

  predicate SameWorld(w: World, g: Game)
  {
    g.w == w
  }

  /** After the player has died or quit nothing changes any more: a tick
      leaves the world as it was. */
  lemma GameOverIsFinal(g: Game, q: EventQueue.Queue<Handler>, fuel: nat)
    requires g.w.lost || g.w.quit
    ensures Tick(g, q, fuel).Some? ==> Tick(g, q, fuel).value.state.w == g.w
  {
    var P := (st: Game) => SameWorld(g.w, st);
    forall st: Game, h: Handler | P(st)
      ensures P(Fire(st, h).state)
    {
    }
    EventQueue.DrainPreserves(g, q, Fire, fuel, P);
  }

  /** The names and descriptions the level-0 objects are created with. */
  const DoorName: string := "Door"
  const DoorText: string := "a dry, wooden door with no doorknob"
  const BarricadeName: string := "Barricade Door"
  const BarricadeText: string := "the front door of the llamas' spikey fortress"
  const FelixName: string := "Felix"
  const FelixText: string := "Halp! Bad llamas haz take my nommy pizza! They go path!"
  const LlamaName: string := "Llama"
  const DumbLlamaText: string := "a dumb llama"
  const SmartLlamaText: string := "a smart llama"
  const PizzaName: string := "Pizza Slice"
  const PizzaText: string := "You take back the stolen slice of pizza. You feel your powers increasing."
  const PlayerName: string := "...what's your name, bub?..."
  const PlayerText: string := "Yours truly"

  /** The objects of `play_level_0`, in the order they are materialized:
      the door (id 0), the barricade door (1), Felix (2), the dumb Llama (3)
      and the smart Llama (4), both registered every 100 ticks, the pizza
      slice (5) and the player (6). Objects without a facing of their own
      get Left; objects that never register get frequency 0. */
  function Level0(t: Terrain): (w: World)
    ensures WellSized(t) ==> Valid(w)
  {
    var w := World(t, Level0Objects(), [0, 1, 2, 3, 4, 5, 6], [3, 4], [], 6, false, false, false);
    assert forall k :: 0 <= k < 7 ==> w.things[k] == k;
    w
  }

  /** The object table of `play_level_0`: seven objects on the map, the last one the player. */
  function Level0Objects(): (es: seq<Entity>)
    ensures |es| == 7 && forall i :: 0 <= i < 7 ==> InBounds(es[i].x, es[i].y) && (es[i].kind.Player? <==> i == 6)
  {
    var door := Entity(DoorName, DoorText, Door, 11, 10, Left,
                       ThingCaps.(flammable := true), 0);
    var barricade := Entity(BarricadeName, BarricadeText, Barricade, 40, 44, Left,
                            ThingCaps, 0);
    var felix := Entity(FelixName, FelixText, Decor, 12, 9, Left,
                        ThingCaps, 0);
    var dumb := Entity(LlamaName, DumbLlamaText, Llama(0, 1, 39, 43), 39, 43, Left, ThingCaps, 100);
    var smart := Entity(LlamaName, SmartLlamaText, Llama(2, 3, 39, 45), 39, 45, Left, ThingCaps, 100);
    var pizza := Entity(PizzaName, PizzaText,
                        Pizza, 45, 41, Left, ThingCaps, 0);
    var player := Entity(PlayerName, PlayerText, Player(3, 3, 3, 10, 0, []), 4, 10, Right,
                         ThingCaps, 0);
    [door, barricade, felix, dumb, smart, pizza, player]
  }

  /** The queue of `play_level_0`: both Llamas registered with 100, then the
      input poll with 1. */
  function Level0Queue(): EventQueue.Queue<Handler>
  {
    var q1 := EventQueue.Enqueue([], 100, EntityEvent(3));
    var q2 := EventQueue.Enqueue(q1, 100, EntityEvent(4));
    EventQueue.Enqueue(q2, 1, InputPoll)
  }

  /** The level starts well formed: one Player, every object on the map. */
  lemma Level0Valid(t: Terrain)
    requires WellSized(t)
    ensures Valid(Level0(t))
  {
  }

  /** The queue starts sorted, with the input poll first, ahead of the two
      Llamas in the order they registered. */
  lemma Level0QueueStarts()
    ensures Level0Queue() == [PollAgain, Register(3, 100), Register(4, 100)]
    ensures EventQueue.Sorted(Level0Queue()) && EventQueue.NonNegative(Level0Queue())
  {
    EventQueue.TiedThenSooner(EntityEvent(3), EntityEvent(4), InputPoll, 100, 1);
    EventQueue.TiedThenSoonerOrdered(EntityEvent(3), EntityEvent(4), InputPoll, 100, 1);
  }

  /** The way out of level 0: the dumb Llama (health 1) burns from a single
      fireball of power 0, but the barricade door stays until the smart
      Llama (health 3) burns too. After the one pizza slice of the level the
      player's fireballs have power 1, and the smart Llama burns on the
      second such hit; only then does the door leave play. */
  lemma Level0Barricade(t: Terrain)
    requires WellSized(t)
    ensures var w0 := Level0(t);
            var w1 := LlamaHit(w0, 3, 0);
            && w1.ents[3].caps.burnt && 1 in w1.things
            && var w2 := LlamaHit(w1, 4, 1);
               && !w2.ents[4].caps.burnt && 1 in w2.things
               && var w3 := LlamaHit(w2, 4, 1);
                  w3.ents[4].caps.burnt && 1 !in w3.things && 0 in w3.things
  {
    Level0Valid(t);
    var w0 := Level0(t);
    assert w0.ents[3].kind.health == 1 && w0.ents[4].kind.health == 3 && !w0.ents[4].caps.burnt;
    assert Members(w0.initialLlamas) == {3, 4} && w0.dedLlamas == [];
    assert IsBarricade(w0.ents, 1) && !IsBarricade(w0.ents, 0) && 0 in w0.things && 1 in w0.things;
    TwoLlamasOpenFortressLater(w0, 3, 4, 0, 1, 1, 0);
  }

  /** A level with two Llamas, the second of which survives one hit and
      burns on the next: the door stays through the first two hits and
      leaves play on the third, with every other object staying. */
  lemma TwoLlamasOpenFortressLater(w: World, a: Id, b: Id, pa: int, pb: int, door: Id, other: Id)
    requires Valid(w) && a < |w.ents| && b < |w.ents| && a != b
    requires w.ents[a].kind.Llama? && w.ents[b].kind.Llama? && !w.ents[b].caps.burnt
    requires w.ents[a].kind.health - (pa + 1) <= 0
    requires w.ents[b].kind.health - (pb + 1) > 0 && w.ents[b].kind.health - 2 * (pb + 1) <= 0
    requires Members(w.initialLlamas) == {a, b} && w.dedLlamas == []
    requires door in w.things && IsBarricade(w.ents, door) && other in w.things && !IsBarricade(w.ents, other)
    ensures var w1 := LlamaHit(w, a, pa);
            && w1.ents[a].caps.burnt && door in w1.things
            && var w2 := LlamaHit(w1, b, pb);
               && !w2.ents[b].caps.burnt && door in w2.things
               && var w3 := LlamaHit(w2, b, pb);
                  w3.ents[b].caps.burnt && door !in w3.things && other in w3.things
  {
    FirstOfTwoDies(w, a, b, pa, door);
    var w1 := LlamaHit(w, a, pa);
    assert w1.ents[a].caps.burnt && door in w1.things;
    SurvivedHit(w1, b, pb);
    var w2 := LlamaHit(w1, b, pb);
    assert !w2.ents[b].caps.burnt && door in w2.things && other in w2.things;
    MembersPair(a, b);
    LastDeathOpens(w2, b, pb, door, other);
  }

  lemma MembersPair(a: Id, b: Id)
    ensures Members([a] + [b]) == {a, b}
  {
    assert forall x :: x in [a] + [b] <==> x == a || x == b;
  }

  /** The first of two initial Llamas to die is recorded and leaves the
      doors, the other Llama and `_things` alone. */
  lemma FirstOfTwoDies(w: World, a: Id, b: Id, pa: int, door: Id)
    requires Valid(w) && a < |w.ents| && b < |w.ents| && a != b
    requires w.ents[a].kind.Llama? && w.ents[a].kind.health - (pa + 1) <= 0
    requires Members(w.initialLlamas) == {a, b} && w.dedLlamas == []
    requires door in w.things && IsBarricade(w.ents, door)
    ensures var r := LlamaHit(w, a, pa);
            && r.ents[a].caps.burnt && r.dedLlamas == [a] && r.initialLlamas == w.initialLlamas
            && r.things == w.things && r.ents[b] == w.ents[b]
            && (forall x :: IsBarricade(r.ents, x) <==> IsBarricade(w.ents, x))
  {
    assert w.dedLlamas + [a] == [a];
    assert Members([a]) == {a} by { assert forall x :: x in [a] <==> x == a; }
    assert Members(w.initialLlamas) != Members(w.dedLlamas + [a]) by { assert b in Members(w.initialLlamas); }
  }

  /** A hit the Llama survives leaves `_things`, the Llama lists and the
      BarricadeDoors alone, and the Llama unburnt. */
  lemma SurvivedHit(w: World, b: Id, pb: int)
    requires Valid(w) && b < |w.ents| && w.ents[b].kind.Llama? && !w.ents[b].caps.burnt
    requires w.ents[b].kind.health - (pb + 1) > 0
    ensures var r := LlamaHit(w, b, pb);
            && r.things == w.things && r.dedLlamas == w.dedLlamas && r.initialLlamas == w.initialLlamas
            && !r.ents[b].caps.burnt && r.ents[b].kind.health == w.ents[b].kind.health - (pb + 1)
            && (forall x :: IsBarricade(r.ents, x) <==> IsBarricade(w.ents, x))
  {
  }

  /** The death of the last initial Llama still alive removes a door and keeps every other object. */
  lemma LastDeathOpens(w: World, b: Id, pb: int, door: Id, other: Id)
    requires Valid(w) && b < |w.ents| && w.ents[b].kind.Llama?
    requires w.ents[b].kind.health - (pb + 1) <= 0
    requires Members(w.initialLlamas) == Members(w.dedLlamas + [b])
    requires door in w.things && IsBarricade(w.ents, door) && other in w.things && !IsBarricade(w.ents, other)
    ensures var r := LlamaHit(w, b, pb); r.ents[b].caps.burnt && door !in r.things && other in r.things
  {
    BarricadesOpenOnlyWhenAllDead(w, b, pb, door);
  }

  /** A level with two Llamas: a door stays while either lives, and leaves
      play, with every other object staying, once both have burnt. */
  lemma TwoLlamasOpenFortress(w: World, a: Id, b: Id, pa: int, pb: int, door: Id, other: Id)
    requires Valid(w) && a < |w.ents| && b < |w.ents| && a != b
    requires w.ents[a].kind.Llama? && w.ents[b].kind.Llama?
    requires w.ents[a].kind.health - (pa + 1) <= 0 && w.ents[b].kind.health - (pb + 1) <= 0
    requires Members(w.initialLlamas) == {a, b} && w.dedLlamas == []
    requires door in w.things && IsBarricade(w.ents, door) && other in w.things && !IsBarricade(w.ents, other)
    ensures var w1 := LlamaHit(w, a, pa);
            && w1.ents[a].caps.burnt && door in w1.things
            && var w2 := LlamaHit(w1, b, pb);
               w2.ents[b].caps.burnt && door !in w2.things && other in w2.things
  {
    FirstOfTwoDies(w, a, b, pa, door);
    var w1 := LlamaHit(w, a, pa);
    assert w1.ents[a].caps.burnt && door in w1.things && other in w1.things;
    MembersPair(a, b);
    LastDeathOpens(w1, b, pb, door, other);
  }
}
