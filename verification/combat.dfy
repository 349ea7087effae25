/** Damage: `Llama.hit` (health loss, death by burning, and the opening of
    the fortress once every Llama of the level is dead) and `Player.hit`
    (health loss and the lost game). */
module Combat {
  import opened Grid
  import opened Entities
  import opened Screen

  predicate IsBarricade(ents: seq<Entity>, id: Id)
  {
    id < |ents| && ents[id].kind.Barricade?
  }

  /** The objects of `s` that are not BarricadeDoors, in their order. */
  function WithoutBarricades(ents: seq<Entity>, s: seq<Id>): (r: seq<Id>)
    ensures |r| <= |s|
  {
    if s == [] then []
    else (if IsBarricade(ents, s[0]) then [] else [s[0]]) + WithoutBarricades(ents, s[1..])
  }

  /** The filter keeps exactly the objects that are not BarricadeDoors. */
  lemma {:induction false} WithoutBarricadesMembers(ents: seq<Entity>, s: seq<Id>)
    ensures forall id :: id in WithoutBarricades(ents, s) <==> id in s && !IsBarricade(ents, id)
  {
    if s != [] {
      WithoutBarricadesMembers(ents, s[1..]);
      assert s == [s[0]] + s[1..];
    }
  }

  /** Filtering distributes over concatenation: it never reorders. */
  lemma {:induction false} WithoutBarricadesSplit(ents: seq<Entity>, a: seq<Id>, b: seq<Id>)
    ensures WithoutBarricades(ents, a + b) == WithoutBarricades(ents, a) + WithoutBarricades(ents, b)
  {
    if a == [] {
      assert a + b == b;
    } else {
      assert (a + b)[0] == a[0] && (a + b)[1..] == a[1..] + b;
      WithoutBarricadesSplit(ents, a[1..], b);
    }
  }

  /** The filter looks only at which objects are BarricadeDoors. */
  lemma {:induction false} WithoutBarricadesSameDoors(ents: seq<Entity>, ents': seq<Entity>, s: seq<Id>)
    requires forall x :: IsBarricade(ents', x) <==> IsBarricade(ents, x)
    ensures WithoutBarricades(ents', s) == WithoutBarricades(ents, s)
  {
    if s != [] {
      WithoutBarricadesSameDoors(ents, ents', s[1..]);
    }
  }

  /** A list without BarricadeDoors is left exactly as it is, so the sweep is idempotent. */
  lemma {:induction false} WithoutBarricadesKeepsOthers(ents: seq<Entity>, s: seq<Id>)
    requires forall k :: 0 <= k < |s| ==> !IsBarricade(ents, s[k])
    ensures WithoutBarricades(ents, s) == s
    ensures WithoutBarricades(ents, WithoutBarricades(ents, s)) == WithoutBarricades(ents, s)
  {
    if s != [] {
      WithoutBarricadesKeepsOthers(ents, s[1..]);
    }
  }

  lemma {:induction false} WithoutBarricadesDistinct(ents: seq<Entity>, s: seq<Id>)
    requires Distinct(s)
    ensures Distinct(WithoutBarricades(ents, s))
  {
    if s != [] {
      WithoutBarricadesDistinct(ents, s[1..]);
      WithoutBarricadesMembers(ents, s[1..]);
      var t := WithoutBarricades(ents, s[1..]);
      assert s[0] !in s[1..];
      assert s[0] !in t;
      if !IsBarricade(ents, s[0]) {
        var r := [s[0]] + t;
        forall j, k | 0 <= j < k < |r| ensures r[j] != r[k] {
          if j == 0 {
            assert r[k] == t[k - 1];
          } else {
            assert r[j] == t[j - 1] && r[k] == t[k - 1];
          }
        }
      }
    }
  }

  /** The fortress opens: every BarricadeDoor leaves play, every other
      object stays in play in its order (the filter keeps order, see
      `WithoutBarricadesSplit`), and nothing else changes. */
  function RemoveBarricades(w: World): (r: World)
    requires Valid(w)
    ensures Valid(r) && r == w.(things := r.things)
    ensures forall k :: 0 <= k < |r.things| ==> !IsBarricade(w.ents, r.things[k])
    ensures forall id :: id in r.things <==> id in w.things && !IsBarricade(w.ents, id)
    ensures r.things == WithoutBarricades(w.ents, w.things)
  {
    WithoutBarricadesDistinct(w.ents, w.things);
    WithoutBarricadesMembers(w.ents, w.things);
    var r := w.(things := WithoutBarricades(w.ents, w.things));
    assert forall k :: 0 <= k < |r.things| ==> r.things[k] in w.things;
    r
  }

  /** The sweep of `Llama.hit` as the source writes it: it walks `_things`
      by position and dematerializes each BarricadeDoor while walking, so the
      entry that slides into the freed position is never looked at. */
  function SweepAsWritten(ents: seq<Entity>, s: seq<Id>, i: nat): (r: seq<Id>)
    ensures |r| <= |s|
    decreases |s| - i
  {
    if i >= |s| then s
    else if IsBarricade(ents, s[i]) then SweepAsWritten(ents, Remove(s, s[i]), i + 1)
    else SweepAsWritten(ents, s, i + 1)
  }

  /** Two BarricadeDoors next to each other in `_things`: the as-written
      sweep removes the first and skips the second, which stays in play. */
  lemma SweepAsWrittenSkipsAdjacent(ents: seq<Entity>, a: Id, b: Id)
    requires IsBarricade(ents, a) && IsBarricade(ents, b) && a != b
    ensures SweepAsWritten(ents, [a, b], 0) == [b]
    ensures b in SweepAsWritten(ents, [a, b], 0) && IsBarricade(ents, b)
    ensures WithoutBarricades(ents, [a, b]) == []
  {
    assert [a, b] == [a] + [b];
    assert Remove([a, b], a) == [b];
  }

  /** When no BarricadeDoor directly follows another, the as-written sweep
      does remove every BarricadeDoor: from position `i` on, it agrees with
      the corrected filter. */
  lemma {:induction false} SweepAsWrittenAgrees(ents: seq<Entity>, s: seq<Id>, i: nat)
    requires Distinct(s) && i <= |s|
    requires forall k :: i <= k < |s| - 1 && IsBarricade(ents, s[k]) ==> !IsBarricade(ents, s[k + 1])
    ensures SweepAsWritten(ents, s, i) == s[..i] + WithoutBarricades(ents, s[i..])
    decreases |s| - i
  {
    if i == |s| {
      assert s[i..] == [];
      assert s[..i] == s;
    } else if !IsBarricade(ents, s[i]) {
      SweepAsWrittenAgrees(ents, s, i + 1);
      FilterHead(ents, s, i);
      assert s[..i + 1] == s[..i] + [s[i]];
    } else {
      var s' := RemoveBarricadeAt(ents, s, i);
      if i + 1 < |s| {
        SweepAsWrittenAgrees(ents, s', i + 1);
        SweepAfterRemoval(ents, s, i);
      } else {
        FilterHead(ents, s, i);
        assert s[i + 1..] == [];
        assert s' == s[..i];
      }
    }
  }

  /** One step of the filter at position `i`. */
  lemma FilterHead(ents: seq<Entity>, s: seq<Id>, i: nat)
    requires i < |s|
    ensures WithoutBarricades(ents, s[i..])
            == (if IsBarricade(ents, s[i]) then [] else [s[i]]) + WithoutBarricades(ents, s[i + 1..])
  {
    assert s[i..] == [s[i]] + s[i + 1..];
    WithoutBarricadesSplit(ents, [s[i]], s[i + 1..]);
    assert [s[i]][1..] == [];
  }

  /** Dematerializing the BarricadeDoor at position `i` of a list of distinct
      objects closes the gap there, and the sweep carries on at `i + 1` of the
      shorter list. */
  lemma RemoveBarricadeAt(ents: seq<Entity>, s: seq<Id>, i: nat) returns (s': seq<Id>)
    requires Distinct(s) && i < |s| && IsBarricade(ents, s[i])
    ensures s' == s[..i] + s[i + 1..] && Distinct(s')
    ensures SweepAsWritten(ents, s, i) == SweepAsWritten(ents, s', i + 1)
  {
    assert s[i] !in s[..i];
    RemoveAt(s, s[i], i);
    RemoveGap(s, i);
    s' := s[..i] + s[i + 1..];
  }

  /** The skipped entry: after the BarricadeDoor at `i` goes, the entry that
      was at `i + 1` is passed over, which is harmless exactly when it is not
      a BarricadeDoor itself. */
  lemma SweepAfterRemoval(ents: seq<Entity>, s: seq<Id>, i: nat)
    requires i + 1 < |s| && IsBarricade(ents, s[i]) && !IsBarricade(ents, s[i + 1])
    ensures var s' := s[..i] + s[i + 1..];
            s'[..i + 1] + WithoutBarricades(ents, s'[i + 1..]) == s[..i] + WithoutBarricades(ents, s[i..])
  {
    var s' := s[..i] + s[i + 1..];
    var tail := WithoutBarricades(ents, s[i + 2..]);
    assert s'[..i + 1] == s[..i] + [s[i + 1]] by {}
    assert s'[i + 1..] == s[i + 2..] by {}
    assert WithoutBarricades(ents, s[i..]) == [s[i + 1]] + tail by {
      FilterHead(ents, s, i);
      FilterHead(ents, s, i + 1);
    }
    calc {
      s'[..i + 1] + WithoutBarricades(ents, s'[i + 1..]);
      (s[..i] + [s[i + 1]]) + tail;
      s[..i] + ([s[i + 1]] + tail);
    }
  }

  /** The world after the as-written sweep. */
  function SweepBarricadesAsWritten(w: World): (r: World)
    requires Valid(w)
    ensures r == w.(things := r.things) && |r.things| <= |w.things|
  {
    w.(things := SweepAsWritten(w.ents, w.things, 0))
  }

  /** Set of the objects a list mentions. */
  function Members(s: seq<Id>): set<Id>
  {
    set id | id in s
  }

  /** `Llama.hit` up to the sweep: the Llama loses `power + 1` health and,
      at 0 or below, burns and is recorded as dead. */
  function Wound(w: World, id: Id, power: int): (r: World)
    requires Valid(w) && id < |w.ents| && w.ents[id].kind.Llama?
    ensures Valid(r) && |r.ents| == |w.ents| && r.things == w.things
    ensures var e := w.ents[id];
            var e1 := e.(kind := Llama(e.kind.intelligence, e.kind.health - (power + 1), e.kind.ax, e.kind.ay));
            r.ents[id] == (if e1.kind.health > 0 then e1 else Burn(e1))
    ensures forall i :: 0 <= i < |w.ents| && i != id ==> r.ents[i] == w.ents[i]
    ensures forall x :: IsBarricade(r.ents, x) <==> IsBarricade(w.ents, x)
    ensures r.terrain == w.terrain && r.player == w.player && r.initialLlamas == w.initialLlamas
    ensures r.done == w.done && r.lost == w.lost && r.quit == w.quit
    ensures r.dedLlamas == (if r.ents[id].kind.health > 0 then w.dedLlamas else w.dedLlamas + [id])
  {
    var e := w.ents[id];
    var e1 := e.(kind := Llama(e.kind.intelligence, e.kind.health - (power + 1), e.kind.ax, e.kind.ay));
    if e1.kind.health > 0 then SetEnt(w, id, e1)
    else SetEnt(w, id, Burn(e1)).(dedLlamas := w.dedLlamas + [id])
  }

  /** The sweep condition of `Llama.hit`, checked on the wounded world: the
      Llama just died and the dead Llamas are now exactly the Llamas the
      level started with. */
  predicate OpensFortress(w1: World, id: Id)
    requires id < |w1.ents|
  {
    w1.ents[id].kind.Llama? && w1.ents[id].kind.health <= 0 && Members(w1.initialLlamas) == Members(w1.dedLlamas)
  }

  /** `Llama.hit(power)`: the Llama loses `power + 1` health. At 0 or below
      it is recorded as dead and burns; if that makes the dead Llamas exactly
      the Llamas the level started with, every BarricadeDoor leaves play.
      The sweep is the corrected one (see `LlamaHitAsWritten`). */
  function LlamaHit(w: World, id: Id, power: int): (r: World)
    requires Valid(w) && id < |w.ents| && w.ents[id].kind.Llama?
    ensures Valid(r) && |r.ents| == |w.ents|
    ensures var k := w.ents[id].kind; r.ents[id].kind == Llama(k.intelligence, k.health - (power + 1), k.ax, k.ay)
    ensures At(r.ents[id], w.ents[id].x, w.ents[id].y) && r.ents[id].facing == w.ents[id].facing
    ensures var e1 := w.ents[id].(kind := r.ents[id].kind);
            r.ents[id] == (if r.ents[id].kind.health > 0 then e1 else Burn(e1))
    ensures forall i :: 0 <= i < |w.ents| && i != id ==> r.ents[i] == w.ents[i]
    ensures r.terrain == w.terrain && r.player == w.player && r.initialLlamas == w.initialLlamas
    ensures r.done == w.done && r.lost == w.lost && r.quit == w.quit
    ensures r.ents[id].kind.health > 0 ==> r.ents[id].caps == w.ents[id].caps
                                           && r.dedLlamas == w.dedLlamas && r.things == w.things
    ensures r.ents[id].kind.health <= 0 ==> r.ents[id].caps.burnt && r.ents[id].caps.walkable
                                            && r.dedLlamas == w.dedLlamas + [id]
    ensures (r.ents[id].kind.health <= 0 && Members(w.initialLlamas) == Members(w.dedLlamas + [id]))
            ==> && (forall x :: x in r.things <==> x in w.things && !IsBarricade(w.ents, x))
                && r.things == WithoutBarricades(w.ents, w.things)
    ensures !(r.ents[id].kind.health <= 0 && Members(w.initialLlamas) == Members(w.dedLlamas + [id]))
            ==> r.things == w.things
  {
    var w1 := Wound(w, id, power);
    if OpensFortress(w1, id) then
      var r := RemoveBarricades(w1);
      WithoutBarricadesSameDoors(w.ents, w1.ents, w.things);
      assert forall x :: x in r.things <==> x in w.things && !IsBarricade(w.ents, x);
      r
    else w1
  }

  /** `Llama.hit(power)` with the sweep the source runs: it differs from
      `LlamaHit` at most in which objects stay in play. */
  function LlamaHitAsWritten(w: World, id: Id, power: int): (r: World)
    requires Valid(w) && id < |w.ents| && w.ents[id].kind.Llama?
    ensures r == LlamaHit(w, id, power).(things := r.things)
    ensures |r.things| <= |w.things|
    ensures !OpensFortress(Wound(w, id, power), id) ==> r == LlamaHit(w, id, power)
  {
    var w1 := Wound(w, id, power);
    if OpensFortress(w1, id) then SweepBarricadesAsWritten(w1) else w1
  }

  /** No BarricadeDoor of `s` is directly followed by another. */
  predicate NoAdjacentBarricades(ents: seq<Entity>, s: seq<Id>)
  {
    forall k :: 0 <= k < |s| - 1 && IsBarricade(ents, s[k]) ==> !IsBarricade(ents, s[k + 1])
  }

  /** Unless two BarricadeDoors are adjacent in `_things`, the source's
      `Llama.hit` and the corrected one leave the same world. */
  lemma LlamaHitAsWrittenAgrees(w: World, id: Id, power: int)
    requires Valid(w) && id < |w.ents| && w.ents[id].kind.Llama?
    requires NoAdjacentBarricades(w.ents, w.things)
    ensures LlamaHitAsWritten(w, id, power) == LlamaHit(w, id, power)
  {
    var w1 := Wound(w, id, power);
    if OpensFortress(w1, id) {
      SweepAsWrittenAgrees(w1.ents, w1.things, 0);
      assert w1.things[..0] == [] && w1.things[0..] == w1.things;
    }
  }

  /** The source's `Llama.hit` when the last initial Llama dies with two
      BarricadeDoors side by side in `_things`: the second door stays in
      play, where the corrected hit removes both. */
  lemma LlamaHitAsWrittenKeepsSecondDoor(w: World, id: Id, power: int, a: Id, b: Id)
    requires Valid(w) && id < |w.ents| && w.ents[id].kind.Llama?
    requires w.things == [a, b] && IsBarricade(w.ents, a) && IsBarricade(w.ents, b)
    requires w.ents[id].kind.health - (power + 1) <= 0
    requires Members(w.initialLlamas) == Members(w.dedLlamas + [id])
    ensures LlamaHitAsWritten(w, id, power).things == [b]
    ensures LlamaHit(w, id, power).things == []
  {
    var w1 := Wound(w, id, power);
    assert OpensFortress(w1, id);
    assert w.things[0] != w.things[1];
    SweepAsWrittenSkipsAdjacent(w1.ents, a, b);
  }

  /** The barricades open only on the death that completes the set of dead
      Llamas: a hit that leaves the Llama alive, or a death while another
      initial Llama lives, keeps every BarricadeDoor in play. */
  lemma BarricadesOpenOnlyWhenAllDead(w: World, id: Id, power: int, b: Id)
    requires Valid(w) && id < |w.ents| && w.ents[id].kind.Llama?
    requires b in w.things && IsBarricade(w.ents, b)
    ensures b !in LlamaHit(w, id, power).things <==>
              w.ents[id].kind.health - (power + 1) <= 0 && Members(w.initialLlamas) == Members(w.dedLlamas + [id])
  {
  }

  /** `Player.hit(power)`: the player loses `power + 1` health, and the game
      is lost (`die`, which ends the program) when health reaches 0 or below. */
  function PlayerHit(w: World, power: int): (r: World)
    requires Valid(w)
    ensures Valid(r) && |r.ents| == |w.ents| && r.things == w.things && r.player == w.player
    ensures var k := PlayerOf(w).kind;
            PlayerOf(r).kind == Player(k.health - (power + 1), k.maxHealth, k.fbRange, k.fbSpeed, k.fbPower, k.inventory)
    ensures PlayerOf(r) == PlayerOf(w).(kind := PlayerOf(r).kind)
    ensures forall i :: 0 <= i < |w.ents| && i != w.player ==> r.ents[i] == w.ents[i]
    ensures r.lost <==> w.lost || PlayerOf(r).kind.health <= 0
    ensures r.terrain == w.terrain && r.done == w.done && r.quit == w.quit
    ensures r.initialLlamas == w.initialLlamas && r.dedLlamas == w.dedLlamas
  {
    var p := PlayerOf(w);
    var h := p.kind.health - (power + 1);
    var k := p.kind;
    var r := SetEnt(w, w.player, p.(kind := Player(h, k.maxHealth, k.fbRange, k.fbSpeed, k.fbPower, k.inventory)));
    r.(lost := w.lost || h <= 0)
  }
}
