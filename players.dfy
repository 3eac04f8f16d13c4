/**
 * The Giocatore record and the actions that update it in place: the
 * position pointers become arena indices into the ZoneGraph's lists (NULL
 * for none), the pack is the fixed-size array zaino[ZAINO_MAX].
 *
 * Every method is proved to act on the player's PlayerView (and on the
 * zone lists) exactly as the matching function of Rules or Combat says,
 * so the properties proved there hold of these methods.
 */
module Players {
  import opened GameTypes
  import opened Chains
  import opened ZoneMap
  import opened Rules
  import opened Combat

  class Player {
    var name: string
    var world: World
    var posOver: int
    var posUnder: int
    var atk: int
    var def: int
    var luck: int
    var hp: int
    const pack: array<Item>

    ghost predicate Valid()
      reads this
    {
      pack.Length == ZAINO_MAX
    }

    /** A new Giocatore as imposta_gioco leaves it: the given name and
        statistics, full HP, in the Mondo Reale without a position yet, and
        an empty pack. */
    constructor (name: string, atk: int, def: int, luck: int)
      ensures Valid() && fresh(pack)
      ensures this.name == name
      ensures Local() == PlayerView(MondoReale, NULL, NULL, atk, def, luck, PV_INIZIALI, [NessunOggetto, NessunOggetto, NessunOggetto])
    {
      this.name := name;
      this.atk, this.def, this.luck := atk, def, luck;
      hp := PV_INIZIALI;
      world := MondoReale;
      posOver, posUnder := NULL, NULL;
      var a := new Item[ZAINO_MAX];
      var j := 0;
      while j < ZAINO_MAX
        invariant 0 <= j <= ZAINO_MAX
        invariant forall k :: 0 <= k < j ==> a[k] == NessunOggetto
      {
        a[j] := NessunOggetto;
        j := j + 1;
      }
      pack := a;
      assert a[..] == [NessunOggetto, NessunOggetto, NessunOggetto];
    }

    /** Each position pointer is NULL or names a zone of its list in g. */
    ghost predicate OnMap(g: ZoneGraph)
      reads this, g
    {
      && g.Valid()
      && (posOver == NULL || posOver in g.overOrder)
      && (posUnder == NULL || posUnder in g.underOrder)
    }

    /** The player as a value, positions translated to places in the lists. */
    ghost function View(g: ZoneGraph): PlayerView
      reads this, pack, g
    {
      PlayerView(world, IndexOf(g.overOrder, posOver), IndexOf(g.underOrder, posUnder), atk, def, luck, hp, pack[..])
    }

    /** The player as a value with the raw position pointers (for the actions
        that do not look at the map). */
    ghost function Local(): PlayerView
      reads this, pack
    {
      PlayerView(world, posOver, posUnder, atk, def, luck, hp, pack[..])
    }

    /** ha_nemico_zona. */
    method HasEnemy(g: ZoneGraph) returns (b: bool)
      requires OnMap(g)
      ensures b == Rules.HasEnemy(View(g), g.Over(), g.Under())
    {
      if world == MondoReale {
        b := posOver != NULL && g.over[posOver].zone.enemy != NessunNemico;
      } else {
        b := posUnder != NULL && g.under[posUnder].zone.enemy != NessunNemico;
      }
    }

    /** The enemy on the player's zone, as combatti_nemico looks it up. */
    method Foe(g: ZoneGraph) returns (e: Enemy)
      requires OnMap(g)
      ensures e == Rules.EnemyHere(View(g), g.Over(), g.Under())
    {
      e := NessunNemico;
      if world == MondoReale {
        if posOver != NULL {
          e := g.over[posOver].zone.enemy;
        }
      } else {
        if posUnder != NULL {
          e := g.under[posUnder].zone.enemy;
        }
      }
    }

    /** In a well-formed list, the node after the k-th is the (k+1)-th. */
    static lemma StepAlong<Z>(nodes: seq<Node<Z>>, order: seq<nat>, head: int, x: int)
      requires Chain(nodes, order, head) && x in order
      ensures 0 <= x < |nodes|
      ensures var k := IndexOf(order, x);
              && (nodes[x].next == NULL <==> k + 1 == |order|)
              && (nodes[x].next != NULL ==> nodes[x].next in order && IndexOf(order, nodes[x].next) == k + 1)
              && (nodes[x].prev == NULL <==> k == 0)
              && (nodes[x].prev != NULL ==> nodes[x].prev in order && IndexOf(order, nodes[x].prev) == k - 1)
    {
      var k := IndexOf(order, x);
      assert order[k] == x;
      assert nodes[order[k]].prev == (if k > 0 then order[k - 1] else NULL);
      assert nodes[x].next == (if k + 1 < |order| then order[k + 1] else NULL);
      assert nodes[x].prev == (if k > 0 then order[k - 1] else NULL);
      if k + 1 < |order| { IndexOfAt(order, k + 1); }
      if k > 0 { IndexOfAt(order, k - 1); }
    }

    /** avanza. */
    method Advance(g: ZoneGraph)
      requires OnMap(g)
      modifies this`posOver, this`posUnder
      ensures OnMap(g)
      ensures View(g) == Rules.Advance(old(View(g)), g.Over(), g.Under())
    {
      var blocked := HasEnemy(g);
      if blocked {
        return;
      }
      assert |g.Over()| == |g.overOrder| && |g.Under()| == |g.underOrder|;
      if world == MondoReale {
        posOver := Follow(g.over, g.overOrder, g.overHead, posOver, true);
      } else {
        posUnder := Follow(g.under, g.underOrder, g.underHead, posUnder, true);
      }
    }

    /** indietreggia. */
    method Retreat(g: ZoneGraph)
      requires OnMap(g)
      modifies this`posOver, this`posUnder
      ensures OnMap(g)
      ensures View(g) == Rules.Retreat(old(View(g)), g.Over(), g.Under())
    {
      var blocked := HasEnemy(g);
      if blocked {
        return;
      }
      if world == MondoReale {
        posOver := Follow(g.over, g.overOrder, g.overHead, posOver, false);
      } else {
        posUnder := Follow(g.under, g.underOrder, g.underHead, posUnder, false);
      }
    }

    /** The pointer step of avanza (forward) and indietreggia (backward): a
        position moves to the next or previous node when there is one and
        stays put otherwise, so its place in the list goes up or down by one,
        short of the ends. */
    static method Follow<Z>(nodes: seq<Node<Z>>, ghost order: seq<nat>, ghost head: int, x: int, forward: bool) returns (y: int)
      requires Chain(nodes, order, head) && (x == NULL || x in order)
      ensures y == NULL || y in order
      ensures var k := IndexOf(order, x);
              IndexOf(order, y) == if x == NULL then -1
                                   else if forward then (if k + 1 < |order| then k + 1 else k)
                                   else (if k > 0 then k - 1 else k)
    {
      y := x;
      if x != NULL {
        StepAlong(nodes, order, head, x);
        var to := if forward then nodes[x].next else nodes[x].prev;
        if to != NULL {
          y := to;
        }
      }
    }

    /** The partner of a zone sits at the same place of the other list. */
    static lemma PartnerPlace(g: ZoneGraph, x: int, fromOver: bool)
      requires g.Valid()
      requires fromOver ==> x in g.overOrder
      requires !fromOver ==> x in g.underOrder
      ensures fromOver ==> 0 <= x < |g.over| && g.over[x].link in g.underOrder &&
                           IndexOf(g.underOrder, g.over[x].link) == IndexOf(g.overOrder, x)
      ensures !fromOver ==> 0 <= x < |g.under| && g.under[x].link in g.overOrder &&
                            IndexOf(g.overOrder, g.under[x].link) == IndexOf(g.underOrder, x)
    {
      if fromOver {
        var k := IndexOf(g.overOrder, x);
        IndexOfAt(g.underOrder, k);
      } else {
        var k := IndexOf(g.underOrder, x);
        IndexOfAt(g.overOrder, k);
      }
    }

    /** cambia_mondo, with the d20 it rolls in the Soprasotto. */
    method CrossWorld(g: ZoneGraph, die: int) returns (crossed: bool)
      requires OnMap(g) && IsD20(die)
      modifies this`world, this`posOver, this`posUnder
      ensures OnMap(g)
      ensures Crossing(View(g), crossed) == Rules.Cross(old(View(g)), die)
    {
      crossed := false;
      if world == MondoReale {
        if posOver != NULL {
          PartnerPlace(g, posOver, true);
          posUnder := g.over[posOver].link;
          posOver := NULL;
          world := Soprasotto;
          crossed := true;
        }
      } else {
        if die < luck {
          if posUnder != NULL {
            PartnerPlace(g, posUnder, false);
            posOver := g.under[posUnder].link;
            posUnder := NULL;
            world := MondoReale;
            crossed := true;
          }
        }
      }
    }

    /** raccogli_oggetto: the lowest empty slot takes the zone's item. */
    method PickUp(g: ZoneGraph)
      requires Valid() && OnMap(g)
      modifies pack, g`over
      ensures OnMap(g)
      ensures PickUpResult(View(g), g.Over()) == Rules.PickUp(old(View(g)), old(g.Over()))
      ensures g.Under() == old(g.Under())
    {
      if world != MondoReale {
        return;
      }
      if posOver == NULL {
        return;
      }
      var z := g.over[posOver].zone;
      if z.enemy != NessunNemico {
        return;
      }
      if z.item == NessunOggetto {
        return;
      }
      var slot := FreeSlot();
      if slot < 0 {
        return;
      }
      ghost var v := View(g);
      pack[slot] := z.item;
      g.SetOverZone(posOver, z.(item := NessunOggetto));
      assert View(g) == v.(pack := v.pack[slot := z.item]);
    }

    /** The scan of raccogli_oggetto for the lowest empty slot of the pack. */
    method FreeSlot() returns (slot: int)
      requires Valid()
      ensures slot == FirstFree(pack[..])
    {
      var i := 0;
      while i < ZAINO_MAX
        invariant 0 <= i <= ZAINO_MAX
        invariant forall j :: 0 <= j < i ==> pack[j] != NessunOggetto
      {
        if pack[i] == NessunOggetto {
          FirstFreeIs(pack[..], i);
          return i;
        }
        i := i + 1;
      }
      assert FirstFree(pack[..]) == -1;
      return -1;
    }

    /** utilizza_oggetto for the menu choice (1..ZAINO_MAX a slot,
        ZAINO_MAX + 1 cancel, anything else rejected). */
    method UseItem(choice: int)
      requires Valid()
      modifies this`atk, this`def, this`luck, pack
      ensures Local() == Rules.UseItem(old(Local()), choice)
    {
      if choice < 1 || choice > ZAINO_MAX + 1 {
        return;
      }
      if choice == ZAINO_MAX + 1 {
        return;
      }
      match pack[choice - 1] {
        case Bicicletta => luck := luck + BONUS_BICICLETTA_FORTUNA;
        case MagliettaFuocoinferno => atk := atk + BONUS_MAGLIETTA_ATTACCO;
        case Bussola => luck := luck + BONUS_BUSSOLA_FORTUNA;
        case SchitarrataMetallica =>
          atk := atk + BONUS_SCHITARRATA_ATTACCO;
          def := def + BONUS_SCHITARRATA_DIFESA;
        case NessunOggetto => return;
      }
      pack[choice - 1] := NessunOggetto;
    }

    /** One pass of combatti_nemico's loop for the move m: the player's action
        and, when an attack leaves the enemy standing, its counter-attack.
        Returns the enemy's HP left and whether the pass ended the fight. */
    method CombatPass(foe: FoeStats, foeHp: int, m: Move) returns (left: int, won: bool, lost: bool)
      requires Valid() && ValidMove(m)
      modifies this`atk, this`def, this`luck, this`hp, pack
      ensures CombatStep(old(Local()), foe, foeHp, m) ==
              if won then Won(Local()) else if lost then Lost(Local()) else Continue(Local(), left)
    {
      won, lost := false, false;
      left := foeHp;
      var damage: int;
      match m {
        case BasicAttack(hitDie, parryDie, _, _) =>
          damage := (atk + hitDie) - (foe.def + parryDie);
          if damage < 0 {
            damage := 0;
          }
          left := left - damage;
        case PowerStrike(hitDie, parryDie, _, _) =>
          if hp <= COSTO_ATTACCO_POTENZIATO {
            return;
          }
          hp := hp - COSTO_ATTACCO_POTENZIATO;
          damage := (PowerAttack(atk) + hitDie) - (foe.def + parryDie);
          if damage < 0 {
            damage := 0;
          }
          left := left - damage;
        case Defend(c) =>
          // no break: Defend falls through into using an item, and continues;
          // so the flag that would take the bonus back is never seen set
          def := def + BONUS_DIFESA_TEMPORANEO;
          UseItem(c);
          return;
        case UseItemMove(c) =>
          UseItem(c);
          return;
        case InvalidMove =>
          return;
      }

      if left <= 0 {
        won := true;
        return;
      }

      // the enemy's counter-attack
      damage := (foe.atk + m.counterDie) - (def + m.guardDie);
      if damage < 0 {
        damage := 0;
      }
      if damage != 0 {
        hp := hp - damage;
      }
      lost := hp <= 0;
    }

    /** combatti_nemico over the given menu choices (with their rolls); vanish
        is the coin flip that decides whether a beaten enemy leaves the zone. */
    method Fight(g: ZoneGraph, moves: seq<Move>, vanish: bool) returns (outcome: Outcome)
      requires Valid() && OnMap(g) && ValidMoves(moves)
      modifies this`atk, this`def, this`luck, this`hp, pack, g`over, g`under
      ensures OnMap(g)
      ensures var r := Combat.Fight(old(View(g)), old(g.Over()), old(g.Under()), moves, vanish);
              && outcome == r.outcome && View(g) == r.v
              && g.Over() == ClearOver(old(View(g)), old(g.Over()), r.vanished)
              && g.Under() == ClearUnder(old(View(g)), old(g.Under()), r.vanished)
    {
      ghost var v0, os0, us0 := View(g), g.Over(), g.Under();
      var e := Foe(g);
      if e == NessunNemico {
        return NoEnemy;
      }
      ghost var r := Rounds(v0, e, FoeStatsOf(e).hp, moves, vanish);
      CoinDecidesVanish(v0, e, FoeStatsOf(e).hp, moves, vanish);
      outcome := Battle(g, e, moves);
      assert outcome == r.outcome && View(g) == r.v;
      if outcome in {Victory, BossVictory} && vanish {
        RemoveEnemy(g);
      }
    }

    /** The loop of combatti_nemico against an enemy of kind e, from the
        tier's full HP. */
    method Battle(g: ZoneGraph, e: Enemy, moves: seq<Move>) returns (outcome: Outcome)
      requires Valid() && OnMap(g) && ValidMoves(moves)
      modifies this`atk, this`def, this`luck, this`hp, pack
      ensures var r := Rounds(old(View(g)), e, FoeStatsOf(e).hp, moves, false);
              outcome == r.outcome && View(g) == r.v
    {
      var foe := FoeStatsOf(e);
      var foeHp := foe.hp;
      ghost var goal := Rounds(View(g), e, foeHp, moves, false);
      ghost var a, b := IndexOf(g.overOrder, posOver), IndexOf(g.underOrder, posUnder);
      var i := 0;
      while foeHp > 0 && hp > 0
        invariant 0 <= i <= |moves|
        invariant Valid()
        invariant View(g) == Local().(slotOver := a, slotUnder := b)
        invariant Rounds(View(g), e, foeHp, moves[i..], false) == goal
        decreases |moves| - i
      {
        if i == |moves| {
          return Unfinished;
        }
        assert moves[i..][0] == moves[i] && moves[i..][1..] == moves[i + 1..];
        StepIgnoresPlace(Local(), a, b, foe, foeHp, moves[i]);
        var won, lost;
        foeHp, won, lost := CombatPass(foe, foeHp, moves[i]);
        i := i + 1;
        if won {
          return if e == Demotorzone then BossVictory else Victory;
        }
        if lost {
          return Defeat;
        }
      }
      return NotFought;
    }

    /** A beaten enemy leaves the player's zone. */
    method RemoveEnemy(g: ZoneGraph)
      requires OnMap(g) && Rules.HasEnemy(View(g), g.Over(), g.Under())
      modifies g`over, g`under
      ensures OnMap(g)
      ensures g.Over() == ClearOver(View(g), old(g.Over()), true)
      ensures g.Under() == ClearUnder(View(g), old(g.Under()), true)
    {
      if world == MondoReale {
        g.SetOverZone(posOver, g.over[posOver].zone.(enemy := NessunNemico));
      } else {
        g.SetUnderZone(posUnder, g.under[posUnder].zone.(enemy := NessunNemico));
      }
    }

    /** The start of gioca: the player stands on the first Mondo Reale zone,
        in the Mondo Reale, with no Soprasotto position. */
    method Place(g: ZoneGraph)
      requires g.Valid()
      modifies this`world, this`posOver, this`posUnder
      ensures OnMap(g) && world == MondoReale && posOver == g.overHead && posUnder == NULL
      ensures View(g).world == MondoReale && View(g).slotUnder == NULL
      ensures View(g).slotOver == (if |g.Over()| == 0 then NULL else 0)
      ensures atk == old(atk) && def == old(def) && luck == old(luck) && hp == old(hp)
    {
      posOver := g.overHead;
      posUnder := NULL;
      world := MondoReale;
      if posOver != NULL {
        IndexOfAt(g.overOrder, 0);
      }
    }
  }
}
