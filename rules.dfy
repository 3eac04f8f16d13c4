/**
 * The player actions of gamelib.c as functions on values: ha_nemico_zona,
 * avanza, indietreggia, cambia_mondo, raccogli_oggetto and utilizza_oggetto.
 *
 * A PlayerView is what these functions read and write of a Giocatore, with
 * the two position pointers given as positions in the lists (0-based), -1
 * standing for NULL; the zones are the two lists as sequences. The methods
 * of Players.Player are proved to act exactly as these functions say.
 */
module Rules {
  import opened GameTypes

  datatype PlayerView = PlayerView(
    world: World,
    slotOver: int,
    slotUnder: int,
    atk: int,
    def: int,
    luck: int,
    hp: int,
    pack: seq<Item>)

  /** The zone the player stands on in the Mondo Reale list, if any. */
  predicate OnOver(v: PlayerView, os: seq<OverZone>)
  {
    0 <= v.slotOver < |os|
  }

  predicate OnUnder(v: PlayerView, us: seq<UnderZone>)
  {
    0 <= v.slotUnder < |us|
  }

  /** ha_nemico_zona: an enemy stands on the player's zone of the player's world. */
  function HasEnemy(v: PlayerView, os: seq<OverZone>, us: seq<UnderZone>): (b: bool)
    ensures b ==> if v.world == MondoReale then OnOver(v, os) else OnUnder(v, us)
  {
    if v.world == MondoReale then OnOver(v, os) && os[v.slotOver].enemy != NessunNemico
    else OnUnder(v, us) && us[v.slotUnder].enemy != NessunNemico
  }

  /** The enemy on the player's zone (NessunNemico when there is none). */
  function EnemyHere(v: PlayerView, os: seq<OverZone>, us: seq<UnderZone>): (e: Enemy)
    ensures e != NessunNemico <==> HasEnemy(v, os, us)
  {
    if v.world == MondoReale then (if OnOver(v, os) then os[v.slotOver].enemy else NessunNemico)
    else (if OnUnder(v, us) then us[v.slotUnder].enemy else NessunNemico)
  }

  /** avanza: one zone forward in the current world, unless an enemy blocks
      the way or the current zone is the last one. */
  function Advance(v: PlayerView, os: seq<OverZone>, us: seq<UnderZone>): (r: PlayerView)
    ensures r == v.(slotOver := r.slotOver, slotUnder := r.slotUnder)
    ensures if v.world == MondoReale then r.slotUnder == v.slotUnder && r.slotOver - v.slotOver in {0, 1}
            else r.slotOver == v.slotOver && r.slotUnder - v.slotUnder in {0, 1}
  {
    if HasEnemy(v, os, us) then v
    else if v.world == MondoReale then
      (if OnOver(v, os) && v.slotOver + 1 < |os| then v.(slotOver := v.slotOver + 1) else v)
    else
      (if OnUnder(v, us) && v.slotUnder + 1 < |us| then v.(slotUnder := v.slotUnder + 1) else v)
  }

  /** indietreggia: one zone back, unless blocked or at the first zone. */
  function Retreat(v: PlayerView, os: seq<OverZone>, us: seq<UnderZone>): (r: PlayerView)
    ensures r == v.(slotOver := r.slotOver, slotUnder := r.slotUnder)
    ensures if v.world == MondoReale then r.slotUnder == v.slotUnder && v.slotOver - r.slotOver in {0, 1}
            else r.slotOver == v.slotOver && v.slotUnder - r.slotUnder in {0, 1}
  {
    if HasEnemy(v, os, us) then v
    else if v.world == MondoReale then
      (if OnOver(v, os) && v.slotOver > 0 then v.(slotOver := v.slotOver - 1) else v)
    else
      (if OnUnder(v, us) && v.slotUnder > 0 then v.(slotUnder := v.slotUnder - 1) else v)
  }

  datatype Crossing = Crossing(v: PlayerView, crossed: bool)

  /** cambia_mondo with the d20 it rolls in the Soprasotto: from the Mondo
      Reale the player always passes to the partner zone; from the Soprasotto
      only when the roll is below the player's luck. */
  function Cross(v: PlayerView, die: int): (c: Crossing)
    requires IsD20(die)
    ensures c.v == v.(world := c.v.world, slotOver := c.v.slotOver, slotUnder := c.v.slotUnder)
    ensures c.crossed <==> c.v.world != v.world
    ensures !c.crossed ==> c.v == v
  {
    if v.world == MondoReale then
      (if v.slotOver >= 0 then Crossing(v.(world := Soprasotto, slotUnder := v.slotOver, slotOver := -1), true)
       else Crossing(v, false))
    else if die < v.luck && v.slotUnder >= 0 then
      Crossing(v.(world := MondoReale, slotOver := v.slotUnder, slotUnder := -1), true)
    else Crossing(v, false)
  }

  /** The lowest empty slot of the pack at or after slot i, or -1 when all are taken. */
  function FirstFreeFrom(pack: seq<Item>, i: nat): (k: int)
    requires i <= |pack|
    ensures k == -1 || i <= k < |pack|
    ensures k >= 0 ==> pack[k] == NessunOggetto && forall j :: i <= j < k ==> pack[j] != NessunOggetto
    ensures k == -1 ==> forall j :: i <= j < |pack| ==> pack[j] != NessunOggetto
    decreases |pack| - i
  {
    if i == |pack| then -1
    else if pack[i] == NessunOggetto then i
    else FirstFreeFrom(pack, i + 1)
  }

  function FirstFree(pack: seq<Item>): int
  {
    FirstFreeFrom(pack, 0)
  }

  /** The first free slot is determined by the slots below it being full. */
  lemma FirstFreeIs(pack: seq<Item>, k: nat)
    requires k < |pack| && pack[k] == NessunOggetto
    requires forall j :: 0 <= j < k ==> pack[j] != NessunOggetto
    ensures FirstFree(pack) == k
  {
    var r := FirstFree(pack);
    if r == -1 {
    } else if r < k {
    } else if r > k {
    }
  }

  datatype PickUpResult = PickUpResult(v: PlayerView, os: seq<OverZone>)

  /** Whether raccogli_oggetto takes the item: the player is in the Mondo Reale
      on a zone with no enemy and with an item, and the pack has a free slot. */
  predicate CanPickUp(v: PlayerView, os: seq<OverZone>)
  {
    && v.world == MondoReale
    && OnOver(v, os)
    && os[v.slotOver].enemy == NessunNemico
    && os[v.slotOver].item != NessunOggetto
    && FirstFree(v.pack) >= 0
  }

  /** raccogli_oggetto: the zone's item goes to the lowest empty slot and the
      zone is left without item. */
  function PickUp(v: PlayerView, os: seq<OverZone>): (r: PickUpResult)
    ensures r.v == v.(pack := r.v.pack) && |r.v.pack| == |v.pack| && |r.os| == |os|
    ensures forall k :: 0 <= k < |os| ==> r.os[k].kind == os[k].kind && r.os[k].enemy == os[k].enemy
  {
    if CanPickUp(v, os) then
      var z := os[v.slotOver];
      PickUpResult(v.(pack := v.pack[FirstFree(v.pack) := z.item]), os[v.slotOver := z.(item := NessunOggetto)])
    else PickUpResult(v, os)
  }

  /** The permanent effect of using an item (the bonuses of gamelib.h). */
  function ApplyItem(v: PlayerView, it: Item): (a: PlayerView)
    ensures a == v.(atk := a.atk, def := a.def, luck := a.luck)
    ensures a.atk >= v.atk && a.def >= v.def && a.luck >= v.luck
    ensures it == NessunOggetto ==> a == v
  {
    match it
    case Bicicletta => v.(luck := v.luck + BONUS_BICICLETTA_FORTUNA)
    case MagliettaFuocoinferno => v.(atk := v.atk + BONUS_MAGLIETTA_ATTACCO)
    case Bussola => v.(luck := v.luck + BONUS_BUSSOLA_FORTUNA)
    case SchitarrataMetallica => v.(atk := v.atk + BONUS_SCHITARRATA_ATTACCO, def := v.def + BONUS_SCHITARRATA_DIFESA)
    case NessunOggetto => v
  }

  /** Whether utilizza_oggetto consumes an item for the menu choice (1..3 a
      slot, 4 cancel, anything else rejected). */
  predicate Uses(v: PlayerView, choice: int)
  {
    1 <= choice <= ZAINO_MAX && choice - 1 < |v.pack| && v.pack[choice - 1] != NessunOggetto
  }

  /** utilizza_oggetto: applies the chosen slot's bonus and empties that slot. */
  function UseItem(v: PlayerView, choice: int): (u: PlayerView)
    ensures u == v.(atk := u.atk, def := u.def, luck := u.luck, pack := u.pack) && |u.pack| == |v.pack|
  {
    if Uses(v, choice) then
      ApplyItem(v, v.pack[choice - 1]).(pack := v.pack[choice - 1 := NessunOggetto])
    else v
  }

  // ---------------------------------------------------------------------------
  // Movement

  /** The place of a player: world and both positions. */
  function Where(v: PlayerView): (World, int, int)
  {
    (v.world, v.slotOver, v.slotUnder)
  }

  /** A blocked player does not move, in either direction. */
  lemma BlockedStays(v: PlayerView, os: seq<OverZone>, us: seq<UnderZone>)
    requires HasEnemy(v, os, us)
    ensures Advance(v, os, us) == v && Retreat(v, os, us) == v
  {
  }

  /** avanza moves exactly when no enemy blocks and a next zone exists, and
      then goes to the next position of the current world, changing nothing else. */
  lemma AdvanceMoves(v: PlayerView, os: seq<OverZone>, us: seq<UnderZone>)
    ensures var a := Advance(v, os, us);
            var hasNext := if v.world == MondoReale then OnOver(v, os) && v.slotOver + 1 < |os|
                           else OnUnder(v, us) && v.slotUnder + 1 < |us|;
            && (a != v <==> !HasEnemy(v, os, us) && hasNext)
            && (a != v ==> a == (if v.world == MondoReale then v.(slotOver := v.slotOver + 1)
                                 else v.(slotUnder := v.slotUnder + 1)))
  {
  }

  /** indietreggia moves exactly when no enemy blocks and a previous zone
      exists, and then goes to the previous position of the current world. */
  lemma RetreatMoves(v: PlayerView, os: seq<OverZone>, us: seq<UnderZone>)
    ensures var r := Retreat(v, os, us);
            var hasPrev := if v.world == MondoReale then OnOver(v, os) && v.slotOver > 0
                           else OnUnder(v, us) && v.slotUnder > 0;
            && (r != v <==> !HasEnemy(v, os, us) && hasPrev)
            && (r != v ==> r == (if v.world == MondoReale then v.(slotOver := v.slotOver - 1)
                                 else v.(slotUnder := v.slotUnder - 1)))
  {
  }

  /** Going back undoes going forward, when the new zone holds no enemy. */
  lemma AdvanceThenRetreat(v: PlayerView, os: seq<OverZone>, us: seq<UnderZone>)
    requires Advance(v, os, us) != v
    requires !HasEnemy(Advance(v, os, us), os, us)
    ensures Retreat(Advance(v, os, us), os, us) == v
  {
  }

  /** Going forward undoes going back, when the new zone holds no enemy. */
  lemma RetreatThenAdvance(v: PlayerView, os: seq<OverZone>, us: seq<UnderZone>)
    requires Retreat(v, os, us) != v
    requires !HasEnemy(Retreat(v, os, us), os, us)
    ensures Advance(Retreat(v, os, us), os, us) == v
  {
  }

  /** Movement never leaves the list: a player on a zone stays on a zone. */
  lemma MovesStayOnList(v: PlayerView, os: seq<OverZone>, us: seq<UnderZone>)
    requires v.world == MondoReale ==> OnOver(v, os)
    requires v.world == Soprasotto ==> OnUnder(v, us)
    ensures var a := Advance(v, os, us); a.world == v.world && (a.world == MondoReale ==> OnOver(a, os)) && (a.world == Soprasotto ==> OnUnder(a, us))
    ensures var r := Retreat(v, os, us); r.world == v.world && (r.world == MondoReale ==> OnOver(r, os)) && (r.world == Soprasotto ==> OnUnder(r, us))
  {
  }

  // ---------------------------------------------------------------------------
  // Crossing

  /** From the Mondo Reale the crossing always succeeds when the player is on
      a zone, lands on the partner zone and clears the Mondo Reale position. */
  lemma CrossFromOver(v: PlayerView, die: int)
    requires IsD20(die) && v.world == MondoReale
    ensures Cross(v, die).crossed <==> v.slotOver >= 0
    ensures Cross(v, die).crossed ==>
              Cross(v, die).v == v.(world := Soprasotto, slotUnder := v.slotOver, slotOver := -1)
  {
  }

  /** From the Soprasotto the crossing succeeds exactly when the roll is below
      the luck; it lands on the partner zone and clears the Soprasotto position. */
  lemma CrossFromUnder(v: PlayerView, die: int)
    requires IsD20(die) && v.world == Soprasotto && v.slotUnder >= 0
    ensures Cross(v, die).crossed <==> die < v.luck
    ensures Cross(v, die).crossed ==>
              Cross(v, die).v == v.(world := MondoReale, slotOver := v.slotUnder, slotUnder := -1)
  {
  }

  /** A failed crossing changes nothing. */
  lemma CrossFailureKeepsState(v: PlayerView, die: int)
    requires IsD20(die) && !Cross(v, die).crossed
    ensures Cross(v, die).v == v
  {
  }

  /** With luck above 20 the escape from the Soprasotto always succeeds; with
      luck 1 or less it never does. */
  lemma CrossLuckExtremes(v: PlayerView, die: int)
    requires IsD20(die) && v.world == Soprasotto && v.slotUnder >= 0
    ensures v.luck > 20 ==> Cross(v, die).crossed
    ensures v.luck <= 1 ==> !Cross(v, die).crossed
  {
  }

  /** Crossing to the Soprasotto and back returns the player to the zone it
      left, whenever the escape roll succeeds. */
  lemma CrossAndBack(v: PlayerView, die1: int, die2: int)
    requires IsD20(die1) && IsD20(die2)
    requires v.world == MondoReale && v.slotOver >= 0 && v.slotUnder == -1
    requires die2 < v.luck
    ensures Cross(Cross(v, die1).v, die2) == Crossing(v, true)
  {
  }

  // ---------------------------------------------------------------------------
  // Inventory

  /** raccogli_oggetto, when it takes the item: the item lands in the lowest
      empty slot, the zone is left without item, and nothing else changes. */
  lemma PickUpTakes(v: PlayerView, os: seq<OverZone>)
    requires CanPickUp(v, os)
    ensures var r := PickUp(v, os);
            var k := FirstFree(v.pack);
            && 0 <= k < |v.pack| && v.pack[k] == NessunOggetto
            && (forall j :: 0 <= j < k ==> v.pack[j] != NessunOggetto)
            && r.v.pack[k] == os[v.slotOver].item
            && (forall j :: 0 <= j < |v.pack| && j != k ==> r.v.pack[j] == v.pack[j])
            && r.v == v.(pack := r.v.pack)
            && |r.os| == |os| && r.os[v.slotOver].item == NessunOggetto
            && r.os[v.slotOver].enemy == os[v.slotOver].enemy && r.os[v.slotOver].kind == os[v.slotOver].kind
            && (forall j :: 0 <= j < |os| && j != v.slotOver ==> r.os[j] == os[j])
  {
  }

  /** raccogli_oggetto leaves everything unchanged in the Soprasotto, with an
      enemy present, on a zone without item, and with a full pack. */
  lemma PickUpRefused(v: PlayerView, os: seq<OverZone>)
    requires v.world == Soprasotto
          || !OnOver(v, os)
          || os[v.slotOver].enemy != NessunNemico
          || os[v.slotOver].item == NessunOggetto
          || forall j :: 0 <= j < |v.pack| ==> v.pack[j] != NessunOggetto
    ensures PickUp(v, os) == PickUpResult(v, os)
  {
    if FirstFree(v.pack) >= 0 {
      assert v.pack[FirstFree(v.pack)] == NessunOggetto;
    }
  }

  /** Picking up moves an item; it neither creates nor destroys one: the
      items of the pack and of the zone are the same before and after. */
  lemma PickUpConservesItems(v: PlayerView, os: seq<OverZone>)
    requires OnOver(v, os)
    ensures var r := PickUp(v, os);
            multiset(r.v.pack) + multiset{r.os[v.slotOver].item} == multiset(v.pack) + multiset{os[v.slotOver].item}
  {
    if CanPickUp(v, os) {
      var k := FirstFree(v.pack);
      assert v.pack[k] == NessunOggetto;
      var p' := v.pack[k := os[v.slotOver].item];
      assert multiset(p') == multiset(v.pack) - multiset{NessunOggetto} + multiset{os[v.slotOver].item};
    }
  }

  /** utilizza_oggetto applies the constant bonuses of the chosen item and
      empties exactly the chosen slot; HP, world and positions are untouched. */
  lemma UseItemEffect(v: PlayerView, choice: int)
    requires Uses(v, choice)
    ensures var u := UseItem(v, choice);
            var it := v.pack[choice - 1];
            && u.pack[choice - 1] == NessunOggetto
            && |u.pack| == |v.pack|
            && (forall j :: 0 <= j < |v.pack| && j != choice - 1 ==> u.pack[j] == v.pack[j])
            && u.atk == v.atk + (if it == MagliettaFuocoinferno then BONUS_MAGLIETTA_ATTACCO
                                 else if it == SchitarrataMetallica then BONUS_SCHITARRATA_ATTACCO else 0)
            && u.def == v.def + (if it == SchitarrataMetallica then BONUS_SCHITARRATA_DIFESA else 0)
            && u.luck == v.luck + (if it == Bicicletta then BONUS_BICICLETTA_FORTUNA
                                   else if it == Bussola then BONUS_BUSSOLA_FORTUNA else 0)
            && u.hp == v.hp && Where(u) == Where(v)
  {
  }

  /** Cancelling (choice 4), an out-of-range choice or an empty slot changes nothing. */
  lemma UseItemRefused(v: PlayerView, choice: int)
    requires choice < 1 || choice > ZAINO_MAX || (choice - 1 < |v.pack| && v.pack[choice - 1] == NessunOggetto)
    ensures UseItem(v, choice) == v
  {
  }

  /** Items only ever raise statistics. */
  lemma UseItemNeverLowers(v: PlayerView, choice: int)
    ensures var u := UseItem(v, choice);
            u.atk >= v.atk && u.def >= v.def && u.luck >= v.luck && u.hp == v.hp && Where(u) == Where(v)
  {
  }

  /** Using an item does not look at, or change, the player's place. */
  lemma UseItemIgnoresPlace(v: PlayerView, slotOver: int, slotUnder: int, choice: int)
    ensures UseItem(v.(slotOver := slotOver, slotUnder := slotUnder), choice) ==
            UseItem(v, choice).(slotOver := slotOver, slotUnder := slotUnder)
  {
  }
}
