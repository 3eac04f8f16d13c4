/**
 * One player's turn in gioca: the menu loop with its three flags
 * (nemico_presente, mossa_effettuata, appena_mosso_con_nemico) as a step
 * function over already-read menu choices, and the loop itself as a method
 * on the player and the map, proved to follow the step function.
 */
module Turns {
  import opened GameTypes
  import opened Chains
  import opened ZoneMap
  import opened Rules
  import opened Combat
  import opened Players

  /** A menu choice of the turn, with what it reads from the input or the dice. */
  datatype Action =
    | Forward                                 // 1: avanza
    | Back                                    // 2: indietreggia
    | CrossOver(die: int)                     // 3: cambia_mondo (d20 used in the Soprasotto)
    | Attack(moves: seq<Move>, vanish: bool)  // 4: combatti_nemico
    | ShowPlayer                              // 5
    | ShowZone                                // 6
    | Collect                                 // 7: raccogli_oggetto
    | Use(choice: int)                        // 8: utilizza_oggetto
    | Pass                                    // 9
    | Unknown                                 // anything else, or a non-number

  predicate ValidAction(a: Action)
  {
    match a
    case CrossOver(d) => IsD20(d)
    case Attack(ms, _) => ValidMoves(ms)
    case _ => true
  }

  predicate ValidActions(acts: seq<Action>)
  {
    forall k :: 0 <= k < |acts| ==> ValidAction(acts[k])
  }

  /** How the turn stands: still playing, passed, the player died, the
      Demotorzone was beaten (the session ends), or a fight was left
      unfinished because its moves ran out. */
  datatype Status = Playing | Passed | Died | BossBeaten | FightInterrupted

  datatype Turn = Turn(
    v: PlayerView,
    os: seq<OverZone>,
    us: seq<UnderZone>,
    enemyPresent: bool,
    moved: bool,
    justMoved: bool,
    status: Status)

  /** The flags at the start of a turn. */
  function StartTurn(v: PlayerView, os: seq<OverZone>, us: seq<UnderZone>): (t: Turn)
    ensures t.status == Playing && !t.moved && !t.justMoved
    ensures t.enemyPresent == HasEnemy(v, os, us)
  {
    Turn(v, os, us, HasEnemy(v, os, us), false, false, Playing)
  }

  /** The turn ends once the player passed, died or won, a fight was cut
      short, or the player moved into a zone with an enemy. */
  predicate Ended(t: Turn)
  {
    t.status != Playing || t.justMoved
  }

  /** A movement action that was let through: the flags after it. */
  function AfterMove(t: Turn, v': PlayerView): Turn
  {
    t.(v := v', moved := true, justMoved := t.justMoved || HasEnemy(v', t.os, t.us))
  }

  /** The map os', us' can follow the map os, us within a session: the same
      zones of the same kinds, each with its enemy still there or gone and
      each Mondo Reale item still there or gone: no enemy or item has
      appeared or changed. */
  predicate OnlyCleared(os': seq<OverZone>, us': seq<UnderZone>, os: seq<OverZone>, us: seq<UnderZone>)
  {
    && |os'| == |os| && |us'| == |us|
    && (forall k :: 0 <= k < |os| ==> os'[k].kind == os[k].kind && os'[k].enemy in {os[k].enemy, NessunNemico}
                                      && os'[k].item in {os[k].item, NessunOggetto})
    && (forall k :: 0 <= k < |us| ==> us'[k].kind == us[k].kind && us'[k].enemy in {us[k].enemy, NessunNemico})
  }

  /** One pass of the action loop. */
  function Step(t: Turn, a: Action): (t': Turn)
    requires ValidAction(a)
    ensures |t'.os| == |t.os| && |t'.us| == |t.us|
    ensures t'.moved != t.moved ==> !t.moved && (a.Forward? || a.Back? || a.CrossOver?)
  {
    match a
    case Forward =>
      if t.enemyPresent || t.moved then t else AfterMove(t, Advance(t.v, t.os, t.us))
    case Back =>
      if t.enemyPresent || t.moved then t else AfterMove(t, Retreat(t.v, t.os, t.us))
    case CrossOver(die) =>
      if t.enemyPresent && t.v.world == MondoReale then t
      else if t.moved then t
      else
        var c := Cross(t.v, die);
        if c.crossed then
          var e := HasEnemy(c.v, t.os, t.us);
          t.(v := c.v, moved := true, enemyPresent := e, justMoved := t.justMoved || e)
        else t.(v := c.v)
    case Attack(ms, vanish) =>
      if t.justMoved then t
      else
        var r := Fight(t.v, t.os, t.us, ms, vanish);
        var t' := t.(v := r.v, os := ClearOver(t.v, t.os, r.vanished), us := ClearUnder(t.v, t.us, r.vanished));
        (match r.outcome
         case Defeat => t'.(status := Died)
         case BossVictory => t'.(status := BossBeaten)
         case Victory => t'.(enemyPresent := false)
         case Unfinished => t'.(status := FightInterrupted)
         case _ => t')
    case Collect =>
      var p := PickUp(t.v, t.os);
      t.(v := p.v, os := p.os)
    case Use(c) => t.(v := UseItem(t.v, c))
    case Pass =>
      if t.enemyPresent && !t.justMoved then t else t.(status := Passed)
    case ShowPlayer => t
    case ShowZone => t
    case Unknown => t
  }

  /** The action loop: steps until the turn ends or the input runs out. */
  function RunTurn(t: Turn, acts: seq<Action>): (r: Turn)
    requires ValidActions(acts)
    ensures |r.os| == |t.os| && |r.us| == |t.us|
    ensures t.status != Playing ==> r.status == t.status
    decreases |acts|
  {
    if Ended(t) || |acts| == 0 then t else RunTurn(Step(t, acts[0]), acts[1..])
  }

  /** How many of the actions were movements that were let through. */
  function MoveCount(t: Turn, acts: seq<Action>): nat
    requires ValidActions(acts)
    decreases |acts|
  {
    if Ended(t) || |acts| == 0 then 0
    else (if !t.moved && Step(t, acts[0]).moved then 1 else 0) + MoveCount(Step(t, acts[0]), acts[1..])
  }

  lemma ValidTail(acts: seq<Action>)
    requires ValidActions(acts) && |acts| > 0
    ensures ValidAction(acts[0]) && ValidActions(acts[1..])
  {
    assert forall k :: 0 <= k < |acts[1..]| ==> acts[1..][k] == acts[k + 1];
  }

  // ---------------------------------------------------------------------------
  // Properties of one step

  /** The player's place changes only in the step that makes the turn's one
      move, and the map's zone lists keep their length. */
  lemma StepPlace(t: Turn, a: Action)
    requires ValidAction(a)
    ensures var t' := Step(t, a);
            && (t.moved ==> t'.moved)
            && (Where(t'.v) != Where(t.v) ==> !t.moved && t'.moved)
            && |t'.os| == |t.os| && |t'.us| == |t.us|
  {
    match a
    case Attack(ms, vanish) =>
      if !t.justMoved && HasEnemy(t.v, t.os, t.us) {
        var e := EnemyHere(t.v, t.os, t.us);
        RoundsOutcome(t.v, e, FoeStatsOf(e).hp, ms, vanish);
      }
    case Use(c) => UseItemNeverLowers(t.v, c);
    case _ =>
  }

  /** Fight is refused right after moving into an enemy; pass is refused
      exactly while an enemy blocks and the player has not just moved. */
  lemma RefusedActions(t: Turn, ms: seq<Move>, vanish: bool)
    requires ValidMoves(ms)
    ensures t.justMoved ==> Step(t, Attack(ms, vanish)) == t
    ensures Step(t, Pass).status == Passed <==> (t.status == Passed || !(t.enemyPresent && !t.justMoved))
    ensures t.enemyPresent && !t.justMoved ==> Step(t, Pass) == t
  {
  }

  /** A movement action is refused while an enemy is on the zone (crossing
      only in the Mondo Reale) or once the player has moved this turn. */
  lemma MovesRefused(t: Turn, die: int)
    requires IsD20(die)
    ensures t.enemyPresent || t.moved ==> Step(t, Forward) == t && Step(t, Back) == t
    ensures (t.enemyPresent && t.v.world == MondoReale) || t.moved ==> Step(t, CrossOver(die)) == t
  {
  }

  /** A failed escape from the Soprasotto uses up nothing: the player can try
      again in the same turn. */
  lemma FailedCrossingKeepsMove(t: Turn, die: int)
    requires IsD20(die) && !t.moved && t.v.world == Soprasotto && !Cross(t.v, die).crossed
    ensures Step(t, CrossOver(die)) == t
  {
  }

  /** A player alive at a step dies only by losing a fight there. */
  lemma StepSurvival(t: Turn, a: Action)
    requires ValidAction(a) && t.v.hp > 0 && t.status == Playing
    ensures var t' := Step(t, a);
            && (t'.v.hp <= 0 <==> t'.status == Died)
            && (t'.status == Died ==> a.Attack?)
            && (t'.status == BossBeaten ==> a.Attack? && EnemyHere(t.v, t.os, t.us) == Demotorzone)
  {
    match a
    case Attack(ms, vanish) =>
      FightCodes(t.v, t.os, t.us, ms, vanish);
      if !t.justMoved && HasEnemy(t.v, t.os, t.us) {
        var e := EnemyHere(t.v, t.os, t.us);
        RoundsOutcome(t.v, e, FoeStatsOf(e).hp, ms, vanish);
      }
    case Use(c) => UseItemNeverLowers(t.v, c);
    case _ =>
  }

  // ---------------------------------------------------------------------------
  // Properties of a whole turn

  /** Within a turn at most one movement action is performed, and if none
      was, the player is where the turn started. */
  lemma {:induction false} AtMostOneMove(t: Turn, acts: seq<Action>)
    requires ValidActions(acts)
    ensures MoveCount(t, acts) <= (if t.moved then 0 else 1)
    ensures var r := RunTurn(t, acts);
            && (t.moved ==> r.moved)
            && (!r.moved ==> Where(r.v) == Where(t.v))
    decreases |acts|
  {
    if !Ended(t) && |acts| > 0 {
      ValidTail(acts);
      StepPlace(t, acts[0]);
      AtMostOneMove(Step(t, acts[0]), acts[1..]);
    }
  }

  /** The turn of a living player ends with the player dead exactly when it
      ended by losing a fight; a boss victory ends the turn (and the session). */
  lemma {:induction false} TurnSurvival(t: Turn, acts: seq<Action>)
    requires ValidActions(acts) && t.v.hp > 0 && t.status == Playing
    ensures var r := RunTurn(t, acts);
            && (r.v.hp <= 0 <==> r.status == Died)
    decreases |acts|
  {
    if !Ended(t) && |acts| > 0 {
      ValidTail(acts);
      StepSurvival(t, acts[0]);
      var t' := Step(t, acts[0]);
      if t'.status == Playing {
        TurnSurvival(t', acts[1..]);
      }
    }
  }

  /** Enemies only leave the map: an enemy on a zone at some point stood
      there at every earlier point. */
  lemma ClearedEnemyWasThere(v: PlayerView, os': seq<OverZone>, us': seq<UnderZone>, os: seq<OverZone>, us: seq<UnderZone>)
    requires OnlyCleared(os', us', os, us) && HasEnemy(v, os', us')
    ensures EnemyHere(v, os, us) == EnemyHere(v, os', us')
  {
  }

  /** A step takes an enemy off the map (when it flees after losing) or an
      item (raccogli_oggetto), and changes nothing else about the zones. */
  lemma StepClears(t: Turn, a: Action)
    requires ValidAction(a)
    ensures OnlyCleared(Step(t, a).os, Step(t, a).us, t.os, t.us)
  {
  }

  /** So does a whole turn. */
  lemma {:induction false} TurnClears(t: Turn, acts: seq<Action>)
    requires ValidActions(acts)
    ensures OnlyCleared(RunTurn(t, acts).os, RunTurn(t, acts).us, t.os, t.us)
    decreases |acts|
  {
    if !Ended(t) && |acts| > 0 {
      ValidTail(acts);
      var t' := Step(t, acts[0]);
      StepClears(t, acts[0]);
      TurnClears(t', acts[1..]);
      ClearedTrans(RunTurn(t', acts[1..]).os, RunTurn(t', acts[1..]).us, t'.os, t'.us, t.os, t.us);
    }
  }

  lemma ClearedTrans(os'': seq<OverZone>, us'': seq<UnderZone>, os': seq<OverZone>, us': seq<UnderZone>, os: seq<OverZone>, us: seq<UnderZone>)
    requires OnlyCleared(os'', us'', os', us') && OnlyCleared(os', us', os, us)
    ensures OnlyCleared(os'', us'', os, us)
  {
  }

  /** A turn of a living player that ends with the boss beaten ends on a zone
      where the Demotorzone stood when the turn began: only fighting it there
      ends a turn that way. */
  lemma {:induction false} BossTurn(t: Turn, acts: seq<Action>)
    requires ValidActions(acts) && t.v.hp > 0 && t.status == Playing
    ensures var r := RunTurn(t, acts);
            r.status == BossBeaten ==> EnemyHere(r.v, t.os, t.us) == Demotorzone
    decreases |acts|
  {
    if !Ended(t) && |acts| > 0 {
      ValidTail(acts);
      StepSurvival(t, acts[0]);
      var t' := Step(t, acts[0]);
      var r := RunTurn(t', acts[1..]);
      if t'.status == Playing {
        BossTurn(t', acts[1..]);
        if r.status == BossBeaten {
          StepClears(t, acts[0]);
          ClearedEnemyWasThere(r.v, t'.os, t'.us, t.os, t.us);
        }
      } else if t'.status == BossBeaten {
        EndedTurnStays(t', acts[1..]);
        StepPlace(t, acts[0]);
        assert Where(r.v) == Where(t.v);
      }
    }
  }

  /** An enemy beaten without fleeing stays on its zone, and fighting again in
      the same turn meets it anew: the second fight starts from the full HP of
      its tier, whatever the first one left it. */
  lemma FreshFoeEachFight(t: Turn, ms1: seq<Move>, c1: bool, ms2: seq<Move>, c2: bool)
    requires ValidMoves(ms1) && ValidMoves(ms2) && !t.justMoved
    requires Fight(t.v, t.os, t.us, ms1, c1).outcome == Victory && !c1
    ensures var e := EnemyHere(t.v, t.os, t.us);
            var t1 := Step(t, Attack(ms1, c1));
            var t2 := Step(t1, Attack(ms2, c2));
            && FoeStatsOf(e).hp > 0
            && t1.os == t.os && t1.us == t.us && t1.status == t.status && !t1.justMoved
            && EnemyHere(t1.v, t1.os, t1.us) == e
            && t2.v == Rounds(t1.v, e, FoeStatsOf(e).hp, ms2, c2).v
  {
    var e := EnemyHere(t.v, t.os, t.us);
    RoundsOutcome(t.v, e, FoeStatsOf(e).hp, ms1, c1);
    var t1 := Step(t, Attack(ms1, c1));
    assert Where(t1.v) == Where(t.v);
  }

  /** A turn that has ended consumes no more actions. */
  lemma EndedTurnStays(t: Turn, acts: seq<Action>)
    requires ValidActions(acts) && Ended(t)
    ensures RunTurn(t, acts) == t && MoveCount(t, acts) == 0
  {
  }

  // ---------------------------------------------------------------------------
  // The action loop on the player and the map

  /** One pass of gioca's action loop: the menu choice a, checked against the
      turn's flags and carried out on the player and the map. */
  method TakeAction(p: Player, g: ZoneGraph, a: Action, enemyPresent: bool, moved: bool, justMoved: bool)
    returns (enemyPresent': bool, moved': bool, justMoved': bool, status: Status)
    requires p.Valid() && p.OnMap(g) && ValidAction(a)
    modifies p, p.pack, g`over, g`under
    ensures p.Valid() && p.OnMap(g)
    ensures g.overOrder == old(g.overOrder) && g.underOrder == old(g.underOrder)
    ensures Turn(p.View(g), g.Over(), g.Under(), enemyPresent', moved', justMoved', status) ==
            Step(Turn(old(p.View(g)), old(g.Over()), old(g.Under()), enemyPresent, moved, justMoved, Playing), a)
  {
    enemyPresent', moved', justMoved', status := enemyPresent, moved, justMoved, Playing;
    match a {
      case Forward =>
        moved', justMoved' := MoveAction(p, g, true, enemyPresent, moved, justMoved);
      case Back =>
        moved', justMoved' := MoveAction(p, g, false, enemyPresent, moved, justMoved);
      case CrossOver(die) =>
        enemyPresent', moved', justMoved' := CrossAction(p, g, die, enemyPresent, moved, justMoved);
      case Attack(ms, vanish) =>
        enemyPresent', status := FightAction(p, g, ms, vanish, enemyPresent, moved, justMoved);
      case _ =>
        status := StayAction(p, g, a, enemyPresent, moved, justMoved);
    }
  }

  /** The choices that leave the player where it is: collect (7), use an item
      (8), pass (9), the two displays (5, 6) and an unknown choice. */
  method StayAction(p: Player, g: ZoneGraph, a: Action, enemyPresent: bool, moved: bool, justMoved: bool)
    returns (status: Status)
    requires p.Valid() && p.OnMap(g)
    requires a.Collect? || a.Use? || a.Pass? || a.ShowPlayer? || a.ShowZone? || a.Unknown?
    modifies p`atk, p`def, p`luck, p.pack, g`over
    ensures p.Valid() && p.OnMap(g)
    ensures g.overOrder == old(g.overOrder) && g.underOrder == old(g.underOrder)
    ensures Turn(p.View(g), g.Over(), g.Under(), enemyPresent, moved, justMoved, status) ==
            Step(Turn(old(p.View(g)), old(g.Over()), old(g.Under()), enemyPresent, moved, justMoved, Playing), a)
  {
    status := Playing;
    match a {
      case Collect => p.PickUp(g);
      case Use(c) =>
        ghost var before := p.Local();
        p.UseItem(c);
        UseItemIgnoresPlace(before, IndexOf(g.overOrder, p.posOver), IndexOf(g.underOrder, p.posUnder), c);
      case Pass =>
        if !(enemyPresent && !justMoved) {
          status := Passed;
        }
      case ShowPlayer =>
      case ShowZone =>
      case Unknown =>
    }
  }

  /** Choices 1 and 2: advance or retreat, unless an enemy blocks or the
      turn's move is spent; moving into an enemy ends the turn. */
  method MoveAction(p: Player, g: ZoneGraph, forward: bool, enemyPresent: bool, moved: bool, justMoved: bool)
    returns (moved': bool, justMoved': bool)
    requires p.Valid() && p.OnMap(g)
    modifies p`posOver, p`posUnder
    ensures p.Valid() && p.OnMap(g)
    ensures Turn(p.View(g), g.Over(), g.Under(), enemyPresent, moved', justMoved', Playing) ==
            Step(Turn(old(p.View(g)), g.Over(), g.Under(), enemyPresent, moved, justMoved, Playing), if forward then Forward else Back)
  {
    moved', justMoved' := moved, justMoved;
    if !enemyPresent && !moved {
      if forward {
        p.Advance(g);
      } else {
        p.Retreat(g);
      }
      moved' := true;
      var e := p.HasEnemy(g);
      if e {
        justMoved' := true;
      }
    }
  }

  /** Choice 3: cross to the other world, refused in the Mondo Reale while an
      enemy is present and once the turn's move is spent; a failed escape from
      the Soprasotto does not spend it. */
  method CrossAction(p: Player, g: ZoneGraph, die: int, enemyPresent: bool, moved: bool, justMoved: bool)
    returns (enemyPresent': bool, moved': bool, justMoved': bool)
    requires p.Valid() && p.OnMap(g) && IsD20(die)
    modifies p`world, p`posOver, p`posUnder
    ensures p.Valid() && p.OnMap(g)
    ensures Turn(p.View(g), g.Over(), g.Under(), enemyPresent', moved', justMoved', Playing) ==
            Step(Turn(old(p.View(g)), g.Over(), g.Under(), enemyPresent, moved, justMoved, Playing), CrossOver(die))
  {
    ghost var t := Turn(p.View(g), g.Over(), g.Under(), enemyPresent, moved, justMoved, Playing);
    enemyPresent', moved', justMoved' := enemyPresent, moved, justMoved;
    if !(enemyPresent && p.world == MondoReale) && !moved {
      var crossed := p.CrossWorld(g, die);
      ghost var c := Cross(t.v, die);
      assert p.View(g) == c.v && crossed == c.crossed;
      if crossed {
        moved' := true;
        enemyPresent' := p.HasEnemy(g);
        if enemyPresent' {
          justMoved' := true;
        }
      }
    }
  }

  /** Choice 4: fight, refused right after moving into an enemy; losing kills
      the player, beating the Demotorzone ends the session, another victory
      clears the enemy flag of the turn. */
  method FightAction(p: Player, g: ZoneGraph, ms: seq<Move>, vanish: bool, enemyPresent: bool, moved: bool, justMoved: bool)
    returns (enemyPresent': bool, status: Status)
    requires p.Valid() && p.OnMap(g) && ValidMoves(ms)
    modifies p, p.pack, g`over, g`under
    ensures p.Valid() && p.OnMap(g)
    ensures g.overOrder == old(g.overOrder) && g.underOrder == old(g.underOrder)
    ensures Turn(p.View(g), g.Over(), g.Under(), enemyPresent', moved, justMoved, status) ==
            Step(Turn(old(p.View(g)), old(g.Over()), old(g.Under()), enemyPresent, moved, justMoved, Playing), Attack(ms, vanish))
  {
    ghost var t := Turn(p.View(g), g.Over(), g.Under(), enemyPresent, moved, justMoved, Playing);
    enemyPresent', status := enemyPresent, Playing;
    if !justMoved {
      var outcome := p.Fight(g, ms, vanish);
      ghost var r := Fight(t.v, t.os, t.us, ms, vanish);
      assert outcome == r.outcome && p.View(g) == r.v;
      assert g.Over() == ClearOver(t.v, t.os, r.vanished) && g.Under() == ClearUnder(t.v, t.us, r.vanished);
      match outcome {
        case Defeat => status := Died;
        case BossVictory => status := BossBeaten;
        case Victory => enemyPresent' := false;
        case Unfinished => status := FightInterrupted;
        case _ =>
      }
    }
  }

  /** gioca's action loop for the current player. */
  method PlayTurn(p: Player, g: ZoneGraph, acts: seq<Action>) returns (status: Status, ended: bool)
    requires p.Valid() && p.OnMap(g) && ValidActions(acts)
    modifies p, p.pack, g`over, g`under
    ensures p.Valid() && p.OnMap(g)
    ensures g.overOrder == old(g.overOrder) && g.underOrder == old(g.underOrder)
    ensures var r := RunTurn(StartTurn(old(p.View(g)), old(g.Over()), old(g.Under())), acts);
            && status == r.status && ended == Ended(r)
            && p.View(g) == r.v && g.Over() == r.os && g.Under() == r.us
  {
    ended := false;
    var enemyPresent := p.HasEnemy(g);
    var moved, justMoved := false, false;
    status := Playing;
    ghost var goal := RunTurn(StartTurn(p.View(g), g.Over(), g.Under()), acts);
    var i := 0;
    while i < |acts|
      invariant 0 <= i <= |acts|
      invariant p.Valid() && p.OnMap(g)
      invariant g.overOrder == old(g.overOrder) && g.underOrder == old(g.underOrder)
      invariant status == Playing && !justMoved
      invariant RunTurn(Turn(p.View(g), g.Over(), g.Under(), enemyPresent, moved, justMoved, status), acts[i..]) == goal
      decreases |acts| - i
    {
      ValidTail(acts[i..]);
      assert acts[i..][0] == acts[i] && acts[i..][1..] == acts[i + 1..];
      enemyPresent, moved, justMoved, status := TakeAction(p, g, acts[i], enemyPresent, moved, justMoved);
      i := i + 1;
      if status != Playing || justMoved {
        ended := true;
        return;
      }
    }
  }
}
