/**
 * Combat (inizializza_statistiche_nemico, combatti_nemico) as a step function
 * over the player's view and the enemy's HP, with every d20 roll and the
 * final coin flip given as inputs.
 *
 * Behaviour follows the code rather than its comments: Defend ("Difesa")
 * falls through into item use and `continue`, so it never ends the round and
 * the enemy never counter-attacks it; its +BONUS_DIFESA_TEMPORANEO defence is
 * never taken back; the enemy's HP starts from its tier at every fight.
 */
module Combat {
  import opened GameTypes
  import opened Rules

  datatype FoeStats = FoeStats(hp: int, atk: int, def: int)

  /** inizializza_statistiche_nemico: the tier table, zero for no enemy. */
  function FoeStatsOf(e: Enemy): (s: FoeStats)
    ensures s.hp > 0 <==> e != NessunNemico
    ensures e == Billi ==> s == FoeStats(HP_BILLI, ATTACCO_BILLI, DIFESA_BILLI)
    ensures e == Democane ==> s == FoeStats(HP_DEMOCANE, ATTACCO_DEMOCANE, DIFESA_DEMOCANE)
    ensures e == Demotorzone ==> s == FoeStats(HP_DEMOTORZONE, ATTACCO_DEMOTORZONE, DIFESA_DEMOTORZONE)
  {
    match e
    case Billi => FoeStats(HP_BILLI, ATTACCO_BILLI, DIFESA_BILLI)
    case Democane => FoeStats(HP_DEMOCANE, ATTACCO_DEMOCANE, DIFESA_DEMOCANE)
    case Demotorzone => FoeStats(HP_DEMOTORZONE, ATTACCO_DEMOTORZONE, DIFESA_DEMOTORZONE)
    case NessunNemico => FoeStats(0, 0, 0)
  }

  /** The damage of an exchange: attack total minus defence total, never negative. */
  function Damage(attack: int, defence: int): (d: nat)
    ensures d >= attack - defence && (d > 0 ==> d == attack - defence)
  {
    if attack > defence then attack - defence else 0
  }

  /** (int)(atk * MOLTIPLICATORE_POTENZIATO): 1.5 times the attack, truncated
      toward zero as C's cast does. */
  function PowerAttack(atk: int): (p: int)
    ensures atk >= 0 ==> 2 * p <= 3 * atk < 2 * p + 2
    ensures atk < 0 ==> 2 * p - 2 < 3 * atk <= 2 * p
  {
    if atk >= 0 then (3 * atk) / 2 else -((3 * -atk) / 2)
  }

  /** One choice of the combat menu, with the rolls it consumes: the player's
      and the enemy's d20 for the attack, then the enemy's and the player's d20
      for the counter-attack; Defend and UseItem carry utilizza_oggetto's choice. */
  datatype Move =
    | BasicAttack(hitDie: int, parryDie: int, counterDie: int, guardDie: int)
    | PowerStrike(hitDie: int, parryDie: int, counterDie: int, guardDie: int)
    | Defend(choice: int)
    | UseItemMove(choice: int)
    | InvalidMove

  predicate ValidMove(m: Move)
  {
    (m.BasicAttack? || m.PowerStrike?) ==>
      IsD20(m.hitDie) && IsD20(m.parryDie) && IsD20(m.counterDie) && IsD20(m.guardDie)
  }

  predicate ValidMoves(ms: seq<Move>)
  {
    forall k :: 0 <= k < |ms| ==> ValidMove(ms[k])
  }

  /** How one pass of combatti_nemico's loop ends. */
  datatype Step = Continue(v: PlayerView, foeHp: int) | Won(v: PlayerView) | Lost(v: PlayerView)

  /** An attack of the given strength, then, if the enemy survives, its counter-attack. */
  function Exchange(v: PlayerView, foe: FoeStats, foeHp: int, strength: int, m: Move): (s: Step)
    requires m.BasicAttack? || m.PowerStrike?
    ensures s.v == v.(hp := s.v.hp) && s.v.hp <= v.hp
    ensures s.Won? ==> s.v == v
    ensures s.Lost? ==> s.v.hp <= 0
    ensures s.Continue? ==> s.v.hp > 0 && 0 < s.foeHp <= foeHp
  {
    var left := foeHp - Damage(strength + m.hitDie, foe.def + m.parryDie);
    if left <= 0 then Won(v)
    else
      var hurt := v.(hp := v.hp - Damage(foe.atk + m.counterDie, v.def + m.guardDie));
      if hurt.hp <= 0 then Lost(hurt) else Continue(hurt, left)
  }

  /** One pass of the combat loop for the menu choice m. */
  function CombatStep(v: PlayerView, foe: FoeStats, foeHp: int, m: Move): (s: Step)
    ensures (s.Won? || s.Lost?) ==> m.BasicAttack? || m.PowerStrike?
    ensures s.Continue? && !(m.BasicAttack? || m.PowerStrike?) ==> s.foeHp == foeHp
  {
    match m
    case BasicAttack(_, _, _, _) => Exchange(v, foe, foeHp, v.atk, m)
    case PowerStrike(_, _, _, _) =>
      if v.hp <= COSTO_ATTACCO_POTENZIATO then Continue(v, foeHp)
      else Exchange(v.(hp := v.hp - COSTO_ATTACCO_POTENZIATO), foe, foeHp, PowerAttack(v.atk), m)
    case Defend(c) => Continue(UseItem(v.(def := v.def + BONUS_DIFESA_TEMPORANEO), c), foeHp)
    case UseItemMove(c) => Continue(UseItem(v, c), foeHp)
    case InvalidMove => Continue(v, foeHp)
  }

  /** The result codes of combatti_nemico (0, 1, 2, -1), split by cause; Unfinished
      is a fight whose list of moves ran out with both sides alive. */
  datatype Outcome = NoEnemy | Victory | BossVictory | Defeat | NotFought | Unfinished

  function OutcomeCode(o: Outcome): int
  {
    match o
    case NoEnemy => 0
    case Victory => 1
    case BossVictory => 2
    case Defeat => -1
    case NotFought => 0
    case Unfinished => 0
  }

  /** The player after the fight, its outcome, and whether the enemy vanished
      from the zone (the coin flip, only on a win). */
  datatype FightEnd = FightEnd(v: PlayerView, outcome: Outcome, vanished: bool)

  /** combatti_nemico's loop, from the given HP onwards, over the given moves. */
  function Rounds(v: PlayerView, e: Enemy, foeHp: int, moves: seq<Move>, vanish: bool): (r: FightEnd)
    ensures r.outcome != NoEnemy
    ensures r.vanished ==> vanish && r.outcome in {Victory, BossVictory}
    decreases |moves|
  {
    if !(foeHp > 0 && v.hp > 0) then FightEnd(v, NotFought, false)
    else if |moves| == 0 then FightEnd(v, Unfinished, false)
    else match CombatStep(v, FoeStatsOf(e), foeHp, moves[0])
      case Continue(v', h') => Rounds(v', e, h', moves[1..], vanish)
      case Won(v') => FightEnd(v', if e == Demotorzone then BossVictory else Victory, vanish)
      case Lost(v') => FightEnd(v', Defeat, false)
  }

  /** combatti_nemico: no fight without an enemy on the player's zone;
      otherwise the loop starts from the tier's full HP. */
  function Fight(v: PlayerView, os: seq<OverZone>, us: seq<UnderZone>, moves: seq<Move>, vanish: bool): (r: FightEnd)
    ensures r.outcome == NoEnemy <==> !HasEnemy(v, os, us)
    ensures r.vanished ==> vanish && HasEnemy(v, os, us)
  {
    if !HasEnemy(v, os, us) then FightEnd(v, NoEnemy, false)
    else var e := EnemyHere(v, os, us); Rounds(v, e, FoeStatsOf(e).hp, moves, vanish)
  }

  /** The zone lists after a fight: the enemy leaves the player's zone when it vanished. */
  function ClearOver(v: PlayerView, os: seq<OverZone>, vanished: bool): (r: seq<OverZone>)
    ensures |r| == |os| && (!vanished ==> r == os)
    ensures forall k :: 0 <= k < |os| ==>
              && r[k].kind == os[k].kind && r[k].item == os[k].item
              && (r[k].enemy == os[k].enemy || (r[k].enemy == NessunNemico && k == v.slotOver))
  {
    if vanished && v.world == MondoReale && OnOver(v, os) then os[v.slotOver := os[v.slotOver].(enemy := NessunNemico)]
    else os
  }

  function ClearUnder(v: PlayerView, us: seq<UnderZone>, vanished: bool): (r: seq<UnderZone>)
    ensures |r| == |us| && (!vanished ==> r == us)
    ensures forall k :: 0 <= k < |us| ==>
              r[k].kind == us[k].kind && (r[k].enemy == us[k].enemy || (r[k].enemy == NessunNemico && k == v.slotUnder))
  {
    if vanished && v.world == Soprasotto && OnUnder(v, us) then us[v.slotUnder := us[v.slotUnder].(enemy := NessunNemico)]
    else us
  }

  // ---------------------------------------------------------------------------
  // Properties of one pass

  /** A basic attack deals max(0, (atk + d1) - (def + d2)) to the enemy; if the
      enemy survives, its counter-attack deals max(0, (atk + d3) - (def + d4))
      to the player, and the player loses exactly when that empties its HP. */
  lemma BasicAttackDamage(v: PlayerView, foe: FoeStats, foeHp: int, m: Move)
    requires m.BasicAttack? && ValidMove(m)
    ensures var dealt := if v.atk + m.hitDie > foe.def + m.parryDie then v.atk + m.hitDie - (foe.def + m.parryDie) else 0;
            var taken := if foe.atk + m.counterDie > v.def + m.guardDie then foe.atk + m.counterDie - (v.def + m.guardDie) else 0;
            match CombatStep(v, foe, foeHp, m)
            case Won(v') => foeHp - dealt <= 0 && v' == v
            case Continue(v', h') => h' == foeHp - dealt > 0 && v' == v.(hp := v.hp - taken) && v'.hp > 0
            case Lost(v') => foeHp - dealt > 0 && v' == v.(hp := v.hp - taken) && v'.hp <= 0
  {
  }

  /** A power attack needs more than COSTO_ATTACCO_POTENZIATO HP; otherwise it
      is refused and nothing changes. When allowed it costs exactly that much
      HP and strikes with PowerAttack(atk). */
  lemma PowerStrikeCost(v: PlayerView, foe: FoeStats, foeHp: int, m: Move)
    requires m.PowerStrike? && ValidMove(m)
    ensures v.hp <= COSTO_ATTACCO_POTENZIATO ==> CombatStep(v, foe, foeHp, m) == Continue(v, foeHp)
    ensures v.hp > COSTO_ATTACCO_POTENZIATO ==>
              var paid := v.(hp := v.hp - COSTO_ATTACCO_POTENZIATO);
              var dealt := Damage(PowerAttack(v.atk) + m.hitDie, foe.def + m.parryDie);
              var taken := Damage(foe.atk + m.counterDie, v.def + m.guardDie);
              match CombatStep(v, foe, foeHp, m)
              case Won(v') => foeHp - dealt <= 0 && v' == paid
              case Continue(v', h') => h' == foeHp - dealt && v' == paid.(hp := paid.hp - taken)
              case Lost(v') => v' == paid.(hp := paid.hp - taken) && v'.hp <= 0
  {
  }

  /** Defend never ends the pass: the enemy does not counter-attack, its HP is
      unchanged, and the player keeps the full defence bonus on top of whatever
      the item use that follows gives. */
  lemma DefendIsFree(v: PlayerView, foe: FoeStats, foeHp: int, c: int)
    ensures var s := CombatStep(v, foe, foeHp, Defend(c));
            && s.Continue? && s.foeHp == foeHp && s.v.hp == v.hp
            && s.v == UseItem(v.(def := v.def + BONUS_DIFESA_TEMPORANEO), c)
            && s.v.def >= v.def + BONUS_DIFESA_TEMPORANEO
  {
    UseItemNeverLowers(v.(def := v.def + BONUS_DIFESA_TEMPORANEO), c);
  }

  /** One pass never lowers a statistic, never raises either side's HP, and
      leaves the player's place alone. */
  lemma StepMonotone(v: PlayerView, foe: FoeStats, foeHp: int, m: Move)
    requires ValidMove(m)
    ensures var s := CombatStep(v, foe, foeHp, m);
            && s.v.atk >= v.atk && s.v.def >= v.def && s.v.luck >= v.luck
            && s.v.hp <= v.hp && Where(s.v) == Where(v)
            && (s.Continue? ==> s.foeHp <= foeHp)
  {
    match m
    case Defend(c) => UseItemNeverLowers(v.(def := v.def + BONUS_DIFESA_TEMPORANEO), c);
    case UseItemMove(c) => UseItemNeverLowers(v, c);
    case _ =>
  }

  /** A pass of combat does not look at, or change, the player's place. */
  lemma StepIgnoresPlace(v: PlayerView, slotOver: int, slotUnder: int, foe: FoeStats, foeHp: int, m: Move)
    ensures var s := CombatStep(v, foe, foeHp, m);
            var t := CombatStep(v.(slotOver := slotOver, slotUnder := slotUnder), foe, foeHp, m);
            && t.v == s.v.(slotOver := slotOver, slotUnder := slotUnder)
            && t.Continue? == s.Continue? && t.Won? == s.Won? && t.Lost? == s.Lost?
            && (t.Continue? ==> t.foeHp == s.foeHp)
  {
    match m
    case Defend(c) => UseItemIgnoresPlace(v.(def := v.def + BONUS_DIFESA_TEMPORANEO), slotOver, slotUnder, c);
    case UseItemMove(c) => UseItemIgnoresPlace(v, slotOver, slotUnder, c);
    case _ =>
  }

  // ---------------------------------------------------------------------------
  // Properties of a whole fight

  /** How a fight can end: defeat exactly when the player's HP reached zero; a
      win leaves the player alive and is the boss victory exactly against the
      Demotorzone; the enemy can vanish only on a win; the defence bonus of
      Defend is never taken back, so no statistic ever drops; HP never rises. */
  lemma {:induction false} RoundsOutcome(v: PlayerView, e: Enemy, foeHp: int, moves: seq<Move>, vanish: bool)
    requires ValidMoves(moves)
    ensures var r := Rounds(v, e, foeHp, moves, vanish);
            && (r.outcome == Defeat ==> r.v.hp <= 0)
            && (r.outcome in {Victory, BossVictory} ==> r.v.hp > 0)
            && (r.outcome == BossVictory <==> (r.outcome in {Victory, BossVictory} && e == Demotorzone))
            && (r.vanished <==> vanish && r.outcome in {Victory, BossVictory})
            && r.outcome != NoEnemy
            && (r.outcome == NotFought <==> !(foeHp > 0 && v.hp > 0))
            && (r.outcome == NotFought ==> r.v == v)
            && (r.outcome == Unfinished ==> r.v.hp > 0)
            && r.v.atk >= v.atk && r.v.def >= v.def && r.v.luck >= v.luck && r.v.hp <= v.hp
            && Where(r.v) == Where(v)
    decreases |moves|
  {
    if foeHp > 0 && v.hp > 0 && |moves| > 0 {
      StepMonotone(v, FoeStatsOf(e), foeHp, moves[0]);
      match CombatStep(v, FoeStatsOf(e), foeHp, moves[0])
      case Continue(v', h') =>
        assert ValidMoves(moves[1..]) by {
          forall k | 0 <= k < |moves[1..]| ensures ValidMove(moves[1..][k]) { assert moves[1..][k] == moves[k + 1]; }
        }
        RoundsOutcome(v', e, h', moves[1..], vanish);
      case Won(v') =>
      case Lost(v') =>
    }
  }

  /** The coin flip decides only whether the beaten enemy vanishes: the
      course of the fight and the player after it do not depend on it. */
  lemma {:induction false} CoinOnlyClears(v: PlayerView, e: Enemy, foeHp: int, moves: seq<Move>, vanish: bool)
    ensures var r := Rounds(v, e, foeHp, moves, vanish);
            var q := Rounds(v, e, foeHp, moves, false);
            r.v == q.v && r.outcome == q.outcome
    decreases |moves|
  {
    if foeHp > 0 && v.hp > 0 && |moves| > 0 {
      match CombatStep(v, FoeStatsOf(e), foeHp, moves[0])
      case Continue(v', h') => CoinOnlyClears(v', e, h', moves[1..], vanish);
      case Won(v') =>
      case Lost(v') =>
    }
  }

  /** What the coin flip decides, in one statement: the enemy vanishes exactly
      when it was beaten and the coin says so, and nothing else depends on it. */
  lemma CoinDecidesVanish(v: PlayerView, e: Enemy, foeHp: int, moves: seq<Move>, vanish: bool)
    requires ValidMoves(moves)
    ensures var r := Rounds(v, e, foeHp, moves, vanish);
            var q := Rounds(v, e, foeHp, moves, false);
            && r.v == q.v && r.outcome == q.outcome
            && (r.vanished <==> vanish && r.outcome in {Victory, BossVictory})
  {
    RoundsOutcome(v, e, foeHp, moves, vanish);
    CoinOnlyClears(v, e, foeHp, moves, vanish);
  }

  /** combatti_nemico returns 0 when there is no enemy, 2 exactly for a win
      over the Demotorzone, 1 for a win over another enemy, -1 on defeat. */
  lemma FightCodes(v: PlayerView, os: seq<OverZone>, us: seq<UnderZone>, moves: seq<Move>, vanish: bool)
    requires ValidMoves(moves) && v.hp > 0
    ensures var r := Fight(v, os, us, moves, vanish);
            && (r.outcome == NoEnemy <==> !HasEnemy(v, os, us))
            && (!HasEnemy(v, os, us) ==> r == FightEnd(v, NoEnemy, false))
            && (OutcomeCode(r.outcome) == 2 <==> r.outcome == BossVictory)
            && (r.outcome == BossVictory ==> EnemyHere(v, os, us) == Demotorzone)
            && (r.outcome == Victory ==> EnemyHere(v, os, us) in {Billi, Democane})
            && (OutcomeCode(r.outcome) == -1 <==> r.outcome == Defeat)
            && (r.outcome == Defeat ==> r.v.hp <= 0)
            && r.outcome != NotFought
  {
    if HasEnemy(v, os, us) {
      var e := EnemyHere(v, os, us);
      RoundsOutcome(v, e, FoeStatsOf(e).hp, moves, vanish);
    }
  }
}
