/**
 * Constants, enumerations and zone records of the game (gamelib.h).
 *
 * The two kinds of map zone are value records; the linked-list links that
 * the C structs carry next to them live in ZoneMap's node arenas.
 */
module GameTypes {

  // Player parameters
  const PV_INIZIALI := 80
  const ZONE_MINIME := 15
  const ZAINO_MAX := 3

  // Enemy odds in the Mondo Reale (per cent)
  const PROB_NESSUN_NEMICO_MR := 40
  const PROB_DEMOCANE_MR := 30
  // Enemy odds in the Soprasotto (per cent)
  const PROB_NESSUN_NEMICO_SS := 50
  // Item odds (per cent)
  const PROB_NESSUN_OGGETTO := 50
  const PROB_BICICLETTA := 15
  const PROB_MAGLIETTA := 15
  const PROB_BUSSOLA := 10

  // Enemy statistics
  const HP_BILLI := 20
  const ATTACCO_BILLI := 5
  const DIFESA_BILLI := 3
  const HP_DEMOCANE := 35
  const ATTACCO_DEMOCANE := 8
  const DIFESA_DEMOCANE := 5
  const HP_DEMOTORZONE := 60
  const ATTACCO_DEMOTORZONE := 12
  const DIFESA_DEMOTORZONE := 7

  // Item bonuses
  const BONUS_BICICLETTA_FORTUNA := 3
  const BONUS_MAGLIETTA_ATTACCO := 5
  const BONUS_BUSSOLA_FORTUNA := 2
  const BONUS_SCHITARRATA_ATTACCO := 3
  const BONUS_SCHITARRATA_DIFESA := 3

  // Set-up stat changes
  const MODIFICA_ATTACCO_DIFESA := 3
  const BONUS_UNDICI_ATTACCO := 4
  const BONUS_UNDICI_DIFESA := 4
  const MALUS_UNDICI_FORTUNA := 7

  // Combat
  const COSTO_ATTACCO_POTENZIATO := 3
  const BONUS_DIFESA_TEMPORANEO := 5

  /** Tipo_zona: the ten zone archetypes, in declaration order 0..9. */
  datatype ZoneKind =
    | Bosco | Scuola | Laboratorio | Caverna | Strada | Giardino
    | Supermercato | CentraleElettrica | DepositoAbbandonato | StazionePolizia

  /** Tipo_nemico, codes 0..3. */
  datatype Enemy = NessunNemico | Billi | Democane | Demotorzone

  /** Tipo_oggetto, codes 0..4. */
  datatype Item = NessunOggetto | Bicicletta | MagliettaFuocoinferno | Bussola | SchitarrataMetallica

  /** Tipo_mondo. */
  datatype World = MondoReale | Soprasotto

  /** The payload of a Zona_mondoreale. */
  datatype OverZone = OverZone(kind: ZoneKind, enemy: Enemy, item: Item)

  /** The payload of a Zona_soprasotto. */
  datatype UnderZone = UnderZone(kind: ZoneKind, enemy: Enemy)

  /** The cast (Tipo_zona)code for a code in 0..9. */
  function KindOf(code: int): (k: ZoneKind)
    requires 0 <= code < 10
    ensures KindCode(k) == code
  {
    match code
    case 0 => Bosco
    case 1 => Scuola
    case 2 => Laboratorio
    case 3 => Caverna
    case 4 => Strada
    case 5 => Giardino
    case 6 => Supermercato
    case 7 => CentraleElettrica
    case 8 => DepositoAbbandonato
    case _ => StazionePolizia
  }

  /** The enum value of a zone kind, (int)k. */
  function KindCode(k: ZoneKind): int
  {
    match k
    case Bosco => 0
    case Scuola => 1
    case Laboratorio => 2
    case Caverna => 3
    case Strada => 4
    case Giardino => 5
    case Supermercato => 6
    case CentraleElettrica => 7
    case DepositoAbbandonato => 8
    case StazionePolizia => 9
  }

  /** The cast (Tipo_nemico)code for a code in 0..3. */
  function EnemyOf(code: int): (e: Enemy)
    requires 0 <= code < 4
    ensures EnemyCode(e) == code
  {
    match code
    case 0 => NessunNemico
    case 1 => Billi
    case 2 => Democane
    case _ => Demotorzone
  }

  function EnemyCode(e: Enemy): int
  {
    match e
    case NessunNemico => 0
    case Billi => 1
    case Democane => 2
    case Demotorzone => 3
  }

  /** The cast (Tipo_oggetto)code for a code in 0..4. */
  function ItemOf(code: int): (i: Item)
    requires 0 <= code < 5
    ensures ItemCode(i) == code
  {
    match code
    case 0 => NessunOggetto
    case 1 => Bicicletta
    case 2 => MagliettaFuocoinferno
    case 3 => Bussola
    case _ => SchitarrataMetallica
  }

  function ItemCode(i: Item): int
  {
    match i
    case NessunOggetto => 0
    case Bicicletta => 1
    case MagliettaFuocoinferno => 2
    case Bussola => 3
    case SchitarrataMetallica => 4
  }

  /** A d20 roll as lancia_dado returns it. */
  predicate IsD20(d: int)
  {
    1 <= d <= 20
  }

  /** A percentage draw, rand() % 100. */
  predicate IsPercent(p: int)
  {
    0 <= p < 100
  }
}
