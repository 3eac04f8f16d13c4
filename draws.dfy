/**
 * The random-generation threshold mappings of gamelib.c (genera_nemico_mondoreale,
 * genera_nemico_soprasotto, genera_oggetto). Each takes the percentage draw
 * rand() % 100 as a parameter; the lemmas count, over the hundred possible
 * draws, how many produce each outcome, which is the probability the
 * source's constants stand for.
 */
module Draws {
  import opened GameTypes

  /** genera_nemico_mondoreale: below 40 none, below 70 Democane, otherwise Billi. */
  function OverEnemyFromDraw(prob: int): (e: Enemy)
    requires IsPercent(prob)
    ensures e != Demotorzone
  {
    if prob < PROB_NESSUN_NEMICO_MR then NessunNemico
    else if prob < PROB_NESSUN_NEMICO_MR + PROB_DEMOCANE_MR then Democane
    else Billi
  }

  /** genera_nemico_soprasotto: the boss when forced (no draw is consumed then),
      otherwise below 50 none and Democane from 50 on. */
  function UnderEnemyFromDraw(forceBoss: bool, prob: int): (e: Enemy)
    requires IsPercent(prob)
    ensures e == Demotorzone <==> forceBoss
    ensures e != Billi
  {
    if forceBoss then Demotorzone
    else if prob < PROB_NESSUN_NEMICO_SS then NessunNemico
    else Democane
  }

  /** genera_oggetto: 50 / 15 / 15 / 10 / 10 over the five item codes. */
  function ItemFromDraw(prob: int): (i: Item)
    requires IsPercent(prob)
    ensures i == NessunOggetto <==> prob < PROB_NESSUN_OGGETTO
    ensures i == SchitarrataMetallica <==> prob >= 90
  {
    if prob < PROB_NESSUN_OGGETTO then NessunOggetto
    else if prob < PROB_NESSUN_OGGETTO + PROB_BICICLETTA then Bicicletta
    else if prob < PROB_NESSUN_OGGETTO + PROB_BICICLETTA + PROB_MAGLIETTA then MagliettaFuocoinferno
    else if prob < PROB_NESSUN_OGGETTO + PROB_BICICLETTA + PROB_MAGLIETTA + PROB_BUSSOLA then Bussola
    else SchitarrataMetallica
  }

  /** The number of draws in [lo, hi) that produce the Mondo Reale enemy e. */
  function OverEnemyOdds(e: Enemy, lo: int, hi: int): (n: nat)
    requires 0 <= lo <= hi <= 100
    decreases hi - lo
  {
    if lo == hi then 0
    else (if OverEnemyFromDraw(lo) == e then 1 else 0) + OverEnemyOdds(e, lo + 1, hi)
  }

  /** The number of draws in [lo, hi) that produce the (unforced) Soprasotto enemy e. */
  function UnderEnemyOdds(e: Enemy, lo: int, hi: int): (n: nat)
    requires 0 <= lo <= hi <= 100
    decreases hi - lo
  {
    if lo == hi then 0
    else (if UnderEnemyFromDraw(false, lo) == e then 1 else 0) + UnderEnemyOdds(e, lo + 1, hi)
  }

  /** The number of draws in [lo, hi) that produce the item i. */
  function ItemOdds(i: Item, lo: int, hi: int): (n: nat)
    requires 0 <= lo <= hi <= 100
    decreases hi - lo
  {
    if lo == hi then 0
    else (if ItemFromDraw(lo) == i then 1 else 0) + ItemOdds(i, lo + 1, hi)
  }

  /** Odds over a range on which the mapping is constant. */
  lemma {:induction false} OverEnemyOddsConst(e: Enemy, lo: int, hi: int)
    requires 0 <= lo <= hi <= 100
    requires forall p :: lo <= p < hi ==> OverEnemyFromDraw(p) == e
    ensures OverEnemyOdds(e, lo, hi) == hi - lo
    decreases hi - lo
  {
    if lo < hi { OverEnemyOddsConst(e, lo + 1, hi); }
  }

  lemma {:induction false} OverEnemyOddsNone(e: Enemy, lo: int, hi: int)
    requires 0 <= lo <= hi <= 100
    requires forall p :: lo <= p < hi ==> OverEnemyFromDraw(p) != e
    ensures OverEnemyOdds(e, lo, hi) == 0
    decreases hi - lo
  {
    if lo < hi { OverEnemyOddsNone(e, lo + 1, hi); }
  }

  lemma {:induction false} OverEnemyOddsSplit(e: Enemy, lo: int, mid: int, hi: int)
    requires 0 <= lo <= mid <= hi <= 100
    ensures OverEnemyOdds(e, lo, hi) == OverEnemyOdds(e, lo, mid) + OverEnemyOdds(e, mid, hi)
    decreases mid - lo
  {
    if lo < mid { OverEnemyOddsSplit(e, lo + 1, mid, hi); }
  }

  /** The odds of one Mondo Reale enemy: constant on its own band, zero elsewhere. */
  lemma OverEnemyBand(e: Enemy, lo: int, hi: int)
    requires 0 <= lo <= hi <= 100
    requires forall p :: 0 <= p < 100 ==> (OverEnemyFromDraw(p) == e <==> lo <= p < hi)
    ensures OverEnemyOdds(e, 0, 100) == hi - lo
  {
    OverEnemyOddsSplit(e, 0, lo, 100);
    OverEnemyOddsSplit(e, lo, hi, 100);
    OverEnemyOddsNone(e, 0, lo);
    OverEnemyOddsConst(e, lo, hi);
    OverEnemyOddsNone(e, hi, 100);
  }

  /** Of the hundred draws, 40 give no enemy, 30 a Democane and 30 a Billi,
      and none the Demotorzone. */
  lemma OverEnemyDistribution()
    ensures OverEnemyOdds(NessunNemico, 0, 100) == 40
    ensures OverEnemyOdds(Democane, 0, 100) == 30
    ensures OverEnemyOdds(Billi, 0, 100) == 30
    ensures OverEnemyOdds(Demotorzone, 0, 100) == 0
  {
    OverEnemyBand(NessunNemico, 0, 40);
    OverEnemyBand(Democane, 40, 70);
    OverEnemyBand(Billi, 70, 100);
    OverEnemyOddsNone(Demotorzone, 0, 100);
  }

  lemma {:induction false} UnderEnemyOddsConst(e: Enemy, lo: int, hi: int)
    requires 0 <= lo <= hi <= 100
    requires forall p :: lo <= p < hi ==> UnderEnemyFromDraw(false, p) == e
    ensures UnderEnemyOdds(e, lo, hi) == hi - lo
    decreases hi - lo
  {
    if lo < hi { UnderEnemyOddsConst(e, lo + 1, hi); }
  }

  lemma {:induction false} UnderEnemyOddsNone(e: Enemy, lo: int, hi: int)
    requires 0 <= lo <= hi <= 100
    requires forall p :: lo <= p < hi ==> UnderEnemyFromDraw(false, p) != e
    ensures UnderEnemyOdds(e, lo, hi) == 0
    decreases hi - lo
  {
    if lo < hi { UnderEnemyOddsNone(e, lo + 1, hi); }
  }

  lemma {:induction false} UnderEnemyOddsSplit(e: Enemy, lo: int, mid: int, hi: int)
    requires 0 <= lo <= mid <= hi <= 100
    ensures UnderEnemyOdds(e, lo, hi) == UnderEnemyOdds(e, lo, mid) + UnderEnemyOdds(e, mid, hi)
    decreases mid - lo
  {
    if lo < mid { UnderEnemyOddsSplit(e, lo + 1, mid, hi); }
  }

  /** An unforced Soprasotto zone is empty on 50 draws and holds a Democane on
      50; no draw gives a Billi or the Demotorzone. */
  lemma UnderEnemyDistribution()
    ensures UnderEnemyOdds(NessunNemico, 0, 100) == 50
    ensures UnderEnemyOdds(Democane, 0, 100) == 50
    ensures UnderEnemyOdds(Billi, 0, 100) == 0
    ensures UnderEnemyOdds(Demotorzone, 0, 100) == 0
  {
    UnderEnemyBand(NessunNemico, 0, 50);
    UnderEnemyBand(Democane, 50, 100);
    UnderEnemyOddsNone(Billi, 0, 100);
    UnderEnemyOddsNone(Demotorzone, 0, 100);
  }

  /** The odds of one unforced Soprasotto enemy: constant on its own band, zero elsewhere. */
  lemma UnderEnemyBand(e: Enemy, lo: int, hi: int)
    requires 0 <= lo <= hi <= 100
    requires forall p :: 0 <= p < 100 ==> (UnderEnemyFromDraw(false, p) == e <==> lo <= p < hi)
    ensures UnderEnemyOdds(e, 0, 100) == hi - lo
  {
    UnderEnemyOddsSplit(e, 0, lo, 100);
    UnderEnemyOddsSplit(e, lo, hi, 100);
    UnderEnemyOddsNone(e, 0, lo);
    UnderEnemyOddsConst(e, lo, hi);
    UnderEnemyOddsNone(e, hi, 100);
  }

  lemma {:induction false} ItemOddsConst(i: Item, lo: int, hi: int)
    requires 0 <= lo <= hi <= 100
    requires forall p :: lo <= p < hi ==> ItemFromDraw(p) == i
    ensures ItemOdds(i, lo, hi) == hi - lo
    decreases hi - lo
  {
    if lo < hi { ItemOddsConst(i, lo + 1, hi); }
  }

  lemma {:induction false} ItemOddsNone(i: Item, lo: int, hi: int)
    requires 0 <= lo <= hi <= 100
    requires forall p :: lo <= p < hi ==> ItemFromDraw(p) != i
    ensures ItemOdds(i, lo, hi) == 0
    decreases hi - lo
  {
    if lo < hi { ItemOddsNone(i, lo + 1, hi); }
  }

  lemma {:induction false} ItemOddsSplit(i: Item, lo: int, mid: int, hi: int)
    requires 0 <= lo <= mid <= hi <= 100
    ensures ItemOdds(i, lo, hi) == ItemOdds(i, lo, mid) + ItemOdds(i, mid, hi)
    decreases mid - lo
  {
    if lo < mid { ItemOddsSplit(i, lo + 1, mid, hi); }
  }

  /** The odds of one item: constant on its own band, zero on the other four. */
  lemma ItemBand(i: Item, lo: int, hi: int)
    requires 0 <= lo <= hi <= 100
    requires forall p :: 0 <= p < 100 ==> (ItemFromDraw(p) == i <==> lo <= p < hi)
    ensures ItemOdds(i, 0, 100) == hi - lo
  {
    ItemOddsSplit(i, 0, lo, 100);
    ItemOddsSplit(i, lo, hi, 100);
    ItemOddsNone(i, 0, lo);
    ItemOddsConst(i, lo, hi);
    ItemOddsNone(i, hi, 100);
  }

  /** Of the hundred draws, 50 give no item, 15 a Bicicletta, 15 a Maglietta
      Fuocoinferno, 10 a Bussola and 10 a Schitarrata Metallica. */
  lemma ItemDistribution()
    ensures ItemOdds(NessunOggetto, 0, 100) == 50
    ensures ItemOdds(Bicicletta, 0, 100) == 15
    ensures ItemOdds(MagliettaFuocoinferno, 0, 100) == 15
    ensures ItemOdds(Bussola, 0, 100) == 10
    ensures ItemOdds(SchitarrataMetallica, 0, 100) == 10
  {
    ItemBand(NessunOggetto, 0, 50);
    ItemBand(Bicicletta, 50, 65);
    ItemBand(MagliettaFuocoinferno, 65, 80);
    ItemBand(Bussola, 80, 90);
    ItemBand(SchitarrataMetallica, 90, 100);
  }
}
