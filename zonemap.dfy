/**
 * The paired map of gamelib.c: the Mondo Reale list and the Soprasotto list,
 * built and edited in lockstep (genera_mappa, inserisci_zona, cancella_zona,
 * conta_zone_mondoreale, conta_demotorzone, chiudi_mappa).
 *
 * The two head pointers and the mappa_chiusa flag are fields of ZoneGraph;
 * the zones live in two node arenas (sequences of Chains.Node) whose next,
 * prev and link fields are arena indices. Over() and Under() are the two
 * lists as sequences of payloads, in list order.
 */
module ZoneMap {
  import opened GameTypes
  import opened Draws
  import opened Chains

  /** Outcome of inserisci_zona and cancella_zona: done, or the error it reports. */
  datatype EditOutcome =
    | Done
    | MapIsClosed
    | NothingToDelete
    | PositionOutOfRange
    | KindOutOfRange
    | EnemyOutOfRange
    | ItemOutOfRange

  /** Outcome of chiudi_mappa. */
  datatype CloseOutcome = Closed | TooFewZones(zones: int) | WrongBossCount(bosses: int)

  /** The four draws genera_mappa makes for one zone: rand() % 10 for the kind,
      then the Mondo Reale enemy, item and Soprasotto enemy percentages. */
  datatype ZoneDraw = ZoneDraw(kind: int, enemy: int, item: int, under: int)

  predicate ValidDraw(d: ZoneDraw)
  {
    0 <= d.kind < 10 && IsPercent(d.enemy) && IsPercent(d.item) && IsPercent(d.under)
  }

  predicate ValidDraws(ds: seq<ZoneDraw>)
  {
    forall k :: 0 <= k < |ds| ==> ValidDraw(ds[k])
  }

  /** The number of Soprasotto zones holding the Demotorzone. */
  function BossCount(zs: seq<UnderZone>): (n: nat)
    ensures n <= |zs|
  {
    if |zs| == 0 then 0
    else (if zs[0].enemy == Demotorzone then 1 else 0) + BossCount(zs[1..])
  }

  /** The count is zero exactly when no zone holds the Demotorzone. */
  lemma {:induction false} BossCountZero(zs: seq<UnderZone>)
    ensures BossCount(zs) == 0 <==> forall k :: 0 <= k < |zs| ==> zs[k].enemy != Demotorzone
  {
    if |zs| > 0 {
      BossCountZero(zs[1..]);
      assert forall k :: 1 <= k < |zs| ==> zs[k] == zs[1..][k - 1];
    }
  }

  lemma {:induction false} BossCountAppend(a: seq<UnderZone>, b: seq<UnderZone>)
    ensures BossCount(a + b) == BossCount(a) + BossCount(b)
  {
    if |a| > 0 {
      assert (a + b)[0] == a[0];
      assert (a + b)[1..] == a[1..] + b;
      BossCountAppend(a[1..], b);
    } else {
      assert a + b == b;
    }
  }

  lemma BossCountSingle(z: UnderZone)
    ensures BossCount([z]) == (if z.enemy == Demotorzone then 1 else 0)
  {
    assert [z][1..] == [];
  }

  /** Splitting a list at i splits its Demotorzone count. */
  lemma BossCountSplit(zs: seq<UnderZone>, i: nat)
    requires i <= |zs|
    ensures BossCount(zs) == BossCount(zs[..i]) + BossCount(zs[i..])
  {
    assert zs[..i] + zs[i..] == zs;
    BossCountAppend(zs[..i], zs[i..]);
  }

  /** The suffix from i counts zone i and then the suffix after it. */
  lemma BossCountAt(zs: seq<UnderZone>, i: nat)
    requires i < |zs|
    ensures BossCount(zs[i..]) == (if zs[i].enemy == Demotorzone then 1 else 0) + BossCount(zs[i + 1..])
  {
    assert zs[i..][1..] == zs[i + 1..];
  }

  /** The count of a list with one zone placed between two others. */
  lemma BossCountAppend3(a: seq<UnderZone>, z: UnderZone, b: seq<UnderZone>)
    ensures BossCount(a + [z] + b) == BossCount(a) + (if z.enemy == Demotorzone then 1 else 0) + BossCount(b)
  {
    BossCountAppend(a + [z], b);
    BossCountAppend(a, [z]);
    BossCountSingle(z);
  }

  /** Adding a zone raises the Demotorzone count by one exactly when the zone holds it. */
  lemma BossCountInsert(zs: seq<UnderZone>, i: nat, z: UnderZone)
    requires i <= |zs|
    ensures BossCount(zs[..i] + [z] + zs[i..]) == BossCount(zs) + (if z.enemy == Demotorzone then 1 else 0)
  {
    BossCountAppend3(zs[..i], z, zs[i..]);
    BossCountSplit(zs, i);
  }

  /** Removing a zone lowers the Demotorzone count by one exactly when the zone held it. */
  lemma BossCountRemove(zs: seq<UnderZone>, i: nat)
    requires i < |zs|
    ensures BossCount(zs[..i] + zs[i + 1..]) == BossCount(zs) - (if zs[i].enemy == Demotorzone then 1 else 0)
  {
    BossCountAppend(zs[..i], zs[i + 1..]);
    BossCountSplit(zs, i);
    BossCountAt(zs, i);
  }

  /** Each Soprasotto zone has the kind of its Mondo Reale partner. */
  ghost predicate SameKinds(os: seq<OverZone>, us: seq<UnderZone>)
  {
    |os| == |us| && forall k :: 0 <= k < |os| ==> os[k].kind == us[k].kind
  }

  lemma SameKindsInsert(os: seq<OverZone>, us: seq<UnderZone>, i: nat, o: OverZone, u: UnderZone)
    requires SameKinds(os, us) && i <= |os| && o.kind == u.kind
    ensures SameKinds(os[..i] + [o] + os[i..], us[..i] + [u] + us[i..])
  {
    InsertIndex(os, i, o);
    InsertIndex(us, i, u);
  }

  lemma SameKindsRemove(os: seq<OverZone>, us: seq<UnderZone>, i: nat)
    requires SameKinds(os, us) && i < |os|
    ensures SameKinds(os[..i] + os[i + 1..], us[..i] + us[i + 1..])
  {
    RemoveIndex(os, i);
    RemoveIndex(us, i);
  }

  /** The checks of inserisci_zona, in the order it makes them. */
  function InsertVerdict(closed: bool, zones: int, pos: int, kind: int, enemy: int, item: int): (r: EditOutcome)
    ensures r == Done <==> !closed && 1 <= pos <= zones + 1 && 0 <= kind <= 9 && 0 <= enemy <= 2 && 0 <= item <= 4
    ensures r != NothingToDelete
  {
    if closed then MapIsClosed
    else if pos < 1 || pos > zones + 1 then PositionOutOfRange
    else if kind < 0 || kind > 9 then KindOutOfRange
    else if enemy < 0 || enemy > 2 then EnemyOutOfRange
    else if item < 0 || item > 4 then ItemOutOfRange
    else Done
  }

  /** The checks of cancella_zona, in the order it makes them. */
  function DeleteVerdict(closed: bool, zones: int, pos: int): (r: EditOutcome)
    ensures r == Done <==> !closed && 1 <= pos <= zones
    ensures r == NothingToDelete <==> !closed && zones == 0
  {
    if closed then MapIsClosed
    else if zones == 0 then NothingToDelete
    else if pos < 1 || pos > zones then PositionOutOfRange
    else Done
  }

  /** The checks of chiudi_mappa. */
  function CloseVerdict(zones: int, bosses: int): (r: CloseOutcome)
    ensures r == Closed <==> zones >= ZONE_MINIME && bosses == 1
  {
    if zones < ZONE_MINIME then TooFewZones(zones)
    else if bosses != 1 then WrongBossCount(bosses)
    else Closed
  }

  /** The Mondo Reale zone genera_mappa builds from one zone's draws. */
  function GenOverZone(d: ZoneDraw): OverZone
    requires ValidDraw(d)
  {
    OverZone(KindOf(d.kind), OverEnemyFromDraw(d.enemy), ItemFromDraw(d.item))
  }

  /** The Soprasotto zone genera_mappa builds at index k. */
  function GenUnderZone(d: ZoneDraw, boss: bool): UnderZone
    requires ValidDraw(d)
  {
    UnderZone(KindOf(d.kind), UnderEnemyFromDraw(boss, d.under))
  }

  /** The Mondo Reale list: one zone per draw, of the drawn kind, never
      holding the Demotorzone. */
  function GenOver(ds: seq<ZoneDraw>): (r: seq<OverZone>)
    requires ValidDraws(ds)
    ensures |r| == |ds|
    ensures forall k :: 0 <= k < |ds| ==> r[k].kind == KindOf(ds[k].kind) && r[k].enemy != Demotorzone
  {
    seq(|ds|, k requires 0 <= k < |ds| => GenOverZone(ds[k]))
  }

  /** The Soprasotto list: one zone per draw, of the same kind as its Mondo
      Reale partner, with the Demotorzone exactly at bossIndex. */
  function GenUnder(bossIndex: int, ds: seq<ZoneDraw>): (r: seq<UnderZone>)
    requires ValidDraws(ds)
    ensures |r| == |ds|
    ensures forall k :: 0 <= k < |ds| ==> r[k].kind == KindOf(ds[k].kind) && (r[k].enemy == Demotorzone <==> k == bossIndex)
  {
    seq(|ds|, k requires 0 <= k < |ds| => GenUnderZone(ds[k], k == bossIndex))
  }

  /** genera_mappa builds the lists front to back: one more draw appends one
      more pair. */
  lemma GenStep(bossIndex: int, ds: seq<ZoneDraw>, i: nat)
    requires i < |ds| && ValidDraws(ds)
    ensures ValidDraws(ds[..i]) && ValidDraws(ds[..i + 1])
    ensures GenOver(ds[..i + 1]) == GenOver(ds[..i]) + [GenOverZone(ds[i])]
    ensures GenUnder(bossIndex, ds[..i + 1]) == GenUnder(bossIndex, ds[..i]) + [GenUnderZone(ds[i], i == bossIndex)]
  {
    assert ds[..i + 1] == ds[..i] + [ds[i]];
  }

  /** What genera_mappa promises of the map it builds: ZONE_MINIME pairs of the
      same kinds, the Demotorzone at the drawn index and nowhere else, and no
      other Soprasotto enemy than the Democane. */
  lemma GeneratedMap(bossIndex: int, ds: seq<ZoneDraw>)
    requires 0 <= bossIndex < ZONE_MINIME
    requires |ds| == ZONE_MINIME && ValidDraws(ds)
    ensures |GenOver(ds)| == ZONE_MINIME && |GenUnder(bossIndex, ds)| == ZONE_MINIME
    ensures SameKinds(GenOver(ds), GenUnder(bossIndex, ds))
    ensures GenUnder(bossIndex, ds)[bossIndex].enemy == Demotorzone
    ensures forall k :: 0 <= k < ZONE_MINIME && k != bossIndex ==>
              GenUnder(bossIndex, ds)[k].enemy in {NessunNemico, Democane}
    ensures forall k :: 0 <= k < ZONE_MINIME ==> GenOver(ds)[k].enemy != Demotorzone
    ensures BossCount(GenUnder(bossIndex, ds)) == 1
  {
    var us := GenUnder(bossIndex, ds);
    var rest := us[..bossIndex] + us[bossIndex + 1..];
    RemoveIndex(us, bossIndex);
    forall k | 0 <= k < |rest| ensures rest[k].enemy != Demotorzone {
      if k < bossIndex { assert rest[k] == us[k]; } else { assert rest[k] == us[k + 1]; }
    }
    BossCountZero(rest);
    BossCountInsert(rest, bossIndex, us[bossIndex]);
    assert rest[..bossIndex] == us[..bossIndex];
    assert rest[bossIndex..] == us[bossIndex + 1..];
    assert us == us[..bossIndex] + [us[bossIndex]] + us[bossIndex + 1..];
  }

  /** Closing the map right after genera_mappa succeeds. */
  lemma CloseAfterGenerate(bossIndex: int, ds: seq<ZoneDraw>)
    requires 0 <= bossIndex < ZONE_MINIME
    requires |ds| == ZONE_MINIME && ValidDraws(ds)
    ensures CloseVerdict(|GenOver(ds)|, BossCount(GenUnder(bossIndex, ds))) == Closed
  {
    GeneratedMap(bossIndex, ds);
  }

  /** The two lists are well formed, of equal length, pairwise cross-linked
      and pairwise of the same kind. */
  ghost predicate Paired(over: seq<Node<OverZone>>, overOrder: seq<nat>, overHead: int,
                         under: seq<Node<UnderZone>>, underOrder: seq<nat>, underHead: int)
  {
    && Chain(over, overOrder, overHead)
    && Chain(under, underOrder, underHead)
    && Linked(over, overOrder, under, underOrder)
    && SameKinds(Project(over, overOrder), Project(under, underOrder))
  }

  /** Linking a new pair in at position i of both lists keeps them paired and
      puts the pair at position i of both projections. */
  lemma PairedInsert(over: seq<Node<OverZone>>, overOrder: seq<nat>, overHead: int,
                     under: seq<Node<UnderZone>>, underOrder: seq<nat>, underHead: int,
                     i: nat, z: OverZone, u: UnderZone, predO: int, succO: int, predU: int, succU: int)
    requires Paired(over, overOrder, overHead, under, underOrder, underHead)
    requires i <= |overOrder| && z.kind == u.kind
    requires predO == (if i > 0 then overOrder[i - 1] else NULL)
    requires succO == (if i < |overOrder| then overOrder[i] else NULL)
    requires predU == (if i > 0 then underOrder[i - 1] else NULL)
    requires succU == (if i < |underOrder| then underOrder[i] else NULL)
    ensures var o' := SpliceIn(over, predO, succO, z, |under|);
            var u' := SpliceIn(under, predU, succU, u, |over|);
            var oo := overOrder[..i] + [|over|] + overOrder[i..];
            var uo := underOrder[..i] + [|under|] + underOrder[i..];
            && Paired(o', oo, if predO == NULL then |over| else overHead,
                      u', uo, if predU == NULL then |under| else underHead)
            && Project(o', oo) == Project(over, overOrder)[..i] + [z] + Project(over, overOrder)[i..]
            && Project(u', uo) == Project(under, underOrder)[..i] + [u] + Project(under, underOrder)[i..]
  {
    var o' := SpliceIn(over, predO, succO, z, |under|);
    var u' := SpliceIn(under, predU, succU, u, |over|);
    ChainInsert(over, overOrder, overHead, i, z, |under|);
    ChainInsert(under, underOrder, underHead, i, u, |over|);
    ProjectInsert(over, o', overOrder, i, z);
    ProjectInsert(under, u', underOrder, i, u);
    LinkedInsert(over, overOrder, under, underOrder, o', u', i);
    SameKindsInsert(Project(over, overOrder), Project(under, underOrder), i, z, u);
  }

  /** Unlinking the pair at position i of both lists keeps the rest paired
      and in order. */
  lemma PairedRemove(over: seq<Node<OverZone>>, overOrder: seq<nat>, overHead: int,
                     under: seq<Node<UnderZone>>, underOrder: seq<nat>, underHead: int, i: nat)
    requires Paired(over, overOrder, overHead, under, underOrder, underHead)
    requires i < |overOrder|
    ensures over[overOrder[i]].prev == (if i > 0 then overOrder[i - 1] else NULL)
    ensures over[overOrder[i]].next == (if i + 1 < |overOrder| then overOrder[i + 1] else NULL)
    ensures under[underOrder[i]].prev == (if i > 0 then underOrder[i - 1] else NULL)
    ensures under[underOrder[i]].next == (if i + 1 < |underOrder| then underOrder[i + 1] else NULL)
    ensures var o' := SpliceOut(over, overOrder[i]);
            var u' := SpliceOut(under, underOrder[i]);
            var oo := overOrder[..i] + overOrder[i + 1..];
            var uo := underOrder[..i] + underOrder[i + 1..];
            && Paired(o', oo, if i == 0 then over[overOrder[i]].next else overHead,
                      u', uo, if i == 0 then under[underOrder[i]].next else underHead)
            && Project(o', oo) == Project(over, overOrder)[..i] + Project(over, overOrder)[i + 1..]
            && Project(u', uo) == Project(under, underOrder)[..i] + Project(under, underOrder)[i + 1..]
  {
    ChainRemove(over, overOrder, overHead, i);
    ChainRemove(under, underOrder, underHead, i);
    var o' := SpliceOut(over, overOrder[i]);
    var u' := SpliceOut(under, underOrder[i]);
    ProjectRemove(over, o', overOrder, i);
    ProjectRemove(under, u', underOrder, i);
    LinkedRemove(over, overOrder, under, underOrder, o', u', i);
    SameKindsRemove(Project(over, overOrder), Project(under, underOrder), i);
  }

  class ZoneGraph {
    var over: seq<Node<OverZone>>
    var under: seq<Node<UnderZone>>
    var overHead: int
    var underHead: int
    var closed: bool
    ghost var overOrder: seq<nat>
    ghost var underOrder: seq<nat>

    /** The fields hold a pair of lists (see Paired). */
    ghost predicate Valid()
      reads this
    {
      Paired(over, overOrder, overHead, under, underOrder, underHead)
    }

    /** The Mondo Reale zones, in list order. */
    ghost function Over(): seq<OverZone>
      reads this
      requires Valid()
    {
      Project(over, overOrder)
    }

    /** The Soprasotto zones, in list order. */
    ghost function Under(): seq<UnderZone>
      reads this
      requires Valid()
    {
      Project(under, underOrder)
    }

    /** imposta_gioco's starting state: both lists empty and the map open. */
    constructor ()
      ensures Valid() && Over() == [] && Under() == [] && !closed
    {
      over, under := [], [];
      overHead, underHead := NULL, NULL;
      closed := false;
      overOrder, underOrder := [], [];
    }

    /** libera_mappe: both lists become empty; the closed flag is untouched. */
    method Clear()
      modifies this
      ensures Valid() && Over() == [] && Under() == [] && closed == old(closed)
    {
      over, under := [], [];
      overHead, underHead := NULL, NULL;
      overOrder, underOrder := [], [];
    }

    /** conta_zone_mondoreale: walks the Mondo Reale list from its head. */
    method CountOver() returns (count: int)
      requires Valid()
      ensures count == |Over()|
    {
      count := 0;
      var current := overHead;
      while current != NULL
        invariant 0 <= count <= |overOrder|
        invariant current == (if count < |overOrder| then overOrder[count] else NULL)
        decreases |overOrder| - count
      {
        count := count + 1;
        current := over[current].next;
      }
    }

    /** conta_demotorzone: walks the Soprasotto list counting Demotorzone zones. */
    method CountBoss() returns (count: int)
      requires Valid()
      ensures count == BossCount(Under())
    {
      count := 0;
      var k := 0;
      var current := underHead;
      while current != NULL
        invariant 0 <= k <= |underOrder|
        invariant current == (if k < |underOrder| then underOrder[k] else NULL)
        invariant count == BossCount(Under()[..k])
        decreases |underOrder| - k
      {
        ghost var us := Under();
        assert under[underOrder[k]].next == (if k + 1 < |underOrder| then underOrder[k + 1] else NULL);
        assert us[..k + 1] == us[..k] + [us[k]];
        BossCountAppend(us[..k], [us[k]]);
        if under[current].zone.enemy == Demotorzone {
          count := count + 1;
        }
        current := under[current].next;
        k := k + 1;
      }
      assert Under()[..k] == Under();
    }

    /** Appends one linked pair at the tail of both lists, as each iteration of
        genera_mappa's loop does; lastOver and lastUnder are its ultima_mr and
        ultima_ss. */
    method AppendPair(z: OverZone, u: UnderZone, lastOver: int, lastUnder: int)
      requires Valid() && z.kind == u.kind
      requires lastOver == (if |overOrder| == 0 then NULL else overOrder[|overOrder| - 1])
      requires lastUnder == (if |underOrder| == 0 then NULL else underOrder[|underOrder| - 1])
      modifies this
      ensures Valid()
      ensures Over() == old(Over()) + [z] && Under() == old(Under()) + [u]
      ensures closed == old(closed)
      ensures overOrder == old(overOrder) + [|old(over)|] && underOrder == old(underOrder) + [|old(under)|]
      ensures overOrder[|overOrder| - 1] == |old(over)| && underOrder[|underOrder| - 1] == |old(under)|
    {
      var i := |overOrder|;
      var mo: nat, mu: nat := |over|, |under|;
      PairedInsert(over, overOrder, overHead, under, underOrder, underHead, i, z, u, lastOver, NULL, lastUnder, NULL);
      InsertAtEnd(overOrder, mo);
      InsertAtEnd(underOrder, mu);
      InsertAtEnd(Over(), z);
      InsertAtEnd(Under(), u);

      over := SpliceIn(over, lastOver, NULL, z, mu);
      under := SpliceIn(under, lastUnder, NULL, u, mo);
      if lastOver == NULL {
        overHead, underHead := mo, mu;
      }
      overOrder := overOrder + [mo];
      underOrder := underOrder + [mu];
    }

    /** genera_mappa: frees both lists and builds ZONE_MINIME fresh pairs, the
        Demotorzone at bossIndex (rand() % ZONE_MINIME). Like the source, it
        neither checks nor resets the closed flag. */
    method Generate(bossIndex: int, ds: seq<ZoneDraw>)
      requires 0 <= bossIndex < ZONE_MINIME
      requires |ds| == ZONE_MINIME && ValidDraws(ds)
      modifies this
      ensures Valid()
      ensures Over() == GenOver(ds) && Under() == GenUnder(bossIndex, ds)
      ensures closed == old(closed)
    {
      Clear();
      var lastOver, lastUnder := NULL, NULL;
      var i := 0;
      while i < ZONE_MINIME
        invariant 0 <= i <= ZONE_MINIME
        invariant Valid() && closed == old(closed)
        invariant Over() == GenOver(ds[..i]) && Under() == GenUnder(bossIndex, ds[..i])
        invariant lastOver == (if |overOrder| == 0 then NULL else overOrder[|overOrder| - 1])
        invariant lastUnder == (if |underOrder| == 0 then NULL else underOrder[|underOrder| - 1])
      {
        lastOver, lastUnder := GeneratePair(bossIndex, ds, i, lastOver, lastUnder);
        i := i + 1;
      }
      assert ds[..i] == ds;
    }

    /** One pass of genera_mappa's loop: the pair for draw i goes at the end
        of both lists, and becomes the new last pair. */
    method GeneratePair(bossIndex: int, ds: seq<ZoneDraw>, i: nat, lastOver: int, lastUnder: int)
      returns (newOver: int, newUnder: int)
      requires Valid() && i < |ds| && ValidDraws(ds)
      requires Over() == GenOver(ds[..i]) && Under() == GenUnder(bossIndex, ds[..i])
      requires lastOver == (if |overOrder| == 0 then NULL else overOrder[|overOrder| - 1])
      requires lastUnder == (if |underOrder| == 0 then NULL else underOrder[|underOrder| - 1])
      modifies this
      ensures Valid() && closed == old(closed)
      ensures Over() == GenOver(ds[..i + 1]) && Under() == GenUnder(bossIndex, ds[..i + 1])
      ensures newOver == overOrder[|overOrder| - 1] && newUnder == underOrder[|underOrder| - 1]
    {
      var z := GenOverZone(ds[i]);
      var u := GenUnderZone(ds[i], i == bossIndex);
      newOver, newUnder := |over|, |under|;
      GenStep(bossIndex, ds, i);
      AppendPair(z, u, lastOver, lastUnder);
    }

    /** inserisci_zona with its inputs: the position, kind, Mondo Reale enemy and
        item codes, and the Soprasotto draw genera_nemico_soprasotto(0) makes.
        On success both lists gain the new pair at position pos; otherwise
        nothing changes. */
    method Insert(pos: int, kind: int, enemy: int, item: int, underDraw: int) returns (res: EditOutcome)
      requires Valid() && IsPercent(underDraw)
      modifies this
      ensures Valid() && closed == old(closed)
      ensures res == InsertVerdict(old(closed), |old(Over())|, pos, kind, enemy, item)
      ensures res == Done ==>
                Over() == old(Over())[..pos - 1] + [OverZone(KindOf(kind), EnemyOf(enemy), ItemOf(item))] + old(Over())[pos - 1..] &&
                Under() == old(Under())[..pos - 1] + [UnderZone(KindOf(kind), UnderEnemyFromDraw(false, underDraw))] + old(Under())[pos - 1..]
      ensures res != Done ==> unchanged(this)
    {
      if closed {
        return MapIsClosed;
      }
      var n := CountOver();
      if pos < 1 || pos > n + 1 {
        return PositionOutOfRange;
      }
      if kind < 0 || kind > 9 {
        return KindOutOfRange;
      }
      if enemy < 0 || enemy > 2 {
        return EnemyOutOfRange;
      }
      if item < 0 || item > 4 {
        return ItemOutOfRange;
      }
      var z := OverZone(KindOf(kind), EnemyOf(enemy), ItemOf(item));
      var u := UnderZone(KindOf(kind), UnderEnemyFromDraw(false, underDraw));
      var predO, succO, predU, succU := Neighbours(pos);
      LinkPair(pos - 1, z, u, predO, succO, predU, succU);
      res := Done;
    }

    /** The insertion point of inserisci_zona: the zones at position pos - 1
        (NULL for the head) and pos (NULL past the tail) of each list, found by
        walking from the head as the source's loop does. */
    method Neighbours(pos: int) returns (predO: int, succO: int, predU: int, succU: int)
      requires Valid() && 1 <= pos <= |overOrder| + 1
      ensures predO == (if pos > 1 then overOrder[pos - 2] else NULL)
      ensures succO == (if pos - 1 < |overOrder| then overOrder[pos - 1] else NULL)
      ensures predU == (if pos > 1 then underOrder[pos - 2] else NULL)
      ensures succU == (if pos - 1 < |underOrder| then underOrder[pos - 1] else NULL)
    {
      predO, predU := NULL, NULL;
      succO, succU := overHead, underHead;
      if pos != 1 {
        var curO, curU := overHead, underHead;
        var i := 1;
        while i < pos - 1 && curO != NULL
          invariant 1 <= i <= pos - 1
          invariant curO == overOrder[i - 1] && curU == underOrder[i - 1]
        {
          ChainStep(over, overOrder, overHead, i - 1);
          ChainStep(under, underOrder, underHead, i - 1);
          curO := over[curO].next;
          curU := under[curU].next;
          i := i + 1;
        }
        ChainStep(over, overOrder, overHead, i - 1);
        ChainStep(under, underOrder, underHead, i - 1);
        predO, predU := curO, curU;
        succO, succU := over[curO].next, under[curU].next;
      }
    }

    /** Links the pair (z, u) in between the given neighbours, at position at of
        both lists, with the same pointer writes as inserisci_zona. */
    method LinkPair(at: nat, z: OverZone, u: UnderZone, predO: int, succO: int, predU: int, succU: int)
      requires Valid() && at <= |overOrder| && z.kind == u.kind
      requires predO == (if at > 0 then overOrder[at - 1] else NULL)
      requires succO == (if at < |overOrder| then overOrder[at] else NULL)
      requires predU == (if at > 0 then underOrder[at - 1] else NULL)
      requires succU == (if at < |underOrder| then underOrder[at] else NULL)
      modifies this
      ensures Valid() && closed == old(closed)
      ensures Over() == old(Over())[..at] + [z] + old(Over())[at..]
      ensures Under() == old(Under())[..at] + [u] + old(Under())[at..]
    {
      var mo: nat, mu: nat := |over|, |under|;
      ghost var o', u' := SpliceIn(over, predO, succO, z, mu), SpliceIn(under, predU, succU, u, mo);
      ghost var oo, uo := overOrder[..at] + [mo] + overOrder[at..], underOrder[..at] + [mu] + underOrder[at..];
      ghost var oh, uh := (if predO == NULL then mo else overHead), (if predU == NULL then mu else underHead);
      ghost var os, us := Over()[..at] + [z] + Over()[at..], Under()[..at] + [u] + Under()[at..];
      PairedInsert(over, overOrder, overHead, under, underOrder, underHead, at, z, u, predO, succO, predU, succU);
      assert Paired(o', oo, oh, u', uo, uh) && Project(o', oo) == os && Project(u', uo) == us;
      over := SpliceIn(over, predO, succO, z, mu);
      under := SpliceIn(under, predU, succU, u, mo);
      if predO == NULL {
        overHead, underHead := mo, mu;
      }
      overOrder := overOrder[..at] + [mo] + overOrder[at..];
      underOrder := underOrder[..at] + [mu] + underOrder[at..];
      assert overOrder == oo && underOrder == uo && overHead == oh && underHead == uh;
    }

    /** cancella_zona at position pos: on success the pair at that position
        leaves both lists, which keep the rest in order; otherwise nothing
        changes. */
    method Delete(pos: int) returns (res: EditOutcome)
      requires Valid()
      modifies this
      ensures Valid() && closed == old(closed)
      ensures res == DeleteVerdict(old(closed), |old(Over())|, pos)
      ensures res == Done ==>
                Over() == old(Over())[..pos - 1] + old(Over())[pos..] &&
                Under() == old(Under())[..pos - 1] + old(Under())[pos..]
      ensures res != Done ==> unchanged(this)
    {
      if closed {
        return MapIsClosed;
      }
      if overHead == NULL {
        return NothingToDelete;
      }
      var n := CountOver();
      if pos < 1 || pos > n {
        return PositionOutOfRange;
      }
      var curO, curU := overHead, underHead;
      var i := 1;
      while i < pos && curO != NULL
        invariant 1 <= i <= pos
        invariant curO == overOrder[i - 1] && curU == underOrder[i - 1]
      {
        curO := over[curO].next;
        curU := under[curU].next;
        i := i + 1;
      }
      UnlinkPair(pos - 1, curO, curU);
      res := Done;
    }

    /** Unlinks the pair at position at of both lists, with the same pointer
        writes as cancella_zona; the unlinked nodes stay in the arenas, unreachable. */
    method UnlinkPair(at: nat, curO: int, curU: int)
      requires Valid() && at < |overOrder|
      requires curO == overOrder[at] && curU == underOrder[at]
      modifies this
      ensures Valid() && closed == old(closed)
      ensures Over() == old(Over())[..at] + old(Over())[at + 1..]
      ensures Under() == old(Under())[..at] + old(Under())[at + 1..]
    {
      PairedRemove(over, overOrder, overHead, under, underOrder, underHead, at);
      var prevO, nextO := over[curO].prev, over[curO].next;
      var nextU := under[curU].next;
      over := SpliceOut(over, curO);
      under := SpliceOut(under, curU);
      if prevO == NULL {
        overHead, underHead := nextO, nextU;
      }
      overOrder := overOrder[..at] + overOrder[at + 1..];
      underOrder := underOrder[..at] + underOrder[at + 1..];
    }

    /** chiudi_mappa: closes the map when it has at least ZONE_MINIME zones and
        exactly one Demotorzone; otherwise it changes nothing. */
    method Close() returns (res: CloseOutcome)
      requires Valid()
      modifies this`closed
      ensures Valid()
      ensures res == CloseVerdict(|Over()|, BossCount(Under()))
      ensures closed == (if res == Closed then true else old(closed))
    {
      var zones := CountOver();
      var bosses := CountBoss();
      if zones < ZONE_MINIME {
        return TooFewZones(zones);
      }
      if bosses != 1 {
        return WrongBossCount(bosses);
      }
      closed := true;
      res := Closed;
    }

    /** Overwrites the payload of the Mondo Reale zone at arena index x, as
        raccogli_oggetto and combatti_nemico write a zone's item or enemy. */
    method SetOverZone(x: int, z: OverZone)
      requires Valid() && x in overOrder && z.kind == over[x].zone.kind
      modifies this`over
      ensures Valid()
      ensures Over() == old(Over())[IndexOf(overOrder, x) := z] && Under() == old(Under())
    {
      ghost var k := IndexOf(overOrder, x);
      ChainSetZone(over, overOrder, overHead, k, z);
      over := over[x := over[x].(zone := z)];
    }

    /** Overwrites the payload of the Soprasotto zone at arena index x. */
    method SetUnderZone(x: int, u: UnderZone)
      requires Valid() && x in underOrder && u.kind == under[x].zone.kind
      modifies this`under
      ensures Valid()
      ensures Under() == old(Under())[IndexOf(underOrder, x) := u] && Over() == old(Over())
    {
      ghost var k := IndexOf(underOrder, x);
      ChainSetZone(under, underOrder, underHead, k, u);
      under := under[x := under[x].(zone := u)];
    }
  }

  /** Inserting keeps the Demotorzone count: inserisci_zona never adds a boss. */
  lemma InsertKeepsBossCount(us: seq<UnderZone>, pos: int, kind: int, underDraw: int)
    requires 1 <= pos <= |us| + 1 && 0 <= kind <= 9 && IsPercent(underDraw)
    ensures BossCount(us[..pos - 1] + [UnderZone(KindOf(kind), UnderEnemyFromDraw(false, underDraw))] + us[pos - 1..]) == BossCount(us)
  {
    var j: nat, u := pos - 1, UnderZone(KindOf(kind), UnderEnemyFromDraw(false, underDraw));
    assert BossCount(us[..j] + [u] + us[j..]) == BossCount(us) by {
      BossCountInsert(us, j, u);
    }
  }

  /** Deleting lowers the Demotorzone count exactly when the deleted zone held it. */
  lemma DeleteBossCount(us: seq<UnderZone>, pos: int)
    requires 1 <= pos <= |us|
    ensures BossCount(us[..pos - 1] + us[pos..]) == BossCount(us) - (if us[pos - 1].enemy == Demotorzone then 1 else 0)
  {
    var j: nat := pos - 1;
    assert BossCount(us[..j] + us[j + 1..]) == BossCount(us) - (if us[j].enemy == Demotorzone then 1 else 0) by {
      BossCountRemove(us, j);
    }
  }
}
