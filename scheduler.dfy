/**
 * The round and turn scheduling of gioca. On each round start the indices
 * of the living players are collected into temp_idx, shuffled by swaps whose
 * partner is rand() % num_vivi_round over the whole range, and copied into
 * ordine_turno; num_vivi_round stays fixed for the round. A player who dies
 * is removed from giocatori (the NULL entry becomes null here); the session
 * ends when nobody is left or the Demotorzone is beaten. The raw rand()
 * values are an input, consumed in order.
 */
module Scheduler {
  import opened GameTypes
  import opened Chains
  import opened ZoneMap
  import opened Rules
  import opened Players
  import opened Turns
  import opened Shuffling

  /** The indices of the living players (non-null entries), in increasing order. */
  function Living(ps: seq<Player?>): (idx: seq<int>)
    ensures |idx| <= |ps|
  {
    if |ps| == 0 then []
    else Living(ps[..|ps| - 1]) + (if ps[|ps| - 1] != null then [|ps| - 1] else [])
  }

  /** Living lists exactly the non-null entries, each once, in increasing order. */
  lemma {:induction false} LivingSpec(ps: seq<Player?>)
    ensures forall j :: 0 <= j < |Living(ps)| ==> 0 <= Living(ps)[j] < |ps| && ps[Living(ps)[j]] != null
    ensures forall k :: 0 <= k < |ps| && ps[k] != null ==> k in Living(ps)
    ensures forall i, j :: 0 <= i < j < |Living(ps)| ==> Living(ps)[i] < Living(ps)[j]
  {
    if |ps| > 0 {
      var init := ps[..|ps| - 1];
      LivingSpec(init);
      forall k | 0 <= k < |init| ensures init[k] == ps[k] { }
    }
  }

  /** Nobody is alive exactly when the living list is empty. */
  lemma LivingEmpty(ps: seq<Player?>)
    ensures |Living(ps)| == 0 <==> forall k :: 0 <= k < |ps| ==> ps[k] == null
  {
    LivingSpec(ps);
    if |Living(ps)| > 0 {
      assert ps[Living(ps)[0]] != null;
    }
  }

  /** The turn order of a round is a permutation of the living players,
      each of them exactly once. */
  lemma ShuffleOfLiving(ps: seq<Player?>, raws: seq<nat>)
    requires |Living(ps)| <= |raws|
    ensures var o := ShuffleFrom(Living(ps), raws, 0);
            && multiset(o) == multiset(Living(ps))
            && (forall j :: 0 <= j < |o| ==> 0 <= o[j] < |ps| && ps[o[j]] != null)
            && (forall k :: 0 <= k < |ps| && ps[k] != null ==> k in o)
            && NoRepeats(o)
  {
    var l := Living(ps);
    var o := ShuffleFrom(l, raws, 0);
    LivingSpec(ps);
    ShufflePermutes(l, raws, 0);
    PermutationDistinct(l, o);
    forall j | 0 <= j < |o| ensures 0 <= o[j] < |ps| && ps[o[j]] != null {
      assert o[j] in multiset(l);
    }
    forall k | 0 <= k < |ps| && ps[k] != null ensures k in o {
      assert k in multiset(o);
    }
  }

  /** The counting loop at the top of gioca's main loop. */
  method CountLiving(players: array<Player?>, count: int) returns (n: int)
    requires 0 <= count <= players.Length
    ensures n == |Living(players[..count])|
  {
    n := 0;
    var i := 0;
    while i < count
      invariant 0 <= i <= count
      invariant n == |Living(players[..i])|
    {
      assert players[..i + 1][..i] == players[..i];
      if players[i] != null {
        n := n + 1;
      }
      i := i + 1;
    }
  }

  /** temp_idx filled with the living indices. */
  method CollectLiving(players: array<Player?>, count: int, temp: array<int>) returns (n: int)
    requires 0 <= count <= players.Length && count <= temp.Length
    modifies temp
    ensures 0 <= n <= count && temp[..n] == Living(players[..count])
  {
    n := 0;
    var i := 0;
    while i < count
      invariant 0 <= i <= count && 0 <= n <= i
      invariant temp[..n] == Living(players[..i])
    {
      assert players[..i + 1][..i] == players[..i];
      if players[i] != null {
        temp[n] := i;
        assert temp[..n + 1] == temp[..n] + [i];
        n := n + 1;
      }
      i := i + 1;
    }
  }

  /** The shuffle of temp_idx[0..n), consuming n raw draws from position at. */
  method Shuffle(temp: array<int>, n: int, raws: seq<nat>)
    requires 0 <= n <= temp.Length && n <= |raws|
    modifies temp
    ensures temp[..n] == ShuffleFrom(old(temp[..n]), raws, 0)
    ensures temp[n..] == old(temp[n..])
  {
    var i := 0;
    while i < n
      invariant 0 <= i <= n
      invariant ShuffleFrom(temp[..n], raws, i) == ShuffleFrom(old(temp[..n]), raws, 0)
      invariant temp[n..] == old(temp[n..])
    {
      ghost var before := temp[..n];
      var r := Partner(raws[i], n);
      var tmp := temp[i];
      temp[i] := temp[r];
      temp[r] := tmp;
      assert temp[..n] == Swap(before, i, r);
      i := i + 1;
    }
  }

  /** How a session of gioca ends: it was not set up, all players died, a
      player beat the Demotorzone, or the input ran out. */
  datatype SessionEnd = NotSetUp | AllDead | BossWon(winner: int) | OutOfInput

  /** What gioca's main loop keeps about giocatori against the players it
      started with (initial): every entry still present is the player placed
      there, valid, on the map and alive; every removed entry died; the
      players are pairwise distinct. */
  ghost predicate Table(players: array<Player?>, count: int, g: ZoneGraph, initial: seq<Player?>)
    reads players, g, set k | 0 <= k < |initial| && initial[k] != null :: initial[k]
  {
    && 0 <= count <= players.Length && count <= |initial|
    && g.Valid()
    && (forall k :: 0 <= k < count ==> players[k] == null || players[k] == initial[k])
    && (forall k :: 0 <= k < count && players[k] != null ==>
          initial[k].Valid() && initial[k].OnMap(g) && initial[k].hp > 0)
    && (forall k :: 0 <= k < count && initial[k] != null && players[k] == null ==> initial[k].hp <= 0)
    && (forall j, k :: 0 <= j < k < count && initial[j] != null && initial[k] != null ==> initial[j] != initial[k])
  }

  /** The order of the current round from position idx on: distinct entries
      of living players. */
  ghost predicate RoundOrder(ps: seq<Player?>, count: int, order: seq<int>, idx: int, num: int)
  {
    && 0 <= idx < num <= count <= |ps| && num <= |order|
    && (forall j :: idx <= j < num ==> 0 <= order[j] < count && ps[order[j]] != null)
    && (forall a, b :: 0 <= a < b < num ==> order[a] != order[b])
  }

  /** After the turn at position idx, removing that player or not, the rest
      of the round's order still names living players. */
  lemma RoundAdvance(ps: seq<Player?>, ps': seq<Player?>, count: int, order: seq<int>, idx: int, num: int)
    requires RoundOrder(ps, count, order, idx, num) && idx + 1 < num
    requires ps' == ps || ps' == ps[order[idx] := null]
    ensures RoundOrder(ps', count, order, idx + 1, num)
  {
    forall j | idx + 1 <= j < num ensures ps'[order[j]] != null {
      assert order[j] != order[idx];
    }
  }

  /** A player as the placement leaves it: valid, in the Mondo Reale on the
      first zone of g and with no Soprasotto position. */
  ghost predicate AtStart(p: Player, g: ZoneGraph)
    reads p, g
  {
    p.Valid() && p.world == MondoReale && p.posOver == g.overHead && p.posUnder == NULL
  }

  /** The placement loop of gioca: every player still present starts on the
      first zone of the Mondo Reale, with the HP it had. */
  method PlaceAll(players: array<Player?>, count: int, g: ZoneGraph)
    requires 0 <= count <= players.Length && g.Valid()
    requires forall k :: 0 <= k < count && players[k] != null ==> players[k].Valid()
    requires forall j, k :: 0 <= j < k < count && players[j] != null && players[k] != null ==> players[j] != players[k]
    modifies set k | 0 <= k < count && players[k] != null :: players[k]
    ensures forall k :: 0 <= k < count && players[k] != null ==> AtStart(players[k], g)
    ensures forall k :: 0 <= k < count && players[k] != null ==> players[k].hp == old(players[k].hp)
  {
    var i := 0;
    while i < count
      invariant 0 <= i <= count
      invariant forall k :: 0 <= k < i && players[k] != null ==> AtStart(players[k], g)
      invariant forall k :: 0 <= k < count && players[k] != null ==> players[k].hp == old(players[k].hp)
      invariant forall k :: i <= k < count && players[k] != null ==> players[k].Valid()
    {
      var p := players[i];
      if p != null {
        p.Place(g);
        assert AtStart(p, g);
      }
      i := i + 1;
    }
  }

  /** The placement, after which the main loop's Table holds of the players
      giocatori starts with. */
  method Seat(players: array<Player?>, count: int, g: ZoneGraph)
    requires 0 <= count <= players.Length && g.Valid()
    requires forall k :: 0 <= k < count && players[k] != null ==> players[k].Valid() && players[k].hp > 0
    requires forall j, k :: 0 <= j < k < count && players[j] != null && players[k] != null ==> players[j] != players[k]
    modifies set k | 0 <= k < count && players[k] != null :: players[k]
    ensures Table(players, count, g, players[..])
  {
    PlaceAll(players, count, g);
    assert g.overHead == NULL || g.overHead in g.overOrder;
    forall k | 0 <= k < count && players[k] != null
      ensures players[k].OnMap(g)
    {
      assert AtStart(players[k], g);
    }
  }

  /** The start of a round: the living indices are collected, shuffled with
      the next draws and copied into ordine_turno. */
  method StartRound(players: array<Player?>, count: int, order: array<int>, raws: seq<nat>) returns (num: int)
    requires 0 <= count <= players.Length && count <= order.Length
    requires |Living(players[..count])| <= |raws|
    modifies order
    ensures num == |Living(players[..count])|
    ensures order[..num] == ShuffleFrom(Living(players[..count]), raws, 0)
    ensures forall j :: 0 <= j < num ==> 0 <= order[j] < count && players[order[j]] != null
    ensures forall k :: 0 <= k < count && players[k] != null ==> k in order[..num]
    ensures forall a, b :: 0 <= a < b < num ==> order[a] != order[b]
  {
    var temp := new int[count];
    num := CollectLiving(players, count, temp);
    Shuffle(temp, num, raws);
    CopyPrefix(temp, order, num);
    ghost var ps := players[..count];
    ghost var o := ShuffleFrom(Living(ps), raws, 0);
    ShuffleOfLiving(ps, raws);
    forall j | 0 <= j < num
      ensures 0 <= order[j] < count && players[order[j]] != null
    {
      assert order[j] == order[..num][j] == o[j];
      assert ps[o[j]] == players[o[j]];
    }
    forall a, b | 0 <= a < b < num
      ensures order[a] != order[b]
    {
      assert order[a] == o[a] && order[b] == o[b];
    }
    forall k | 0 <= k < count && players[k] != null
      ensures k in order[..num]
    {
      assert ps[k] == players[k];
    }
  }

  /** The copy of temp_idx into ordine_turno. */
  method CopyPrefix(src: array<int>, dst: array<int>, n: int)
    requires 0 <= n <= src.Length && n <= dst.Length && src != dst
    modifies dst
    ensures dst[..n] == src[..n]
  {
    var j := 0;
    while j < n
      invariant 0 <= j <= n
      invariant forall a :: 0 <= a < j ==> dst[a] == src[a]
    {
      dst[j] := src[j];
      j := j + 1;
    }
  }

  /** A living player's turn as the session sees it: the turn follows
      RunTurn, ends in death exactly when the player's HP dropped to zero or
      below, takes enemies off the map but never adds one, and ends with the
      boss beaten only on a zone where the Demotorzone stood. */
  method TakeTurn(p: Player, g: ZoneGraph, acts: seq<Action>) returns (status: Status, ended: bool, ghost r: Turn)
    requires p.Valid() && p.OnMap(g) && p.hp > 0 && ValidActions(acts)
    modifies p, p.pack, g`over, g`under
    ensures p.Valid() && p.OnMap(g)
    ensures g.overOrder == old(g.overOrder) && g.underOrder == old(g.underOrder)
    ensures r == RunTurn(StartTurn(old(p.View(g)), old(g.Over()), old(g.Under())), acts)
    ensures status == r.status && ended == Ended(r) && p.View(g) == r.v && g.Over() == r.os && g.Under() == r.us
    ensures p.hp <= 0 <==> status == Died
    ensures !ended ==> status == Playing
    ensures OnlyCleared(g.Over(), g.Under(), old(g.Over()), old(g.Under()))
    ensures status == BossBeaten ==> EnemyHere(p.View(g), old(g.Over()), old(g.Under())) == Demotorzone
  {
    TurnSurvival(StartTurn(p.View(g), g.Over(), g.Under()), acts);
    BossTurn(StartTurn(p.View(g), g.Over(), g.Under()), acts);
    TurnClears(StartTurn(p.View(g), g.Over(), g.Under()), acts);
    r := RunTurn(StartTurn(p.View(g), g.Over(), g.Under()), acts);
    status, ended := PlayTurn(p, g, acts);
  }

  /** One player's turn inside the session: the player plays, and is removed
      from giocatori when the turn ends in death; nobody else changes. */
  method PlayerTurn(players: array<Player?>, count: int, g: ZoneGraph, current: int, acts: seq<Action>,
                    ghost initial: seq<Player?>)
    returns (status: Status, ended: bool)
    requires Table(players, count, g, initial)
    requires 0 <= current < count && players[current] != null
    requires ValidActions(acts)
    modifies players, initial[current], initial[current].pack, g`over, g`under
    ensures Table(players, count, g, initial)
    ensures players[..] == if status == Died then old(players[..])[current := null] else old(players[..])
    ensures status == BossBeaten ==> players[current] != null && players[current].hp > 0
    ensures !ended ==> status == Playing
    ensures OnlyCleared(g.Over(), g.Under(), old(g.Over()), old(g.Under()))
    ensures status == BossBeaten ==> EnemyHere(players[current].View(g), old(g.Over()), old(g.Under())) == Demotorzone
  {
    var p := players[current];
    ghost var r;
    status, ended, r := TakeTurn(p, g, acts);
    if status == Died {
      players[current] := null;
    }
    forall k | 0 <= k < count && k != current && initial[k] != null
      ensures initial[k] != p
    {
      if k < current { } else { }
    }
  }

  /** The part of an iteration of gioca's main loop that picks whose turn it
      is: the game is over when nobody is alive; a new round starts at
      position 0, consuming one raw draw per living player. */
  datatype Pick = Halt(end: SessionEnd) | Go(current: int)

  method PickTurn(players: array<Player?>, count: int, order: array<int>, num: int, idx: int,
                  randoms: seq<nat>, ri: int)
    returns (pick: Pick, size: int, nextRi: int, newRound: bool)
    requires 0 <= count <= players.Length && count <= order.Length
    requires 0 <= ri <= |randoms| && 0 <= idx
    requires idx > 0 ==> RoundOrder(players[..], count, order[..], idx, num)
    modifies order
    ensures pick == Halt(AllDead) <==> forall k :: 0 <= k < count ==> players[k] == null
    ensures pick.Halt? ==> pick == Halt(AllDead) || (pick == Halt(OutOfInput) && idx == 0 && |randoms| - ri < |Living(players[..count])|)
    ensures newRound <==> pick.Go? && idx == 0
    ensures newRound ==> size == |Living(players[..count])| && nextRi == ri + size <= |randoms| &&
                         order[..size] == ShuffleFrom(Living(players[..count]), randoms[ri..], 0)
    ensures !newRound ==> size == num && nextRi == ri && order[..] == old(order[..])
    ensures 0 <= nextRi <= |randoms|
    ensures pick.Go? ==> RoundOrder(players[..], count, order[..], idx, size) && pick.current == order[idx]
  {
    var alive := CountLiving(players, count);
    LivingEmpty(players[..count]);
    assert forall k :: 0 <= k < count ==> players[k] == players[..count][k];
    size, nextRi, newRound := num, ri, false;
    if alive == 0 {
      return Halt(AllDead), size, nextRi, newRound;
    }
    if idx == 0 {
      if |randoms| - ri < alive {
        return Halt(OutOfInput), size, nextRi, newRound;
      }
      size := StartRound(players, count, order, randoms[ri..]);
      nextRi := ri + size;
      newRound := true;
    }
    pick := Go(order[idx]);
  }

  /** How a finished session left giocatori. */
  ghost predicate EndFacts(end: SessionEnd, ps: seq<Player?>, count: int)
    requires 0 <= count <= |ps|
  {
    && end != NotSetUp
    && (end == AllDead <==> forall k :: 0 <= k < count ==> ps[k] == null)
    && (end.BossWon? ==> 0 <= end.winner < count && ps[end.winner] != null)
  }

  /** The endings of a session's turns, in order: play goes on after every
      turn but a boss victory, and the session ends with a winner exactly
      when its last turn beat the boss. */
  ghost predicate StopsAtBoss(statuses: seq<Status>, end: SessionEnd)
  {
    && (forall i :: 0 <= i < |statuses| - 1 ==> statuses[i] != BossBeaten)
    && (end.BossWon? <==> |statuses| > 0 && statuses[|statuses| - 1] == BossBeaten)
  }

  /** One iteration's turn appended to the endings of the turns before it,
      none of which beat the boss. */
  lemma TraceStep(before: seq<Status>, statuses: seq<Status>, played: bool, status: Status, done: bool, end: SessionEnd)
    requires forall i :: 0 <= i < |before| ==> before[i] != BossBeaten
    requires statuses == if played then before + [status] else before
    requires !done ==> played && status != BossBeaten
    requires end.BossWon? <==> done && played && status == BossBeaten
    ensures !done ==> forall i :: 0 <= i < |statuses| ==> statuses[i] != BossBeaten
    ensures done ==> StopsAtBoss(statuses, end)
  {
    if played {
      assert forall i :: 0 <= i < |before| ==> statuses[i] == before[i];
    }
  }

  /** What Table and EndFacts say about giocatori at the end of a session,
      entry by entry. */
  lemma SessionFacts(players: array<Player?>, count: int, g: ZoneGraph, initial: seq<Player?>, end: SessionEnd)
    requires Table(players, count, g, initial) && EndFacts(end, players[..], count)
    ensures forall k :: 0 <= k < count ==> players[k] == null || players[k] == initial[k]
    ensures forall k :: 0 <= k < count && initial[k] != null && players[k] == null ==> initial[k].hp <= 0
    ensures end == AllDead <==> forall k :: 0 <= k < count ==> players[k] == null
    ensures end.BossWon? ==> 0 <= end.winner < count && players[end.winner] != null && players[end.winner].hp > 0
    ensures forall k :: 0 <= k < count && players[k] != null ==> players[k].Valid() && players[k].OnMap(g)
  {
    assert forall k :: 0 <= k < count ==> players[..][k] == players[k];
  }

  /** One iteration of gioca's main loop: pick whose turn it is (starting a
      new round at position 0), let that player play, and move to the next
      position of the round. done says the session is over, with end; played
      says a turn was played, and status is how it ended. os0, us0 is the map
      at the start of the session. */
  method Iteration(players: array<Player?>, count: int, g: ZoneGraph, order: array<int>,
                   num: int, idx: int, randoms: seq<nat>, ri: int, turns: seq<seq<Action>>, ti: int,
                   ghost initial: seq<Player?>, ghost os0: seq<OverZone>, ghost us0: seq<UnderZone>)
    returns (done: bool, end: SessionEnd, nextNum: int, nextIdx: int, nextRi: int, nextTi: int, newRound: bool,
             ghost played: bool, ghost status: Status)
    requires Table(players, count, g, initial) && count <= order.Length
    requires OnlyCleared(g.Over(), g.Under(), os0, us0)
    requires 0 <= ri <= |randoms| && 0 <= ti <= |turns| && 0 <= idx
    requires idx > 0 ==> RoundOrder(players[..], count, order[..], idx, num)
    requires forall k :: 0 <= k < |turns| ==> ValidActions(turns[k])
    modifies players, order, g`over, g`under
    modifies set k | 0 <= k < count && initial[k] != null :: initial[k]
    modifies set k | 0 <= k < count && initial[k] != null :: initial[k].pack
    ensures Table(players, count, g, initial)
    ensures 0 <= nextRi <= |randoms| && ti <= nextTi <= |turns| && 0 <= nextIdx
    ensures nextIdx > 0 ==> RoundOrder(players[..], count, order[..], nextIdx, nextNum)
    ensures nextTi == if played then ti + 1 else ti
    ensures !done ==> played && status != BossBeaten
    ensures done ==> EndFacts(end, players[..], count)
    ensures end.BossWon? <==> done && played && status == BossBeaten
    ensures end.BossWon? ==> done && EnemyHere(players[end.winner].View(g), os0, us0) == Demotorzone
    ensures OnlyCleared(g.Over(), g.Under(), os0, us0)
  {
    end, played, status := OutOfInput, false, Playing;
    var pick;
    pick, nextNum, nextRi, newRound := PickTurn(players, count, order, num, idx, randoms, ri);
    nextIdx, nextTi := idx, ti;
    if pick.Halt? {
      return true, pick.end, nextNum, nextIdx, nextRi, nextTi, newRound, played, status;
    }
    if ti == |turns| {
      return true, end, nextNum, nextIdx, nextRi, nextTi, newRound, played, status;
    }
    var current := pick.current;
    ghost var before, os, us := players[..], g.Over(), g.Under();
    var st, ended := PlayerTurn(players, count, g, current, turns[ti], initial);
    played, status, nextTi := true, st, ti + 1;
    ClearedTrans(g.Over(), g.Under(), os, us, os0, us0);
    if !ended || st == FightInterrupted {
      return true, end, nextNum, nextIdx, nextRi, nextTi, newRound, played, status;
    }
    if st == BossBeaten {
      ClearedEnemyWasThere(players[current].View(g), os, us, os0, us0);
      return true, BossWon(current), nextNum, nextIdx, nextRi, nextTi, newRound, played, status;
    }
    if idx + 1 < nextNum {
      RoundAdvance(before, players[..], count, order[..], idx, nextNum);
    }
    nextIdx := idx + 1;
    if nextIdx >= nextNum {
      nextIdx := 0;
    }
    done := false;
  }

  /** The main loop of gioca, from the players it starts with (initial) to
      the end of the session; statuses are the endings of the turns played,
      in order: the session stops at the first boss victory, and only then
      ends with a winner, who stands where the Demotorzone stood. */
  method MainLoop(players: array<Player?>, count: int, g: ZoneGraph, randoms: seq<nat>, turns: seq<seq<Action>>,
                  ghost initial: seq<Player?>)
    returns (end: SessionEnd, rounds: nat, ghost statuses: seq<Status>)
    requires Table(players, count, g, initial) && count <= 4
    requires forall k :: 0 <= k < |turns| ==> ValidActions(turns[k])
    modifies players, g`over, g`under
    modifies set k | 0 <= k < count && initial[k] != null :: initial[k]
    modifies set k | 0 <= k < count && initial[k] != null :: initial[k].pack
    ensures Table(players, count, g, initial)
    ensures EndFacts(end, players[..], count)
    ensures |statuses| <= |turns| && StopsAtBoss(statuses, end)
    ensures end.BossWon? ==> EnemyHere(players[end.winner].View(g), old(g.Over()), old(g.Under())) == Demotorzone
    ensures OnlyCleared(g.Over(), g.Under(), old(g.Over()), old(g.Under()))
  {
    rounds, statuses := 0, [];
    var order := new int[4];
    var num, idx, ri, ti := 0, 0, 0, 0;
    var done := false;
    end := OutOfInput;
    ghost var os0, us0 := g.Over(), g.Under();
    while !done
      invariant Table(players, count, g, initial)
      invariant 0 <= ri <= |randoms| && 0 <= ti <= |turns| && 0 <= idx
      invariant idx > 0 ==> RoundOrder(players[..], count, order[..], idx, num)
      invariant done ==> EndFacts(end, players[..], count)
      invariant OnlyCleared(g.Over(), g.Under(), os0, us0)
      invariant |statuses| == ti
      invariant !done ==> forall i :: 0 <= i < |statuses| ==> statuses[i] != BossBeaten
      invariant done ==> StopsAtBoss(statuses, end)
      invariant done && end.BossWon? ==> EnemyHere(players[end.winner].View(g), os0, us0) == Demotorzone
      decreases |turns| - ti, if done then 0 else 1
    {
      var newRound;
      ghost var played, status, before := false, Playing, statuses;
      done, end, num, idx, ri, ti, newRound, played, status :=
        Iteration(players, count, g, order, num, idx, randoms, ri, turns, ti, initial, os0, us0);
      if played {
        statuses := statuses + [status];
      }
      TraceStep(before, statuses, played, status, done, end);
      if newRound {
        rounds := rounds + 1;
      }
    }
  }

  /** gioca: places everybody on the first Mondo Reale zone, then plays
      rounds of turns in shuffled order. randoms are the successive rand()
      values of the shuffles; turns are the menu choices of successive turns.
      The branch that skips a player who died earlier in the round is never
      taken: only the player whose turn it is can die, and each living
      player appears once in the round's order. */
  method Session(players: array<Player?>, count: int, g: ZoneGraph, ready: bool,
                 randoms: seq<nat>, turns: seq<seq<Action>>) returns (end: SessionEnd, rounds: nat, ghost statuses: seq<Status>)
    requires 1 <= count <= players.Length && count <= 4
    requires g.Valid()
    requires forall k :: 0 <= k < count && players[k] != null ==> players[k].Valid() && players[k].hp > 0
    requires forall j, k :: 0 <= j < k < count && players[j] != null && players[k] != null ==> players[j] != players[k]
    requires forall k :: 0 <= k < |turns| ==> ValidActions(turns[k])
    modifies players, g`over, g`under
    modifies set k | 0 <= k < count && players[k] != null :: players[k]
    modifies set k | 0 <= k < count && players[k] != null :: players[k].pack
    ensures !ready ==> end == NotSetUp && rounds == 0
    ensures forall k :: 0 <= k < count ==> players[k] == null || players[k] == old(players[k])
    ensures forall k :: 0 <= k < count && old(players[k]) != null && players[k] == null ==> old(players[k]).hp <= 0
    ensures end == AllDead <==> ready && forall k :: 0 <= k < count ==> players[k] == null
    ensures end.BossWon? ==> 0 <= end.winner < count && players[end.winner] != null && players[end.winner].hp > 0
    ensures ready ==> forall k :: 0 <= k < count && players[k] != null ==> players[k].Valid() && players[k].OnMap(g)
    ensures g.Valid()
    ensures !ready ==> statuses == []
    ensures |statuses| <= |turns| && StopsAtBoss(statuses, end)
    ensures end.BossWon? ==> EnemyHere(players[end.winner].View(g), old(g.Over()), old(g.Under())) == Demotorzone
    ensures OnlyCleared(g.Over(), g.Under(), old(g.Over()), old(g.Under()))
  {
    rounds, statuses := 0, [];
    if !ready {
      return NotSetUp, 0, [];
    }
    ghost var initial, os0, us0 := players[..], g.Over(), g.Under();
    Seat(players, count, g);
    assert g.Over() == os0 && g.Under() == us0;

    end, rounds, statuses := MainLoop(players, count, g, randoms, turns, initial);
    SessionFacts(players, count, g, initial, end);
  }
}
