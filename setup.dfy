/**
 * The player phase of imposta_gioco: three d20 rolls per player, then the
 * optional adjustment chosen from the menu (trade 3 defence for 3 attack,
 * 3 attack for 3 defence, or become UndiciVirgolaCinque, which only one
 * player per setup can do).
 */
module Setup {
  import opened GameTypes
  import opened Chains
  import opened Rules
  import opened Players

  /** The statistics rolled for one player. */
  datatype Roll = Roll(atk: int, def: int, luck: int)

  predicate ValidRolls(rs: seq<Roll>)
  {
    forall k :: 0 <= k < |rs| ==> IsD20(rs[k].atk) && IsD20(rs[k].def) && IsD20(rs[k].luck)
  }

  /** A player's statistics after the adjustment, and whether it took the
      UndiciVirgolaCinque option. */
  datatype Profile = Profile(atk: int, def: int, luck: int, undici: bool)

  const UNDICI_NAME := "UndiciVirgolaCinque"

  /** The adjustment switch: choice 1 and 2 move MODIFICA_ATTACCO_DIFESA between
      attack and defence, keeping the lowered one at least 1; choice 3, while
      available, adds the Undici bonuses and takes the luck malus (luck kept at
      least 1); any other choice, or 3 once taken, changes nothing. */
  function Adjust(r: Roll, choice: int, available: bool): (p: Profile)
    ensures p.atk + p.def >= r.atk + r.def
    ensures r.atk >= 1 && r.def >= 1 && r.luck >= 1 ==> p.atk >= 1 && p.def >= 1 && p.luck >= 1
  {
    match choice
    case 1 =>
      var d := r.def - MODIFICA_ATTACCO_DIFESA;
      Profile(r.atk + MODIFICA_ATTACCO_DIFESA, if d < 1 then 1 else d, r.luck, false)
    case 2 =>
      var a := r.atk - MODIFICA_ATTACCO_DIFESA;
      Profile(if a < 1 then 1 else a, r.def + MODIFICA_ATTACCO_DIFESA, r.luck, false)
    case 3 =>
      if available then
        var l := r.luck - MALUS_UNDICI_FORTUNA;
        Profile(r.atk + BONUS_UNDICI_ATTACCO, r.def + BONUS_UNDICI_DIFESA, if l < 1 then 1 else l, true)
      else Profile(r.atk, r.def, r.luck, false)
    case _ => Profile(r.atk, r.def, r.luck, false)
  }

  /** The profiles of all players, in order, the option becoming unavailable
      once somebody takes it. */
  function Roster(rs: seq<Roll>, choices: seq<int>, available: bool): (ps: seq<Profile>)
    requires |rs| == |choices|
    ensures |ps| == |rs|
    decreases |rs|
  {
    if |rs| == 0 then []
    else
      var p := Adjust(rs[0], choices[0], available);
      [p] + Roster(rs[1..], choices[1..], available && !p.undici)
  }

  /** The Undici option is taken only when available and chosen; choosing 1 or
      2 trades exactly MODIFICA_ATTACCO_DIFESA up to the clamp; luck changes
      only with the Undici option. */
  lemma AdjustEffect(r: Roll, choice: int, available: bool)
    ensures var p := Adjust(r, choice, available);
            && (p.undici <==> choice == 3 && available)
            && (choice == 1 ==> p.atk == r.atk + 3 && p.def == (if r.def > 3 then r.def - 3 else 1))
            && (choice == 2 ==> p.def == r.def + 3 && p.atk == (if r.atk > 3 then r.atk - 3 else 1))
            && (p.undici ==> p.atk == r.atk + 4 && p.def == r.def + 4 && p.luck == (if r.luck > 7 then r.luck - 7 else 1))
            && (!p.undici ==> p.luck == r.luck)
            && (choice !in {1, 2} && !p.undici ==> p == Profile(r.atk, r.def, r.luck, false))
  {
  }

  /** From d20 rolls every statistic ends between 1 and 24. */
  lemma AdjustBounds(r: Roll, choice: int, available: bool)
    requires IsD20(r.atk) && IsD20(r.def) && IsD20(r.luck)
    ensures var p := Adjust(r, choice, available);
            && 1 <= p.atk <= 24 && 1 <= p.def <= 24 && 1 <= p.luck <= 20
  {
  }

  function UndiciCount(ps: seq<Profile>): (n: nat)
    ensures n <= |ps|
  {
    if |ps| == 0 then 0 else (if ps[0].undici then 1 else 0) + UndiciCount(ps[1..])
  }

  /** At most one player becomes UndiciVirgolaCinque, and none once the option
      is gone. */
  lemma {:induction false} UndiciAtMostOnce(rs: seq<Roll>, choices: seq<int>, available: bool)
    requires |rs| == |choices|
    ensures UndiciCount(Roster(rs, choices, available)) <= (if available then 1 else 0)
    decreases |rs|
  {
    if |rs| > 0 {
      var p := Adjust(rs[0], choices[0], available);
      var tail := Roster(rs[1..], choices[1..], available && !p.undici);
      UndiciAtMostOnce(rs[1..], choices[1..], available && !p.undici);
      assert Roster(rs, choices, available) == [p] + tail;
      assert ([p] + tail)[1..] == tail;
    }
  }

  /** The roster read left to right: the profile of player i is the first of
      the roster of the remaining players. */
  lemma RosterStep(rs: seq<Roll>, choices: seq<int>, available: bool, i: nat)
    requires |rs| == |choices| && i < |rs|
    ensures Roster(rs[i..], choices[i..], available) ==
            [Adjust(rs[i], choices[i], available)] +
            Roster(rs[i + 1..], choices[i + 1..], available && !Adjust(rs[i], choices[i], available).undici)
  {
    assert rs[i..][1..] == rs[i + 1..];
    assert choices[i..][1..] == choices[i + 1..];
  }

  /** One more step of reading the roster left to right. */
  lemma RosterAdvance(rs: seq<Roll>, choices: seq<int>, available: bool, i: nat, made: seq<Profile>)
    requires |rs| == |choices| && i < |rs|
    requires made + Roster(rs[i..], choices[i..], available) == Roster(rs, choices, true)
    ensures var p := Adjust(rs[i], choices[i], available);
            (made + [p]) + Roster(rs[i + 1..], choices[i + 1..], available && !p.undici) == Roster(rs, choices, true)
  {
    RosterStep(rs, choices, available, i);
    var p := Adjust(rs[i], choices[i], available);
    var rest := Roster(rs[i + 1..], choices[i + 1..], available && !p.undici);
    assert (made + [p]) + rest == made + ([p] + rest);
  }

  /** A new player as imposta_gioco leaves it, for the given profile. */
  ghost predicate SetUp(player: Player, p: Profile, name: string)
    reads player, player.pack
  {
    && player.Valid()
    && player.Local() == PlayerView(MondoReale, NULL, NULL, p.atk, p.def, p.luck, PV_INIZIALI,
                                    [NessunOggetto, NessunOggetto, NessunOggetto])
    && player.name == (if p.undici then UNDICI_NAME else name)
  }

  /** imposta_gioco's player loop: one new player per name, with the rolled
      statistics adjusted as Roster says, the Undici name for the player who
      took that option, and everything else as a new Giocatore. */
  method CreatePlayers(names: seq<string>, rs: seq<Roll>, choices: seq<int>) returns (ps: seq<Player>)
    requires 1 <= |names| <= 4 && |rs| == |names| && |choices| == |names|
    ensures |ps| == |names|
    ensures forall k :: 0 <= k < |ps| ==> fresh(ps[k]) && fresh(ps[k].pack)
    ensures forall j, k :: 0 <= j < k < |ps| ==> ps[j] != ps[k] && ps[j].pack != ps[k].pack
    ensures forall k :: 0 <= k < |ps| ==> SetUp(ps[k], Roster(rs, choices, true)[k], names[k])
  {
    ghost var made: seq<Profile> := [];
    var available := true;
    ps := [];
    var i := 0;
    while i < |names|
      invariant 0 <= i <= |names| && |ps| == i && |made| == i
      invariant made + Roster(rs[i..], choices[i..], available) == Roster(rs, choices, true)
      invariant forall k :: 0 <= k < i ==> fresh(ps[k]) && fresh(ps[k].pack)
      invariant forall j, k :: 0 <= j < k < i ==> ps[j] != ps[k] && ps[j].pack != ps[k].pack
      invariant forall k :: 0 <= k < i ==> SetUp(ps[k], made[k], names[k])
    {
      RosterAdvance(rs, choices, available, i, made);
      var p := Adjust(rs[i], choices[i], available);
      var player := new Player(if p.undici then UNDICI_NAME else names[i], p.atk, p.def, p.luck);
      assert SetUp(player, p, names[i]);
      if p.undici {
        available := false;
      }
      made := made + [p];
      ps := ps + [player];
      i := i + 1;
    }
    assert made == Roster(rs, choices, true);
  }
}
