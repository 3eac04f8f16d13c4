# Cosestrane in Dafny

This is a model of the game library `gamelib.c` / `gamelib.h`. It is a turn-based
game for one to four players laid out on two parallel paths of zones:

- the **Mondo Reale**, whose zones carry an enemy and an item;
- the **Soprasotto**, whose zones carry an enemy and where the Demotorzone boss lives.

Each Mondo Reale zone is cross-linked to the Soprasotto zone at the same place.
The model covers:

- setting up the players and the map;
- editing, counting and closing the map;
- the player's actions: moving, crossing between worlds, picking up and using items;
- combat;
- the turn loop and the round scheduler of `gioca`.

## How the model is organised

| module | file | what it holds |
|---|---|---|
| `GameTypes` | `types.dfy` | The constants and enumerations of `gamelib.h`, and the zone payload records. |
| `Draws` | `draws.dfy` | The random-threshold mappings of the generators. Each takes the draw `rand() % 100` as input. Lemmas count how many of the 100 draws give each outcome. |
| `Chains` | `chains.dfy` | Doubly linked lists stored in an arena (a sequence of nodes, with `-1` as NULL). A ghost `order` lists the reachable nodes, and `Chain` ties the pointers to it. Splicing lemmas prove that the pointer writes of an insertion or a removal leave a well-formed list with the expected order. |
| `ZoneMap` | `zonemap.dfy` | The class `ZoneGraph`: the two lists, their heads and `mappa_chiusa`, updated in place. Its operations are specified through the zone sequences `Over()` and `Under()`. The error checks of the editing functions are written as verdict functions. |
| `Rules` | `rules.dfy` | The player actions as pure functions on a `PlayerView`: world, positions as places in the lists, statistics, pack. |
| `Combat` | `combat.dfy` | `combatti_nemico` as a step function over the menu choices and their dice. |
| `Players` | `players.dfy` | The class `Player` (the `Giocatore` record, with `zaino` as an array). Each method is proved to change the player's view exactly as the matching `Rules` or `Combat` function says. |
| `Turns` | `turns.dfy` | One player's turn: the action menu with its three flags, as a pure `Step` / `RunTurn`. The methods that run it on a `Player` and a `ZoneGraph` are proved equal to it. |
| `Shuffling` | `shuffle.dfy` | The swap shuffle of the turn order, as a function of the raw `rand()` values it consumes. |
| `Scheduler` | `scheduler.dfy` | The counting, collection, shuffle and copy loops of a round start, over arrays. Also the main loop of `gioca` and the whole session. |
| `Setup` | `setup.dfy` | The player phase of `imposta_gioco`: rolls, the adjustment menu, the Undici option taken at most once. |

What a method cannot know is passed in as a parameter:

- every `rand()` value: zone draws, enemy and item draws, the d20 rolls, the vanish coin, the shuffle's raw values;
- every `scanf` answer: menu choices, positions.

Some behaviours of the code worth noting, including places where it differs from its comments:

- **Defend** (combat choice 3) raises defence by `BONUS_DIFESA_TEMPORANEO` (5, where a comment says 3). It then falls through into item use and `continue`. So the enemy never counter-attacks after it, the pass never ends, and the bonus is never taken back.
- **Item bonuses** are the constants of `gamelib.h`:
  - Bicicletta: luck +3;
  - Maglietta Fuocoinferno: attack +5;
  - Bussola: luck +2;
  - Schitarrata Metallica: attack +3, defence +3.

  The comments next to `utilizza_oggetto`'s cases give other numbers.
- **The shuffle** draws each swap partner as `rand() % num_vivi_round`, over the whole range. It is not the Fisher–Yates shuffle the comment names.
- **A failed crossing** from the Soprasotto does not set `mossa_effettuata`. The player may roll again in the same turn.
- **A won fight** clears `nemico_presente` even when the coin leaves the enemy on the zone.
- **Every fight** starts the enemy at the full HP of its tier. An enemy beaten without vanishing stays on its zone, and a second fight against it in the same turn starts afresh.
- **Unreachable branches:**
  - The fight refusal right after a move (`gioca`, case 4) can never trigger, because such a move ends the turn.
  - The skip of a dead player in the round order cannot be reached either. Neither can the `idx_turno >= num_vivi_round` reset. The model proves the round order holds only living players from the current index on.

Outcomes that exist only because the model's input is finite:

- `Unfinished`: the moves of a fight ran out.
- `FightInterrupted`: the turn's actions ran out in the middle of a fight.
- `OutOfInput`: the session's actions or raw values ran out.

## Model

| member | source | states |
|---|---|---|
| GameTypes.KindOf | gamelib.h:65-76 | The cast of a code 0..9 to Tipo_zona is inverted by its code: the zone kind round-trips to the number it came from. |
| GameTypes.EnemyOf | gamelib.h:79-84 | The cast of a code 0..3 to Tipo_nemico round-trips to that code. |
| GameTypes.ItemOf | gamelib.h:87-93 | The cast of a code 0..4 to Tipo_oggetto round-trips to that code. |
| Draws.OverEnemyFromDraw | gamelib.c:138-148 | A Mondo Reale enemy is never the Demotorzone. |
| Draws.UnderEnemyFromDraw | gamelib.c:157-171 | A Soprasotto enemy is the Demotorzone exactly when it is forced, and is never a Billi. |
| Draws.OverEnemyDistribution | gamelib.c:138-148 | Of the 100 draws, 40 give no enemy, 30 a Democane, 30 a Billi and none the Demotorzone. |
| Draws.UnderEnemyDistribution | gamelib.c:157-171 | Unforced, 50 draws give no enemy and 50 a Democane; none gives a Billi or the Demotorzone. |
| Draws.ItemDistribution | gamelib.c:183-197 | Of the 100 draws, 50 give no item, 15 a Bicicletta, 15 a Maglietta, 10 a Bussola and 10 a Schitarrata. |
| Draws.ItemFromDraw | gamelib.c:183-197 | A draw gives no item exactly when it is below PROB_NESSUN_OGGETTO (50), and the Schitarrata Metallica exactly for the top ten draws. |
| Chains.ChainInsert | gamelib.c:412-428 | Linking a node in at place i of a well-formed list gives a well-formed list whose order has the new node at place i and is otherwise unchanged. |
| Chains.ChainRemove | gamelib.c:481-499 | Unlinking the node at place i of a well-formed list leaves a well-formed list whose order is the old one without place i. |
| ZoneMap.BossCountZero | gamelib.c:115-127 | The Demotorzone count is zero exactly when no Soprasotto zone holds the Demotorzone. |
| ZoneMap.InsertVerdict | gamelib.c:314-361 | An insertion succeeds exactly when the map is open, the position is in 1..zones+1, the kind in 0..9, the enemy in 0..2 and the item in 0..4. It never reports an empty map. |
| ZoneMap.DeleteVerdict | gamelib.c:442-466 | A deletion succeeds exactly when the map is open and the position is in 1..zones. It reports an empty map exactly when the map is open and has no zones. |
| ZoneMap.CloseVerdict | gamelib.c:620-642 | Closing succeeds exactly when there are at least ZONE_MINIME zones and exactly one Demotorzone. |
| ZoneMap.GeneratedMap | gamelib.c:245-302 | A generated map has ZONE_MINIME zones in each world, with partner zones of the same kind. The Demotorzone is at the boss index. The other Soprasotto zones hold no enemy or a Democane. No Mondo Reale zone holds the Demotorzone, and the Demotorzone count is one. |
| ZoneMap.GenOver | gamelib.c:271-273 | The Mondo Reale list has one zone per draw, of the drawn kind, and none of them holds the Demotorzone. |
| ZoneMap.GenUnder | gamelib.c:275-276 | The Soprasotto list has one zone per draw, of the same kind as its partner, with the Demotorzone exactly at the boss index. |
| ZoneMap.CloseAfterGenerate | gamelib.c:620-642 | A freshly generated map passes chiudi_mappa's checks. |
| ZoneMap.PairedInsert | gamelib.c:376-428 | Linking a new cross-linked pair in at the same place of both lists keeps them well formed, of equal length and cross-linked place by place. |
| ZoneMap.PairedRemove | gamelib.c:468-499 | Unlinking the pair at place i keeps the rest well formed and cross-linked. The removed nodes' neighbours are the ones at places i-1 and i+1. |
| ZoneMap.InsertKeepsBossCount | gamelib.c:382-383 | The Soprasotto zone that inserisci_zona adds never changes the Demotorzone count. |
| ZoneMap.DeleteBossCount | gamelib.c:481-502 | Deleting a zone lowers the Demotorzone count by one exactly when the deleted zone held it. |
| ZoneMap.ZoneGraph.constructor | gamelib.c:670-673 | A new map has both lists empty and is open. |
| ZoneMap.ZoneGraph.Clear | gamelib.c:207-223 | libera_mappe leaves both lists empty and the closed flag as it was. |
| ZoneMap.ZoneGraph.CountOver | gamelib.c:99-109 | The walk from the head counts exactly the Mondo Reale zones. |
| ZoneMap.ZoneGraph.CountBoss | gamelib.c:115-127 | The walk over the Soprasotto list counts exactly its Demotorzone zones. |
| ZoneMap.ZoneGraph.AppendPair | gamelib.c:284-299 | One loop pass of genera_mappa appends the new pair at the tail of both lists and keeps the map well formed. |
| ZoneMap.ZoneGraph.GeneratePair | gamelib.c:255-300 | After pass i the lists are the zones generated from the first i+1 draws. |
| ZoneMap.ZoneGraph.Generate | gamelib.c:245-302 | genera_mappa replaces both lists with the zones generated from the draws, in order. The facts of GeneratedMap therefore hold of the map. |
| ZoneMap.ZoneGraph.Neighbours | gamelib.c:404-410 | The walk stops at the zones just before and just after position pos in both lists. |
| ZoneMap.ZoneGraph.LinkPair | gamelib.c:387-428 | The new pair ends up at place pos-1 of both lists, and the other zones keep their order. |
| ZoneMap.ZoneGraph.Insert | gamelib.c:306-432 | The outcome is InsertVerdict's. On success both lists gain the new zones at place pos-1: the given kind, enemy and item above, and below a zone of the same kind with an unforced Soprasotto enemy. On any error nothing changes. |
| ZoneMap.ZoneGraph.UnlinkPair | gamelib.c:481-502 | The pair at place pos-1 leaves both lists, and the other zones keep their order. |
| ZoneMap.ZoneGraph.Delete | gamelib.c:435-505 | The outcome is DeleteVerdict's. On success both lists lose their zone at place pos-1. On any error nothing changes. |
| ZoneMap.ZoneGraph.Close | gamelib.c:620-650 | The outcome is CloseVerdict of the zone count and the Demotorzone count. The map becomes closed only on success. |
| ZoneMap.ZoneGraph.SetOverZone | gamelib.c:1034-1035 | Overwriting a Mondo Reale zone's payload changes that zone only and leaves both lists well formed. |
| ZoneMap.ZoneGraph.SetUnderZone | gamelib.c:1553-1557 | Overwriting a Soprasotto zone's payload changes that zone only and leaves both lists well formed. |
| Rules.EnemyHere | gamelib.c:1382-1394 | The enemy found on the player's zone is not NessunNemico exactly when ha_nemico_zona says there is one. |
| Rules.HasEnemy | gamelib.c:1145-1159 | An enemy is reported only when the player stands on a zone of its own world's list. |
| Rules.FirstFreeFrom | gamelib.c:1027-1039 | The slot found is the lowest empty slot, or -1 when every slot is taken. |
| Rules.BlockedStays | gamelib.c:1169-1174 | With an enemy on the zone, moving forward or back changes nothing. |
| Rules.Advance | gamelib.c:1162-1201 | avanza changes only the position in the player's own world, by zero or one place forward. World, statistics and pack stay as they were. |
| Rules.Retreat | gamelib.c:1204-1243 | indietreggia changes only the position in the player's own world, by zero or one place back. World, statistics and pack stay as they were. |
| Rules.AdvanceMoves | gamelib.c:1162-1201 | avanza moves exactly when no enemy blocks and a next zone exists. It then goes one place forward in the current world. |
| Rules.RetreatMoves | gamelib.c:1204-1243 | indietreggia moves exactly when no enemy blocks and a previous zone exists. It then goes one place back. |
| Rules.AdvanceThenRetreat | gamelib.c:1162-1243 | Moving forward and then back, with no enemy on the new zone, returns to the start. |
| Rules.RetreatThenAdvance | gamelib.c:1162-1243 | Moving back and then forward, with no enemy on the new zone, returns to the start. |
| Rules.MovesStayOnList | gamelib.c:1176-1200 | Moving keeps the world and keeps the position on its list. |
| Rules.Cross | gamelib.c:1246-1335 | cambia_mondo changes only the world and the positions. It reports a crossing exactly when the world changed, and a refused crossing leaves the player as it was. |
| Rules.CrossFromOver | gamelib.c:1254-1278 | From the Mondo Reale the crossing succeeds exactly when the player stands on a zone. It lands on the partner zone and clears the Mondo Reale position. |
| Rules.CrossFromUnder | gamelib.c:1280-1331 | From the Soprasotto the crossing succeeds exactly when the d20 is below luck. It lands on the partner zone and clears the Soprasotto position. |
| Rules.CrossFailureKeepsState | gamelib.c:1317-1334 | A failed crossing changes nothing. |
| Rules.CrossLuckExtremes | gamelib.c:1296 | With luck above 20 the escape always succeeds; with luck 1 or less it never does. |
| Rules.CrossAndBack | gamelib.c:1246-1335 | Crossing down and then back with a successful roll returns the player to the same place. |
| Rules.PickUp | gamelib.c:993-1047 | raccogli_oggetto changes only the pack's contents, never its size. The zone list keeps its length, and no zone changes kind or enemy. |
| Rules.PickUpTakes | gamelib.c:1027-1039 | When allowed, the item goes into the lowest empty slot and the zone is left without item. Nothing else of the player or of the zones changes. |
| Rules.PickUpRefused | gamelib.c:1002-1025 | Picking up changes nothing in these cases: in the Soprasotto, off the map, with an enemy on the zone, with no item here, or with a full pack. |
| Rules.PickUpConservesItems | gamelib.c:1034-1035 | The items of the pack and the zone together are the same before and after. |
| Rules.ApplyItem | gamelib.c:1099-1136 | An item's effect changes only attack, defence and luck, and never lowers any of them. NessunOggetto has no effect. |
| Rules.UseItem | gamelib.c:1050-1142 | utilizza_oggetto changes only attack, defence, luck and the pack's contents, never the pack's size, the HP or the position. |
| Rules.UseItemEffect | gamelib.c:1099-1136 | Using an item adds exactly the constant bonuses of gamelib.h for that item and empties exactly the chosen slot. HP and position do not change. |
| Rules.UseItemRefused | gamelib.c:1078-1091 | An out-of-range choice, the cancel choice or an empty slot changes nothing. |
| Rules.UseItemNeverLowers | gamelib.c:1099-1136 | Items only ever raise attack, defence or luck. |
| Rules.UseItemIgnoresPlace | gamelib.c:1050-1142 | Using an item neither reads nor changes the player's position. |
| Combat.FoeStatsOf | gamelib.c:1342-1365 | Each enemy tier gets its HP, attack and defence constants. Only NessunNemico gets zero HP. |
| Combat.PowerAttack | gamelib.c:1492 | The power attack is 1.5 times attack, truncated toward zero. |
| Combat.Damage | gamelib.c:1465-1467 | The damage is never negative, never below attack minus defence, and when positive it is exactly attack minus defence. |
| Combat.Exchange | gamelib.c:1463-1628 | An exchange changes only the player's HP, never raising it. A win leaves the player untouched, a loss leaves it with no HP, and a continued fight leaves both sides with HP, the enemy's never raised. |
| Combat.CombatStep | gamelib.c:1460-1516 | Only the two attacks can end the fight. Defend, item use and an invalid choice leave the enemy's HP alone. |
| Combat.Rounds | gamelib.c:1436-1632 | The combat loop never reports the no-enemy code. The enemy vanishes only after a win, and only with the coin. |
| Combat.Fight | gamelib.c:1368-1396 | combatti_nemico reports no enemy exactly when ha_nemico_zona finds none. The enemy vanishes only if there was one and the coin says so. |
| Combat.ClearOver | gamelib.c:1550-1557 | After a fight no Mondo Reale zone changes kind or item. An enemy can disappear only from the player's own zone, and nothing changes unless the enemy vanished. |
| Combat.ClearUnder | gamelib.c:1550-1557 | After a fight no Soprasotto zone changes kind. An enemy can disappear only from the player's own zone, and nothing changes unless the enemy vanished. |
| Combat.BasicAttackDamage | gamelib.c:1463-1477 | A basic attack deals (attack + d20) minus (defence + d20), floored at 0. If the enemy survives, it counter-attacks by the same rule. Defeat comes exactly when the player's HP reaches zero. |
| Combat.PowerStrikeCost | gamelib.c:1479-1501 | With HP at most COSTO_ATTACCO_POTENZIATO the power attack is refused and nothing changes. Otherwise it costs exactly that much HP and strikes with the power attack. |
| Combat.DefendIsFree | gamelib.c:1503-1514 | Defend is never answered by a counter-attack. It leaves both sides' HP alone and keeps the full defence bonus, plus whatever the item use after it gives. |
| Combat.StepMonotone | gamelib.c:1438-1612 | One pass never lowers a statistic, never raises the HP of either side and never moves the player. |
| Combat.StepIgnoresPlace | gamelib.c:1438-1612 | A pass neither reads nor changes the player's position. |
| Combat.RoundsOutcome | gamelib.c:1438-1632 | Defeat leaves the player with no HP, and a win with HP left. The win is a boss victory exactly against the Demotorzone. The enemy vanishes only after a win with the coin. No statistic drops and HP never rises. |
| Combat.CoinOnlyClears | gamelib.c:1550-1557 | The coin changes neither the player after the fight nor the outcome. |
| Combat.CoinDecidesVanish | gamelib.c:1522-1570 | The enemy vanishes exactly when it was beaten and the coin says so, and nothing else depends on the coin. |
| Combat.FightCodes | gamelib.c:1368-1633 | The result code is 0 exactly when there is no enemy, and then nothing happens. It is 2 exactly for a win over the Demotorzone, 1 for a win over a Billi or Democane, and -1 exactly on defeat. |
| Players.Player.constructor | gamelib.c:713-789 | A new player has the given name and statistics, PV_INIZIALI HP, no position in the Mondo Reale and an empty pack. |
| Players.Player.HasEnemy | gamelib.c:1145-1159 | ha_nemico_zona answers exactly what Rules.HasEnemy says of the player's view. |
| Players.Player.Foe | gamelib.c:1382-1394 | The enemy looked up is Rules.EnemyHere of the player's view. |
| Players.Player.Follow | gamelib.c:1177-1179 | One pointer step forward or back goes to the next or previous place of the list; at the end of the list it stays put, and NULL stays NULL. |
| Players.Player.Advance | gamelib.c:1162-1201 | The pointer update of avanza changes the player's view exactly as Rules.Advance, and the player stays on the map. |
| Players.Player.Retreat | gamelib.c:1204-1243 | The pointer update of indietreggia changes the player's view exactly as Rules.Retreat. |
| Players.Player.CrossWorld | gamelib.c:1246-1335 | cambia_mondo's result and new view are those of Rules.Cross for the given d20. |
| Players.Player.FreeSlot | gamelib.c:1027-1039 | The scan returns the lowest empty slot of the pack, or -1. |
| Players.Player.PickUp | gamelib.c:993-1047 | raccogli_oggetto changes the player and the Mondo Reale zones exactly as Rules.PickUp, and leaves the Soprasotto alone. |
| Players.Player.UseItem | gamelib.c:1050-1142 | utilizza_oggetto changes the player exactly as Rules.UseItem. |
| Players.Player.CombatPass | gamelib.c:1438-1629 | One pass of the combat loop on the player's fields is exactly Combat.CombatStep. |
| Players.Player.Battle | gamelib.c:1438-1630 | The combat loop against a tier yields the player and outcome of Combat.Rounds from full HP. |
| Players.Player.Fight | gamelib.c:1368-1633 | combatti_nemico yields the outcome, the player and the cleared zone of Combat.Fight. |
| Players.Player.RemoveEnemy | gamelib.c:1550-1557 | The beaten enemy leaves the player's own zone, in the player's world, and nothing else changes. |
| Players.Player.Place | gamelib.c:1667-1674 | The player stands on the first Mondo Reale zone, or nowhere if the map is empty, with statistics unchanged. |
| Setup.AdjustEffect | gamelib.c:740-778 | Choices 1 and 2 trade 3 defence for 3 attack or the reverse, keeping the lowered one at least 1. The Undici option is taken exactly when chosen and still available: +4 attack, +4 defence, luck -7 kept at least 1. Luck changes only then, and any other choice changes nothing. |
| Setup.Adjust | gamelib.c:740-778 | The adjustment never lowers attack plus defence. Statistics that start at least 1 stay at least 1. |
| Setup.AdjustBounds | gamelib.c:713-778 | From d20 rolls, attack and defence end in 1..24 and luck in 1..20. |
| Setup.UndiciAtMostOnce | gamelib.c:757-773 | At most one player becomes UndiciVirgolaCinque, and none once the option is gone. |
| Setup.CreatePlayers | gamelib.c:696-797 | One fresh, distinct player per name. Each starts in the Mondo Reale with no position, PV_INIZIALI HP, an empty pack, the statistics of its roster profile, and the name UndiciVirgolaCinque exactly when it took that option. |
| Turns.StartTurn | gamelib.c:1769-1772 | A turn starts playing, with no move made, and with nemico_presente as ha_nemico_zona reports it. |
| Turns.Step | gamelib.c:1777-1956 | One menu choice keeps the zone lists' lengths. The turn's move is spent only by a movement choice (1, 2 or 3), and a spent move is never given back. |
| Turns.RunTurn | gamelib.c:1777-1963 | The action loop keeps the zone lists' lengths, and a turn that has already ended keeps its status. |
| Turns.StepPlace | gamelib.c:1777-1963 | A step never undoes a move, and changes the player's place only as the turn's first move. |
| Turns.RefusedActions | gamelib.c:1872-1951 | A fight right after a move is refused. Passing succeeds exactly unless an enemy is on the zone and the player has not just moved there. A refused pass changes nothing. |
| Turns.MovesRefused | gamelib.c:1800-1870 | Movement is refused, with nothing changed, when an enemy is present or a move was already made. Crossing is refused likewise in the Mondo Reale with an enemy present. |
| Turns.FailedCrossingKeepsMove | gamelib.c:1844-1870 | A failed escape from the Soprasotto leaves the turn exactly as it was, so the move is still available. |
| Turns.StepSurvival | gamelib.c:1872-1925 | A player alive when an action starts is dead after it exactly when its status is Died. Death and the boss victory come only from fighting, and the boss victory only against the Demotorzone. |
| Turns.AtMostOneMove | gamelib.c:1777-1963 | A turn performs at most one movement, none if one was made already. Without a movement the player ends where it began. |
| Turns.TurnSurvival | gamelib.c:1777-1963 | A living player's turn ends with the player dead exactly when its status is Died. |
| Turns.EndedTurnStays | gamelib.c:1958-1962 | A turn that has ended takes no further action. |
| Turns.StepClears | gamelib.c:1777-1956 | A menu choice keeps every zone's kind and never adds or changes an enemy or a Mondo Reale item: an enemy may disappear and an item may be picked up, nothing else. |
| Turns.TurnClears | gamelib.c:1777-1963 | A whole turn likewise keeps every zone's kind and only takes enemies and items off the map, never adding or changing one. |
| Turns.ClearedEnemyWasThere | gamelib.c:1550-1557 | Because enemies only ever leave, an enemy standing on a zone now already stood there earlier. |
| Turns.BossTurn | gamelib.c:1892-1917 | A living player's turn that ends with the boss beaten ends on a zone where the Demotorzone stood at the start of the turn. |
| Turns.FreshFoeEachFight | gamelib.c:1382-1396 | An enemy beaten without vanishing stays on its zone and the turn goes on. Fighting it again in the same turn starts from the full HP of its tier, not from the HP the first fight left. |
| Turns.TakeAction | gamelib.c:1800-1956 | One menu choice on the player and the map is exactly Turns.Step. |
| Turns.StayAction | gamelib.c:1927-1956 | Choices 5 to 9 and invalid input act exactly as Turns.Step. |
| Turns.MoveAction | gamelib.c:1800-1842 | Choices 1 and 2 act exactly as Turns.Step. |
| Turns.CrossAction | gamelib.c:1844-1870 | Choice 3 acts exactly as Turns.Step. |
| Turns.FightAction | gamelib.c:1872-1925 | Choice 4 acts exactly as Turns.Step, including the zone cleared by the coin. |
| Turns.PlayTurn | gamelib.c:1769-1963 | The action loop leaves the player and the map as Turns.RunTurn from the turn's start says. It reports that turn's status and whether it ended. |
| Shuffling.Partner | gamelib.c:1727 | The swap partner is a valid index of the whole range. |
| Shuffling.Swap | gamelib.c:1728-1730 | The swap exchanges the two entries and leaves the others alone. |
| Shuffling.ShuffleFrom | gamelib.c:1726-1731 | The shuffle keeps the number of entries. ShufflePermutes proves it is a permutation. |
| Shuffling.ShufflePermutes | gamelib.c:1726-1731 | The shuffle's result is a permutation of its input. |
| Shuffling.PermutationDistinct | gamelib.c:1726-1731 | A permutation of a list without repetitions has none either, so nobody gets two turns in a round. |
| Scheduler.LivingSpec | gamelib.c:1718-1723 | The living list holds exactly the non-null entries, each once, in increasing order. |
| Scheduler.LivingEmpty | gamelib.c:1690-1696 | The living list is empty exactly when every player slot is null. |
| Scheduler.ShuffleOfLiving | gamelib.c:1713-1735 | A round's order holds each living player exactly once and nobody else. |
| Scheduler.CountLiving | gamelib.c:1690-1693 | The count is the number of living players. |
| Scheduler.CollectLiving | gamelib.c:1716-1723 | temp_idx receives the living indices in increasing order. |
| Scheduler.Shuffle | gamelib.c:1726-1731 | The in-place loop leaves temp_idx as the shuffle of its old contents and touches nothing past n. |
| Scheduler.CopyPrefix | gamelib.c:1733-1735 | ordine_turno receives a copy of temp_idx's first n entries. |
| Scheduler.StartRound | gamelib.c:1713-1742 | A round's order is the shuffle of the living indices. Each living player appears in it once, and nobody else. |
| Scheduler.RoundAdvance | gamelib.c:1964-1968 | After a turn, with or without the player removed, the rest of the round's order still names distinct living players. |
| Scheduler.PlaceAll | gamelib.c:1667-1674 | Every player present stands at the first Mondo Reale zone, with HP unchanged. |
| Scheduler.Seat | gamelib.c:1667-1674 | The placement establishes the main loop's invariant over the players. |
| Scheduler.TakeTurn | gamelib.c:1769-1963 | A living player's turn leaves the player and the map exactly as Turns.RunTurn from the turn's start says, and reports that run's status and whether it ended. The status is Died exactly when the player's HP reached zero. The map only loses enemies. A boss victory ends the turn on a zone where the Demotorzone stood when the turn began. |
| Scheduler.PlayerTurn | gamelib.c:1872-1917 | The player is removed from giocatori exactly when it died, and the rest of giocatori is unchanged. A boss victory leaves the winner present and alive, standing where the Demotorzone stood when the turn began. The map only loses enemies. |
| Scheduler.PickTurn | gamelib.c:1690-1750 | The session halts as all-dead exactly when nobody is left. A new round starts exactly at index 0 and consumes one raw value per living player. Otherwise the current player is the next in the round's order, and is alive. |
| Scheduler.TraceStep | gamelib.c:1892-1917 | After turns none of which beat the boss, one more turn keeps the session going only if it did not beat the boss. The session then ends with a winner exactly when that turn beat the boss. |
| Scheduler.SessionFacts | gamelib.c:1687-1969 | At the end, every remaining player is one of those who started, and anyone missing had died. The session ended all-dead exactly when nobody is left, and a boss winner is present and alive. |
| Scheduler.Iteration | gamelib.c:1687-1969 | One iteration keeps the main loop's invariant and plays at most one turn, consuming that turn's actions exactly when it plays one. The session goes on only after a turn that did not beat the boss. It ends with a boss win exactly when the turn played beat the boss, and the winner then stands where the Demotorzone stood when the session began. The map only loses enemies. |
| Scheduler.MainLoop | gamelib.c:1687-1969 | The main loop keeps its invariant and ends with the facts of EndFacts. statuses records how each turn played ended, at most one per turn of input. No turn but the last beat the boss, and the loop ends with a winner exactly when the last one did. The winner stands where the Demotorzone stood at the start, and the map only loses enemies. |
| Scheduler.Session | gamelib.c:1640-1970 | Without a setup, gioca plays no turn. Otherwise players only ever leave by dying, and the session ends all-dead exactly when nobody is left. A boss winner is present and alive, and every player left is on the map. statuses records how each turn played ended: no turn but the last beat the Demotorzone, and the session ends with a winner exactly when the last one did. The winner stands on a zone that held the Demotorzone when the session began, and the map only loses enemies. |

## Left out

- Output. The `printf` calls and the display functions (`stampa_mappa`, `stampa_zona`, `stampa_giocatore_info`, `stampa_zona_corrente` and the `*_to_string` helpers) only print, so they are not modelled.
- Input and randomness. `scanf`, `fgets` and `rand`/`srand` become parameters:
  - a non-number answer is the `Unknown` action or the invalid combat move;
  - `lancia_dado` is a d20 parameter (`IsD20`);
  - the generators take their `rand() % 100` draw as a parameter.
- Memory. `malloc`/`free` are not modelled, and neither are the out-of-memory branches of `genera_mappa`, `inserisci_zona` and `imposta_gioco`. Unlinked or cleared nodes stay in the arena, unreachable, in place of being freed.
- `libera_giocatori` is not modelled. A player that dies is set to null in `giocatori`.
- The menu loop of `imposta_gioco`. It dispatches to operations modelled one by one: creating the players, generating, inserting, deleting, printing and closing the map. The final `gioco_impostato = 1` and its resets in `gioca` are the `ready` parameter of `Scheduler.Session`.
- The file `main.c` is not part of this model. Neither are `termina_gioco`, `crediti`, or the bookkeeping of the last winners (`ultimo_vincitore`, `partite_giocate`), which only records names for printing.
- Name handling. `NOME_MAX` truncation of names and the trailing newline strip are not modelled: a name is any string.
- 32-bit integers. Statistics and HP are unbounded integers. HP only falls and stays small, and the item bonuses are bounded by the items on the map, each of which can be picked up once. Defence, however, can grow without limit: Defend (combat choice 3) adds 5 for good and is never answered, so it can be repeated indefinitely within one fight. The model does not capture the wrap of `difesa_psichica` at `INT_MAX`, which is undefined behaviour in C.
- Combat.PowerAttack: the `double` product `attack * 1.5` and its `(int)` cast are modelled as exact integer arithmetic truncating toward zero (`(3 * atk) / 2` rounded toward zero). No floating-point rounding is modelled.
- Finite input. A fight, a turn or a session whose input runs out ends with `Unfinished`, `FightInterrupted` or `OutOfInput`. The program itself would wait for more input.
