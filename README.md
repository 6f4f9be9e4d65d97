# TabletopGames core, modelled in Dafny

This project models five pieces of the TabletopGames framework (Java) and proves properties of them:

- **Descent turn order** (`descent_turn_order.dfy`, module `Descent`). Slot 0 is the overlord and slots 1 .. nPlayers-1 are the heroes.
  - `nextPlayer` alternates between the overlord and the next hero. From the overlord it advances the monster-group pointer; from a hero it advances the hero pointer.
  - `endPlayerTurn` counts turns and ends the round once every player and every monster group has acted. Otherwise it passes the turn on and skips players who are out, giving up and ending the game after `nPlayers` extra calls.
  - `endRound` resets every hero, every monster and the overlord, and zeroes the monster pointers.
  - `nextMonster`, `_reset` and `_copy` are modelled too.
  - The pure specification is the `Rotation` value with the functions `Advance` (one `nextPlayer`) and `Skip` (the skip loop). The imperative class methods are proved against them.
- **MAP-Elites elite map** (`map_elites.dfy`, module `MapElites`). This is a grid of cells, one per combination of behaviour-descriptor buckets.
  - `findIndex(behaviour, value)` buckets one behaviour value.
  - `findIndex(behaviours)` packs the bucket indexes into a cell index in mixed radix.
  - `findBehavioursByIndex` unpacks a cell index.
  - `addPoint` keeps the better of the old and new point in a cell.
  - `getBestOfSampled` returns the solution of the first strictly best cell.
  - The descriptor `TreeMap` is a sequence of `Descriptor`s in descending key order, the order of the `descendingKeySet()` loops of `findIndex` and `findBehavioursByIndex` (MapElites.java:151, 189, 201). The constructor's loop over `values()` visits them in ascending order, which only matters for the product it computes. Packing and unpacking are specified by `Encode`/`Decode`; both round trips are proved, and so is the round trip from a cell to its behaviours and back.
- **Catan settlement** (`settlement.dfy`, module `Catan`).
  - It upgrades once from settlement (1) to city (2).
  - Its id comes from a counter shared by all settlements. The Java `static` counter is an explicit `IdCounter` object.
  - It is copied through the constructor.
  - Equality compares ids only.
- **Terraforming Mars tag requirement** (`tag_requirement.dfy`, module `TerraformingMars`). The requirement is met by a non-null card that carries the tag. Equality compares the tag. The hash is `Objects.hash(tag)`.
- **Exploding Kittens observation printing** (`exploding_kittens.dfy`, module `ExplodingKittens`).
  - `printDeck` builds the comma-separated card-type names, with `UNKNOWN` for hidden cards, and drops the trailing comma.
  - `printToConsole` labels each hand `Player i:` and marks the observer's hand `>>> `.
  - Output is returned as a string instead of being written to the console.

`java_int.dfy` (module `JavaInt`) gives Java's truncating `/` and `%`. `wrappers.dfy` gives `Option`, which stands for a Java reference that may be `null`.

## Model

| member | source | states |
|---|---|---|
| JavaInt.Div | src/main/java/evaluation/optimisers/MapElites.java:196 | Java's `/` rounds toward zero: the quotient's sign follows the operands' signs. |
| JavaInt.Rem | src/main/java/evaluation/optimisers/MapElites.java:195 | Java's `%` takes the dividend's sign and is smaller than the divisor in magnitude. |
| JavaInt.DivRem | src/main/java/evaluation/optimisers/MapElites.java:195-196 | Java's quotient and remainder rebuild the dividend: `(a / b) * b + a % b == a`. |
| JavaInt.RotateInRange | src/main/java/games/descent2e/DescentTurnOrder.java:75-78 | The rotation `(n + x + 1) % n` of an in-range pointer is its successor modulo `n`, wrapping to 0 after `n - 1`. |
| Descent.DescentGameState.ResetFigures | src/main/java/games/descent2e/DescentTurnOrder.java:89-97 | The round resets happen in this order: every hero, then every monster group by group, then the overlord. |
| Descent.HeroResetsCount | src/main/java/games/descent2e/DescentTurnOrder.java:89-91 | The hero loop resets each hero exactly once, and no other figure. |
| Descent.HeroResetsAt | src/main/java/games/descent2e/DescentTurnOrder.java:89-91 | The hero loop resets the heroes in list order. |
| Descent.GroupResetsCount | src/main/java/games/descent2e/DescentTurnOrder.java:93-95 | For any figure: a group's loop resets each of its monsters exactly once, and no hero, no monster of another group and not the overlord. |
| Descent.MonsterResetsCount | src/main/java/games/descent2e/DescentTurnOrder.java:92-96 | For any figure: the group loops reset every monster of every group exactly once, and no hero and not the overlord. |
| Descent.RoundResetsOnce | src/main/java/games/descent2e/DescentTurnOrder.java:89-97 | For any figure: a round end resets every hero, every monster of every group and the overlord exactly once each, and no other figure. |
| Descent.Advance | src/main/java/games/descent2e/DescentTurnOrder.java:72-81 | From the overlord, the turn goes to hero `1 + heroPointer` and the hero pointer stays. From a hero, the turn goes to the overlord and the monster-group pointer stays. |
| Descent.AdvanceInRange | src/main/java/games/descent2e/DescentTurnOrder.java:72-81 | With an in-range hero pointer, the next owner is a valid slot and the hero pointer stays in range. From the overlord, a monster-group pointer that is in range moves to its successor modulo the group count. From a hero, the in-range hero pointer moves to its successor modulo the hero count. |
| Descent.OverlordHeroAlternation | src/main/java/games/descent2e/DescentTurnOrder.java:72-81 | Two hand-overs from the overlord give one hero a turn and return to the overlord, with both pointers advanced by one. |
| Descent.Skip | src/main/java/games/descent2e/DescentTurnOrder.java:59-67 | The skip loop ends holding a valid owner and an in-range hero pointer, with at most `nPlayers` extra calls. It ends the game exactly when it used all `nPlayers`; otherwise the owner is ongoing. |
| Descent.SkipEndsWhenNobodyOngoing | src/main/java/games/descent2e/DescentTurnOrder.java:59-67 | When no player is ongoing, the skip loop always ends the game. |
| Descent.SkipKeepsGameWhileOverlordOngoing | src/main/java/games/descent2e/DescentTurnOrder.java:59-67 | While the overlord is ongoing, the loop stops after at most one extra call and never ends the game. |
| Descent.SkipMayEndWithHeroOngoing | src/main/java/games/descent2e/DescentTurnOrder.java:59-67 | The bound counts calls, and every other call lands on the overlord. So with the overlord out, the game can end while a hero is ongoing, even with the turn on that hero. |
| Descent.DescentTurnOrder.constructor | src/main/java/games/descent2e/DescentTurnOrder.java:22-24 | A new turn order has the given player count and the three Descent pointers at 0. The superclass constructor is assumed to leave the turn counter and owner at 0 and the reactive queue empty. |
| Descent.DescentTurnOrder.Reset | src/main/java/games/descent2e/DescentTurnOrder.java:27-32 | `_reset` sets the three Descent pointers to 0. What `super._reset()` does first is not part of this model. |
| Descent.DescentTurnOrder.NextMonster | src/main/java/games/descent2e/DescentTurnOrder.java:46-48 | The monster pointer becomes `(size + m + 1) % size`. For an in-range pointer, that is its in-range successor modulo the group size. |
| Descent.DescentTurnOrder.NextPlayer | src/main/java/games/descent2e/DescentTurnOrder.java:71-81 | `nextPlayer` returns `Advance`'s owner and moves only the pointer `Advance` moves. It does not set the turn owner itself. |
| Descent.DescentTurnOrder.EndRound | src/main/java/games/descent2e/DescentTurnOrder.java:83-101 | After the superclass step, every figure is reset once (`RoundResetsOnce`), in order, and both monster pointers become 0. The hero pointer carries over. |
| Descent.DescentTurnOrder.EndPlayerTurn | src/main/java/games/descent2e/DescentTurnOrder.java:50-69 | Nothing changes unless the game is ongoing. Otherwise, at the end of the round the round ends; before it, the turn counter goes up and the owner and pointers are `Skip`'s result. The game becomes over exactly when `Skip` gives up, so either the game is over or the new owner is ongoing. |
| Descent.DescentTurnOrder.PassTurn | src/main/java/games/descent2e/DescentTurnOrder.java:57-67 | The owner and pointers end as `Skip` of the advanced rotation says, the game is ended exactly when `Skip` gives up, and otherwise the new owner is still in the game. |
| Descent.DescentTurnOrder.SkipRetired | src/main/java/games/descent2e/DescentTurnOrder.java:59-66 | The loop leaves the owner and pointers where `Skip` from the starting rotation ends, and ends the game exactly when `Skip` gives up after `nPlayers` moves. |
| Descent.DescentTurnOrder.Copy | src/main/java/games/descent2e/DescentTurnOrder.java:103-111 | The copy is a new object with the same player count, reactive queue and pointers. |
| MapElites.IntValue | src/main/java/evaluation/optimisers/MapElites.java:171-172 | `intValue()` truncates toward zero: the result lies within one of the value, on the zero side. |
| MapElites.FirstMatch | src/main/java/evaluation/optimisers/MapElites.java:169-180 | The scan returns the first matching bucket from `from` on, or the last bucket when none matches. |
| MapElites.Bucket | src/main/java/evaluation/optimisers/MapElites.java:167-181 | With no buckets the bucket is -1; otherwise it is valid. No earlier bucket matches, and it is a match, or the last bucket when none matches. |
| MapElites.NumericBucket | src/main/java/evaluation/optimisers/MapElites.java:169-174 | A number falls into the first bucket whose integer part is at least its own, or into the last bucket when it exceeds all of them. |
| MapElites.FindBucket | src/main/java/evaluation/optimisers/MapElites.java:167-181 | The loop returns exactly `Bucket`. |
| MapElites.ProdPositive | src/main/java/evaluation/optimisers/MapElites.java:94-97 | With positive bucket counts, the map size is positive. |
| MapElites.EncodeSumIsEncode | src/main/java/evaluation/optimisers/MapElites.java:156-163 | The source's running sum of index times the counts before it equals the mixed-radix encoding. |
| MapElites.EncodeZeroTail | src/main/java/evaluation/optimisers/MapElites.java:148-163 | The zero-filled array entries past the last descriptor do not change the cell. |
| MapElites.EncodeInRange | src/main/java/evaluation/optimisers/MapElites.java:156-164 | In-range bucket indexes give a cell of the grid: `0 <= cell < map size`. |
| MapElites.DecodeInRange | src/main/java/evaluation/optimisers/MapElites.java:194-197 | Unpacking a non-negative cell gives an in-range bucket index for every descriptor. |
| MapElites.DecodeEncode | src/main/java/evaluation/optimisers/MapElites.java:156-197 | Round trip: unpacking a packed cell gives back the bucket indexes. |
| MapElites.EncodeDecode | src/main/java/evaluation/optimisers/MapElites.java:156-197 | Round trip: packing the unpacked indexes of a grid cell gives back the cell. |
| MapElites.BucketIndexesAt | src/main/java/evaluation/optimisers/MapElites.java:151-155 | One bucket per descriptor, in descending key order: entry k is descriptor k's `Bucket` of its behaviour. |
| MapElites.CellIndexInRange | src/main/java/evaluation/optimisers/MapElites.java:147-165 | With at least one bucket value per descriptor, any comparable behaviours fall into a cell of the grid, missing ones included. |
| MapElites.BehavioursAtKeys | src/main/java/evaluation/optimisers/MapElites.java:198-204 | The rebuilt behaviour map has exactly the descriptors' names as keys. |
| MapElites.BehavioursAtLookup | src/main/java/evaluation/optimisers/MapElites.java:200-204 | In the rebuilt behaviour map, each descriptor's name maps to the bucket value its index selects. |
| MapElites.BucketOfOwnValue | src/main/java/evaluation/optimisers/MapElites.java:167-181 | When a descriptor's bucket values are numbers with strictly increasing integer parts (`intValue()`), or distinct other values, each value falls into its own bucket. |
| MapElites.CellOfBehavioursAt | src/main/java/evaluation/optimisers/MapElites.java:147-206 | Round trip: the behaviours `findBehavioursByIndex` gives for a cell fall back into that cell under `findIndex`. This needs each descriptor to have self-bucketing values. |
| MapElites.BestIndex | src/main/java/evaluation/optimisers/MapElites.java:106-113 | The scan yields -1 exactly when no value exceeds `-Double.MIN_VALUE`. Otherwise it yields the first index of the maximum, which is above that bound. |
| MapElites.ToReals | src/main/java/evaluation/optimisers/MapElites.java:137 | The point is converted element-wise from `int` to `double`. |
| MapElites.EliteMap.constructor | src/main/java/evaluation/optimisers/MapElites.java:91-101 | There is one cell per bucket combination, so the map size is the product of the bucket counts. Every cell is empty with value 0. |
| MapElites.EliteMap.BucketArrays | src/main/java/evaluation/optimisers/MapElites.java:148-155 | The first loop of `findIndex` fills each descriptor's bucket and count, and leaves the rest of the arrays 0. |
| MapElites.PackIndex | src/main/java/evaluation/optimisers/MapElites.java:156-164 | The nested loop computes the mixed-radix encoding of the arrays. |
| MapElites.EliteMap.FindIndex | src/main/java/evaluation/optimisers/MapElites.java:147-165 | `findIndex(behaviours)` is the encoding of the per-descriptor buckets. |
| MapElites.EliteMap.LengthsArray | src/main/java/evaluation/optimisers/MapElites.java:187-192 | It gives the bucket counts in descending key order. |
| MapElites.DecodeArray | src/main/java/evaluation/optimisers/MapElites.java:194-197 | The remainder/quotient loop computes `Decode` with Java's `%` and `/`. |
| MapElites.EliteMap.FindBehavioursByIndex | src/main/java/evaluation/optimisers/MapElites.java:183-206 | For any cell whose decoded bucket indexes are non-negative, the indexes are in range and the map holds each descriptor's selected bucket value. |
| MapElites.EliteMap.BehavioursMap | src/main/java/evaluation/optimisers/MapElites.java:199-204 | The map-building loop yields `BehavioursAt` of the descriptors and the decoded indexes. |
| MapElites.DecodeBelow | src/main/java/evaluation/optimisers/MapElites.java:194-197 | Whatever the cell's sign, Java's remainder keeps every decoded bucket index below its bucket count. |
| MapElites.NegativeCellExample | src/main/java/evaluation/optimisers/MapElites.java:194-197 | Cell -6 with bucket counts 3 and 2 decodes to buckets 0 and 0. |
| MapElites.EliteMap.AddPoint | src/main/java/evaluation/optimisers/MapElites.java:134-140 | Only the behaviours' cell changes. It takes the point when it was empty or the new performance is strictly greater; a filled cell keeps the maximum. Filled cells never empty or lose value. |
| MapElites.EliteMap.GetBestOfSampled | src/main/java/evaluation/optimisers/MapElites.java:104-115 | The result is the solution at `BestIndex`, which may be a `null` cell. It is an index error when no value exceeds the bound. In a valid map whose elites all score below zero and that has an empty cell, the result is `null`. |
| MapElites.EliteMap.BestCell | src/main/java/evaluation/optimisers/MapElites.java:106-113 | The scan finds `BestIndex`: the first strictly greatest value above `-Double.MIN_VALUE`, or -1 when there is none. |
| MapElites.BestIsEmptyCellWhenElitesNegative | src/main/java/evaluation/optimisers/MapElites.java:104-115 | Empty cells keep 0.0, so while every elite is negative and there is an empty cell, the result is the first empty cell's `null`, despite `@NotNull`. |
| Catan.Settlement.constructor | src/main/java/games/catan/components/Settlement.java:9-13 | A new settlement has type 1, the given owner and the counter's value as id. The counter goes up by one. |
| Catan.Settlement.Upgrade | src/main/java/games/catan/components/Settlement.java:15-21 | A settlement becomes a city and the call returns true. Any other type is unchanged and the call returns false. Owner and id never change. |
| Catan.Settlement.SetOwner | src/main/java/games/catan/components/Settlement.java:27-29 | Only the owner changes. |
| Catan.Settlement.Equals | src/main/java/games/catan/components/Settlement.java:47-55 | Settlements are equal exactly when the other is not `null` and has the same id, regardless of owner or type. |
| Catan.Settlement.Copy | src/main/java/games/catan/components/Settlement.java:40-45 | The copy is a new object with the same owner, type and id, equal both ways. It still uses up one counter value. |
| Catan.BuildTwo | src/main/java/games/catan/components/Settlement.java:6-13 | Successive constructions get consecutive ids, so they are never equal. |
| Catan.UpgradeTwice | src/main/java/games/catan/components/Settlement.java:15-21 | A second upgrade after a successful one fails and changes nothing. |
| Catan.EqualityIgnoresOwnerAndType | src/main/java/games/catan/components/Settlement.java:27-55 | Re-owning or upgrading does not change whether two settlements are equal. |
| TerraformingMars.TestCondition | src/main/java/games/terraformingmars/rules/TagOnCardRequirement.java:17-23 | True exactly when the card is not `null` and carries the tag. So `null` and a card with no tags fail. |
| TerraformingMars.HasTagIgnoresOrderAndDuplicates | src/main/java/games/terraformingmars/rules/TagOnCardRequirement.java:19-22 | Only the set of tags matters: neither order nor duplicates do. |
| TerraformingMars.HasTagMonotone | src/main/java/games/terraformingmars/rules/TagOnCardRequirement.java:19-22 | Adding tags anywhere on a card never makes a met requirement fail. |
| TerraformingMars.Equals | src/main/java/games/terraformingmars/rules/TagOnCardRequirement.java:29-35 | Requirements are equal exactly when the other is not `null` and has the same tag. |
| TerraformingMars.Wrap32 | src/main/java/games/terraformingmars/rules/TagOnCardRequirement.java:39 | Java `int` arithmetic: the result is in the `int` range and congruent to the exact value modulo 2^32. An in-range value is unchanged. |
| TerraformingMars.HashCode | src/main/java/games/terraformingmars/rules/TagOnCardRequirement.java:37-40 | The hash is `31 + hash(tag)` in `int` arithmetic. |
| TerraformingMars.EqualsHashCode | src/main/java/games/terraformingmars/rules/TagOnCardRequirement.java:29-40 | Equal requirements have equal hash codes. |
| TerraformingMars.EqualsSymmetric | src/main/java/games/terraformingmars/rules/TagOnCardRequirement.java:29-35 | Equality is symmetric. |
| TerraformingMars.CopyBehavesAlike | src/main/java/games/terraformingmars/rules/TagOnCardRequirement.java:25-40 | A copy equals the original, hashes the same and meets the same cards. |
| ExplodingKittens.Entries | src/main/java/games/explodingkittens/ExplodingKittenObservation.java:49-53 | One entry per card, in list order: the type name, or `UNKNOWN` for a `null` card. |
| ExplodingKittens.TerminatedIsJoin | src/main/java/games/explodingkittens/ExplodingKittenObservation.java:49-56 | Entries each followed by a comma are the comma-joined entries plus one trailing comma. |
| ExplodingKittens.PrintDeck | src/main/java/games/explodingkittens/ExplodingKittenObservation.java:46-58 | The deck line is the entries joined by single commas, with no trailing comma. No cards give the empty line. |
| ExplodingKittens.SplitJoin | src/main/java/games/explodingkittens/ExplodingKittenObservation.java:54-56 | Round trip: for at least one entry, when no entry contains a comma, splitting the joined line at commas gives back the entries. |
| ExplodingKittens.DeckLineFields | src/main/java/games/explodingkittens/ExplodingKittenObservation.java:46-58 | For at least one card, when no card name contains a comma, a deck line splits into exactly one field per card, in order. |
| ExplodingKittens.NatToString | src/main/java/games/explodingkittens/ExplodingKittenObservation.java:33-35 | A player number renders as a non-empty string of decimal digits with no leading zero. |
| ExplodingKittens.NatToStringValue | src/main/java/games/explodingkittens/ExplodingKittenObservation.java:33-35 | The digits read back as the player number. |
| ExplodingKittens.LabelMarksCurrent | src/main/java/games/explodingkittens/ExplodingKittenObservation.java:32-35 | A hand's line starts with `>>> ` exactly when it is the observer's hand. The marked label is the plain `Player i:` behind the marker. |
| ExplodingKittens.HandLines | src/main/java/games/explodingkittens/ExplodingKittenObservation.java:31-37 | One line per hand among the first k, in order: line i is hand i's label, then its visible cards' deck line. |
| ExplodingKittens.OnlyObserverMarked | src/main/java/games/explodingkittens/ExplodingKittenObservation.java:30-44 | Among all printed lines, the only marked one is the observer's hand; the pile lines never are. |
| ExplodingKittens.PrintToConsole | src/main/java/games/explodingkittens/ExplodingKittenObservation.java:30-44 | The output is the hand lines, then the draw pile and discard pile lines, each ended by a newline. |

## Left out

- The superclass internals of the turn order are not part of this model: `ReactiveTurnOrder`, `TurnOrder`, `super._reset`, `super.endRound`, and the reactive-player queue's own behaviour. `EndRound` takes the outcome of `super.endRound` as its `base` input.
- What `Figure.resetRound`, `Monster.resetRound` and the overlord's reset do inside a figure is not part of this model; each call is recorded as an event in `resetLog`.
- Descent.DescentTurnOrder.EndPlayerTurn: the model demands at least one monster group whenever the turn passes on. The source only fails, dividing by zero, when the turn passes on from the overlord with no groups. It also demands `nPlayers >= 2` and an in-range hero pointer, where the source fails only on some paths.
- Descent.DescentTurnOrder.NextMonster and Descent.DescentTurnOrder.NextPlayer: division by zero is a precondition, not a modelled exception.
- Descent.DescentTurnOrder.Copy: `_copy` builds through the superclass constructor, which is not part of this model. The model assumes that constructor leaves the turn counter and owner at 0, so the copy's are 0. Nothing is claimed about the superclass's copy logic.
- Java's 32-bit `int` overflow is not modelled anywhere except `TerraformingMars.HashCode`. This covers the turn counter, the map size product, the cell index sums, `intValue()` saturation for doubles and wrapping for longs, and the settlement counter.
- MapElites: doubles are modelled as exact reals, so NaN, infinities and rounding are not modelled. `-Double.MIN_VALUE` is the exact value -2^-1074.
- MapElites: behaviour values are numbers (`Number(x)`, whose `intValue()` is truncation) or other values compared by equality. Java's `equals` on exotic classes is not modelled.
- MapElites: descriptor keys and their descending order are taken as given; the `TreeMap`'s string ordering itself is not modelled.
- MapElites.Bucket: for a numeric behaviour, the source casts each bucket value it scans to `Number`, so it fails only if the scan reaches a non-numeric value before a match. The model requires every bucket value to be numeric for a numeric behaviour. It therefore excludes descriptors the source handles when a numeric bucket earlier in the list matches: buckets [5, "x"] with value 3 give 0 in the source.
- MapElites.EliteMap.FindIndex: the model requires the behaviour map to have at least as many entries as there are descriptors, and at least one. With fewer, the source runs off its arrays.
- MapElites.EliteMap.BucketArrays: the source fills the bucket-index and bucket-count arrays in a single loop. The model fills them in two loops, `IndexesArray` and `PaddedLengths`, with the same result.
- MapElites.EliteMap.FindBehavioursByIndex: the model requires a non-empty bucket list for each descriptor, where the source divides by zero instead. It also requires that every decoded bucket index is non-negative, where the source raises an array-index exception instead. Every non-negative cell meets that requirement (`DecodeInRange`), and so do some negative ones (`NegativeCellExample`). The only caller, `logResults`, passes cells from 0 to the map size.
- MapElites.EliteMap.AddPoint: the cell must lie inside the map, where the source would raise an index exception. `CellIndexInRange` shows this always holds for comparable behaviours when every descriptor has a bucket value.
- `MapElites.runTrial`, `logResults`, `getRandomElite`, the `LandscapeModel` plumbing (`getBestSolution`, `getSearchSpace`, the unused `addPoint(double[], double)`, `getExplorationEstimate`) and the `SearchSpace` are not modelled. They involve randomness, evaluation of games by code outside the model, console output, or are stubs.
- Settlement: the getters `getOwner`, `getType` and `getID` are plain field reads. `clone` is `copy`.
- Settlement: the static counter is shared by every settlement of the program. The model passes it explicitly as an `IdCounter` object, so callers must pass the one shared counter.
- TerraformingMars: the tag enumeration is the type parameter `Tag`, and its `hashCode` is a caller-supplied function. It is identity-based in Java, so it is not fixed by the program.
- TerraformingMars: a `null` required tag is not modelled (under `Objects.hash` a `null` element contributes 0, so the hash would be 31).
- TerraformingMars: `TMCard` is reduced to its tag list.
- ExplodingKittens: which cards of a hand or pile are visible to the observer (`getVisibleComponents`, `getComponents`) and each card type's name (`toString`) are inputs. `System.out` is replaced by the returned string.
- ExplodingKittens: player numbers are non-negative, as the loop index is, so only non-negative decimal rendering is modelled.
- ExplodingKittens: `println` ends each line with `System.lineSeparator()`. The model always uses "\n".
