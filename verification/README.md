# domimpl in Dafny

A model of the league-implication tool `domimpl`. The tool keeps a results
matrix for one division: cell (a, b) holds the games player `a` won
against player `b`. From that matrix it can:

- find the unfinished pairings (`find_unfinished`, `find_player_unfinished`);
- rank the players (`winloss`): by win percentage, then wins, then fewer
  losses, then a head-to-head score computed recursively inside each group
  of equal percentage;
- build scenarios (`add_record`, `set_record`, and a player winning or
  losing all its remaining games);
- decide who is guaranteed promotion or demotion (`promoting`, `demoting`);
- search the tree of split results of the unfinished matches for everyone
  who could still promote or demote (`could_promote`, `could_demote`);
- tabulate, for every split of one pairing, who could then be demoted
  (`match_impl`).

A second part reads DomBot match reports such as `Alice 3.5–2.5 Bob` into
such a matrix (`from_DomBot_matches`).

The modules follow the program:

- `Results` holds the matrix, the unfinished matches and the scenario builders.
- `Ranking` holds `winloss`.
- `Guarantee` holds `promoting` and `demoting`.
- `Search` holds the imperative search and `match_impl`.
- `Ingest` holds the report reader.
- `Sorting` (a stable insertion sort over a total preorder) and `Common` are shared helpers.

Players are matrix indices in the analysis and strings in the reader.
Matrix entries are exact reals.

The search is written once, as `Search.Explore`, over an arbitrary
scenario-to-players function. `CouldReach` runs it with `promoting` or
`demoting`. `MatchImpl` runs it with `demoting`.

The search is specified by two functions on its state (cursor, stack,
players found): `Search.Run` is the list the `while` loop returns, and
`Search.Trace` is the sequence of scenarios it pops, each with the cursor
at that pop. The imperative `Explore` is proved to return `Run`, and to
return exactly the players named by some popped scenario. It also keeps a
ghost branch for every pop: which split of which unfinished match led from
the root to that scenario.

The `for p, r in unf` loop of the search consumes a single iterator over
the unfinished matches. The model therefore keeps one cursor into that list
for the whole search; the cursor is not reset for each popped scenario.

The `groupby` test at domimpl.py:88-89 pushes a match's scenarios, and
stops looking further, when every split gives the same guaranteed list.
This is the opposite of what the comment above it says. The model follows
the code (`Search.Settles`).

## Model

| member | source | states |
|---|---|---|
| Results.RowUnfinished | domimpl.py:12-13 | the matches of one row from a column on: exactly the cells with positive remaining count, with that count, in increasing column order |
| Results.UnfinishedFrom | domimpl.py:12-13 | the matches of the rows from `a` on: exactly the cells with positive remaining count, in row-major order |
| Results.FindUnfinished | domimpl.py:11-13 | every cell with a positive `ngames*triu - m - m.T` value is listed with that value, nothing else is, in row-major (stack) order |
| Results.UnfinishedArePairs | domimpl.py:11-13 | on a table each unfinished match is keyed (earlier, later) and carries the games left in the pairing; no pairing is listed twice; every open pairing is listed |
| Results.PositiveRemainingIsOpen | domimpl.py:12 | a positive remaining cell lies above the diagonal and equals the open games of the pairing, read either way |
| Results.Remaining | domimpl.py:12 | above the diagonal the remaining cell plus the pairing's two cells is `ngames`; on or below it a table gives no positive value |
| Results.OpenGames | domimpl.py:12 | the games left in a pairing, never negative; positive exactly when the players differ and the two cells sum to less than `ngames`, and then the three sum to `ngames` |
| Results.AsRowPlayer | domimpl.py:18 | `unf.loc[player]`: exactly the opponents q with a match keyed (p, q), with its count |
| Results.AsColumnPlayer | domimpl.py:19-20 | `unf.swaplevel().loc[player]`: exactly the opponents q with a match keyed (q, p) |
| Results.PlayerUnfinished | domimpl.py:16-21 | an opponent is listed exactly when one of the two cells of the pairing has a positive remaining count, with that count |
| Results.RemainingAgainst | domimpl.py:122 | the count listed for opponent q, or 0 when q is not listed |
| Results.RemainingAgainstIsOpenGames | domimpl.py:16-21 | on a table the count listed for q is exactly the games left in the pairing, 0 when none |
| Results.PlayerUnfinishedDistinct | domimpl.py:16-21 | on a table a player is never its own opponent, every listed count is the open games of that pairing, and no opponent is listed twice |
| Results.RowPlayersIncrease | domimpl.py:18 | from a row-major list, `unf.loc[player]` lists its opponents in strictly increasing order |
| Results.ColumnPlayersIncrease | domimpl.py:19-20 | from a row-major list, `swaplevel().loc[player]` lists its opponents in strictly increasing order |
| Results.OpponentSides | domimpl.py:18-20 | on a table the opponents from `unf.loc[player]` come after the player and those from the swapped index come before it |
| Results.AddRecord | domimpl.py:44-48 | (a, b) grows by `wa` and (b, a) by `wb`; when a == b only the second assignment counts; every other cell is unchanged |
| Results.SetRecord | domimpl.py:35-42 | corrected `set_record`: (a, b) becomes `wa`, (b, a) becomes `wb`, every other cell is unchanged |
| Results.SetRecordIsAddOfDifference | domimpl.py:35-48 | overwriting a pairing equals adding the differences with `add_record` |
| Results.SetRecordAsWritten | domimpl.py:35-42 | `set_record` as written: every cell of `resmat[~retmask] + newval[retmask]` is NaN |
| Results.SetRecordAsWrittenLosesRecord | domimpl.py:42 | on a 2x2 table the as-written result loses the stored value that the corrected one keeps |
| Results.WinsOut | domimpl.py:51-53 | row p gains the open games of each of p's pairings; every other cell is unchanged; the result is a table |
| Results.LosesOut | domimpl.py:56-58 | column p gains the open games of each of p's pairings; every other cell is unchanged |
| Results.ScenariosSettlePlayer | domimpl.py:50-58 | both scenarios credit exactly the counts `find_player_unfinished` lists, and afterwards p has no unfinished match |
| Results.CompletedPlayer | domimpl.py:16-21 | a player whose every pairing holds `ngames` games or more has no unfinished match |
| Results.SplitCount | domimpl.py:85 | `int(2*r+1)` is at least 1 |
| Results.SplitCountIsTruncation | domimpl.py:85 | the count equals the floor of `2r + 1` |
| Results.SplitCountBound | domimpl.py:85 | every tried `hw` gives the row player at most the `r` games left |
| Results.SplitCountOfHalves | domimpl.py:85 | with `r = k/2` exactly `k + 1` splits are tried |
| Results.Split | domimpl.py:85 | `add_record(check, a, b, hw/2, r - hw/2)` keeps the table square and its size |
| Results.SplitIsTable | domimpl.py:85 | every tried split is again a table (no negative cell) |
| Results.SplitCompletesPairing | domimpl.py:85 | every tried split of an open pairing completes it: its two cells sum to `ngames` and no game is left |
| Results.Splits | domimpl.py:85 | the `int(2r+1)` scenarios of one match, the k-th giving the row player k half-games |
| Ranking.AllPlayers | domimpl.py:30 | the index of the whole table: players 0 .. n-1 in order |
| Ranking.WinsAmong | domimpl.py:25 | the row sum over the sub-table's players: never negative on a table, 0 when the row is empty there |
| Ranking.LossesAmong | domimpl.py:26 | the column sum over the sub-table's players: never negative on a table, 0 when the column is empty there |
| Ranking.Pct | domimpl.py:27 | `wins / (wins + losses)`: missing (NaN) exactly when the player has no wins and no losses in the sub-table, otherwise between 0 and 1 |
| Ranking.RatioInUnit | domimpl.py:27 | a ratio of non-negative wins to wins plus losses lies between 0 and 1 |
| Ranking.MixedPcts | domimpl.py:28 | `pcts.unique().size > 1`: some two players of the sub-table have different percentages, which needs at least two players |
| Ranking.TiebreakScore | domimpl.py:28 | the `htoh` value: never negative on a table; when percentages differ it is present only for a player with a positive percentage |
| Ranking.WinOfDescribed | domimpl.py:28 | reading `win` by label from a frame that describes every player returns that player's row sum |
| Ranking.Group | domimpl.py:28 | `resmat.loc[pcts == pct, pcts == pct]`: exactly the players with that percentage; strictly fewer when some player has another |
| Ranking.GroupIsSmaller | domimpl.py:28 | with at least two distinct percentages every group is strictly smaller, so the recursion terminates |
| Ranking.OutranksAsymmetric | domimpl.py:31 | the descending sort key never puts two rows each before the other |
| Ranking.OutranksNegativelyTransitive | domimpl.py:31 | the sort key is negatively transitive |
| Ranking.RanksAtLeastIsTotalPreorder | domimpl.py:31 | sorting on `pct, win, neg_losses, htoh` descending (missing last) is a total preorder |
| Ranking.PlayersOf | domimpl.py:33 | `set_index('name')`: the players of the rows, in order |
| Ranking.WinOf | domimpl.py:28 | `winloss(...)['win']` read by label: some row's wins for that player, present whenever the player has a row |
| Ranking.WinLoss | domimpl.py:24-33 | a permutation of the sub-table's players, each row holding its row sum, column sum, percentage and head-to-head score, sorted by the ranking key |
| Ranking.StandingsOf | domimpl.py:25-30 | the unsorted frame: one row per player, in order, each with its statistics |
| Ranking.HeadToHead | domimpl.py:28 | the `htoh` column equals the reference `TiebreakScore`: total wins when all percentages agree, else wins inside the player's positive-percentage group, else missing |
| Ranking.PermutedPlayers | domimpl.py:31 | sorting rows permutes the players they hold |
| Ranking.Standings | domimpl.py:24-33 | `winloss(resmat)`: every player once, each row describing that player, sorted by the ranking key |
| Sorting.Insert | domimpl.py:31 | inserting into sorted rows keeps them sorted and adds exactly that row |
| Sorting.Sort | domimpl.py:31 | the result is sorted by the key and is a permutation of the input |
| Guarantee.TestScenario | domimpl.py:63 | the scenario is lose-out for a promotion and win-out for a demotion, and is a table |
| Guarantee.Secures | domimpl.py:63 | whether p is in the first (last) `nplayers` rows of its own test scenario: never with `nplayers` 0, always when `nplayers` covers the table |
| Guarantee.EveryPlayerStands | domimpl.py:63 | every player of the table has a row in `winloss` |
| Guarantee.Slots | domimpl.py:63 | `head(n)` / `tail(n)` holds min(n, rows) rows |
| Guarantee.Selected | domimpl.py:63 | the indices of the set flags, in strictly increasing order |
| Guarantee.SelectedMembers | domimpl.py:63 | an index is selected exactly when its flag is set |
| Guarantee.Guaranteed | domimpl.py:61-68 | `promoting`/`demoting` list players in index order, without repeats |
| Guarantee.GuaranteedMembers | domimpl.py:61-68 | p is listed exactly when p is among the first (last) `nplayers` rows of `winloss` of its own lose-out (win-out) scenario |
| Search.Resolve | domimpl.py:85 | the scenario a branch leads to is again a table when the root is |
| Search.ResolvePadded | domimpl.py:84-91 | passing over further matches leaves the scenario unchanged |
| Search.ChildIsPath | domimpl.py:84-90 | a child branch is a branch when its split is one of the match's |
| Search.ChildResolves | domimpl.py:84-90 | a child branch leads to `add_record` of its parent's scenario |
| Search.ChildStep | domimpl.py:84-90 | both of the above together |
| Search.SameOutcomePairwise | domimpl.py:88-89 | the `groupby` test holds exactly when every two scenarios give the same list |
| Search.SettlesMeans | domimpl.py:85-89 | a match settles exactly when every one of its `int(2r+1)` splits gives the list of the first; a match with less than half a game left always settles |
| Search.SettleAt | domimpl.py:84-91 | where the inner loop stops: after the first settling match from the cursor on, or at the end when none settles; every match consumed before the stop does not settle |
| Search.SettleAtSkips | domimpl.py:84-91 | starting past matches that do not settle does not change where the loop stops |
| Search.BranchStops | domimpl.py:84-91 | the cursor only moves forward; scenarios are pushed exactly when the loop stops on a settling match, and they are that match's splits; with nothing pushed every match was consumed |
| Search.BranchAfter | domimpl.py:84-91 | the loop's stop and flag determine the new cursor and the pushed scenarios |
| Search.FirstSettling | domimpl.py:84-91 | the inner loop computes `SettleAt`: it consumes matches up to and including the first that settles; every match consumed before it does not settle; without one it consumes them all |
| Search.NextBranch | domimpl.py:84-91 | the inner loop computes `Branch`: the cursor moves forward and stays in range; anything pushed is exactly the splits of the last match consumed |
| Search.SplitChildren | domimpl.py:85 | each pushed split is the scenario of a child branch one match longer |
| Search.PushSplits | domimpl.py:90 | pushing a settling match's splits keeps every pending scenario the result of a branch |
| Search.Fresh | domimpl.py:80 | the players of `promo` not yet in `players`, each once |
| Search.FreshKeepsDistinct | domimpl.py:80 | appending the fresh players keeps the list free of repeats |
| Search.AddNew | domimpl.py:80 | `players.extend(p for p in promo if p not in players)`: the old list followed by the fresh players; the old list is a prefix, no repeats, the members are the union; on an empty list the result is `promo` |
| Search.SearchOf | domimpl.py:72-91 | the search over a list of unfinished matches never moves its cursor back and pushes nothing without moving it |
| Search.Step | domimpl.py:77-91 | one pass of the `while` loop: the cursor stays in range and does not move back, and when it stays the stack shrinks |
| Search.Run | domimpl.py:72-93 | the list the search returns from a state: it extends the players found so far and adds no repeats |
| Search.Trace | domimpl.py:77-91 | the scenarios the search pops from a state, in order: at least one per scenario on the stack |
| Search.NamedByCons | domimpl.py:80 | a pop in front names a player when its outcome does or a later pop names it |
| Search.RunMembers | domimpl.py:77-93 | a player is returned exactly when it was already found or the outcome of some popped scenario lists it |
| Search.StackPopped | domimpl.py:77-78 | every scenario on the stack is popped later |
| Search.TopPushedPopped | domimpl.py:78-90 | every scenario pushed by the first pass is popped later |
| Search.PushedPopped | domimpl.py:78-90 | every scenario pushed after a pop whose outcome is short is popped after it |
| Search.PoppedOrigin | domimpl.py:72-90 | every popped scenario was on the stack at the start or was pushed after an earlier pop whose outcome was short |
| Search.PendingPop | domimpl.py:78 | popping keeps every pending scenario the result of a branch |
| Search.PendingPush | domimpl.py:90 | pushing children keeps every pending scenario the result of a branch |
| Search.SourcedAdd | domimpl.py:80 | players added from a scenario's outcome are credited to that scenario's branch |
| Search.Visit | domimpl.py:77-91 | one pass of the while loop: `players` gains the fresh players of the popped scenario's outcome; a short outcome moves the cursor and pushes as `Branch` says; otherwise nothing is pushed; the popped scenario is the result of a branch and the frontier invariant is kept |
| Search.StepOf | domimpl.py:77-91 | the state after `Visit` is the state after `Step` |
| Search.PopStep | domimpl.py:77-91 | resuming from a state pops its top scenario first and returns what resuming after that pass returns |
| Search.TracedSnoc | domimpl.py:78 | recording one more pop with the branch that leads to it keeps every recorded pop the result of its branch |
| Search.VisitedMembers | domimpl.py:80 | the players named by the pops are exactly those in the outcome of a visited branch |
| Search.Drain | domimpl.py:77-93 | the rest of the while loop returns what `Run` returns, and records a branch for every scenario `Trace` pops |
| Search.Explore | domimpl.py:72-93 | the search returns `Run` from the start state; a player is returned exactly when the outcome of some popped scenario lists it, and every popped scenario is the result of a branch, the first the root; no repeats; the root's outcome comes first; exactly that outcome when it already has `nplayers` players or nothing is unfinished |
| Search.CouldReach | domimpl.py:70-118 | `could_promote`/`could_demote`: the search's list exactly; a player is returned exactly when it is guaranteed in the scenario of some branch the search visits; the players guaranteed now come first; no repeats |
| Search.OutcomeDistinct | domimpl.py:61-68 | the outcome handed to the search never repeats a player |
| Search.OutcomeMembers | domimpl.py:61-68 | the search's outcome on a branch's scenario is `promoting`/`demoting` of it |
| Search.Report | domimpl.py:127-130 | one pass of the `match_impl` loop: the pairing's two cells and exactly the list the search returns on that scenario |
| Search.ReportsSnoc | domimpl.py:131 | appending a row for the next scenario keeps every row reporting its scenario |
| Search.ReportAll | domimpl.py:126-131 | one row per scenario, each holding the scenario's two cells of the pairing and exactly the list its demotion search returns |
| Search.MatchImpl | domimpl.py:120-133 | one row per split of the pairing's remaining games (counted with the default six); row k holds the cells after giving `a` k half-games and `b` the rest, and exactly the list `could_demote` returns on that scenario |
| Ingest.DigitValue | file_read.py:15-16 | a digit's value lies in 0..9 |
| Ingest.ScoreValue | file_read.py:15-16 | `float` of a score text lies in 0..9.9 and is the digit for a one-digit text |
| Ingest.NameRun | file_read.py:13 | the length of the longest prefix of `[\w ]` characters |
| Ingest.Score | file_read.py:13 | `\d(?:\.\d)?` followed by its stop character: the text read is a score and is what the input starts with |
| Ingest.Tail | file_read.py:13 | the rest of the pattern reads two scores and a name, and the name cannot be extended |
| Ingest.TailShape | file_read.py:13 | what `Tail` reads is exactly the input: space, score, en dash, score, space, name, rest |
| Ingest.Backtrack | file_read.py:13 | the greedy first group settles on the longest first name after which the rest matches; no match when none does |
| Ingest.ParseLine | file_read.py:13 | a match has two names and two scores within 0..9.9 |
| Ingest.NameRunIs | file_read.py:13 | a run of name characters that stops at j is measured as j |
| Ingest.NameRunAppend | file_read.py:13 | a name in front adds its length to the run |
| Ingest.ScoreRendered | file_read.py:13 | a score text followed by its stop character reads back |
| Ingest.TailRendered | file_read.py:13 | a rendered tail reads back |
| Ingest.RenderedLine | file_read.py:13 | in a rendered line the name run stops right after the first score's first digit |
| Ingest.BacktrackDrops | file_read.py:13 | first names that run into the score leave no room for the pattern |
| Ingest.BacktrackTakes | file_read.py:13 | a first name followed by a rendered tail is taken |
| Ingest.ParseRendered | file_read.py:13 | round trip: a rendered report, followed by anything that does not extend the second name, parses back to that report |
| Ingest.ParsedIsRendered | file_read.py:13 | converse: every line that parses is such a rendered report followed by such a rest |
| Ingest.ParseNeedsDash | file_read.py:13 | a line without an en dash never matches |
| Ingest.StrLeTotal | file_read.py:18 | Python string order is total |
| Ingest.StrLeTransitive | file_read.py:18 | Python string order is transitive |
| Ingest.StrLeAntisymmetric | file_read.py:18 | Python string order is antisymmetric |
| Ingest.StrLeIsTotalPreorder | file_read.py:18 | `sort_index` sorts by a total preorder |
| Ingest.ParseAll | file_read.py:12-13 | one parse per line |
| Ingest.ParseAllAt | file_read.py:12-13 | the k-th parse is the k-th line's match |
| Ingest.ParseAllSnoc | file_read.py:12-13 | one more line adds its match |
| Ingest.Credit | file_read.py:15-16 | `+=` on one cell, an absent cell counting as 0; every other cell is unchanged |
| Ingest.Get | file_read.py:18 | `fillna(0.)`: a cell's value, 0 when absent |
| Ingest.Credited | file_read.py:15-16 | the total credited to one cell by the lines: 0 when no line contributes to it, never negative when no score is |
| Ingest.AddLabel | file_read.py:15-16 | a defaultdict key is added once; the labels so far are kept |
| Ingest.Dedup | file_read.py:8 | the keys of the dict comprehension: each player once, nothing else |
| Ingest.Init | file_read.py:7-10 | the starting labels have no repeats |
| Ingest.Step | file_read.py:13-16 | one line raises `KeyError` exactly when it matches and names a player outside `players`, and the error names that player |
| Ingest.Tally | file_read.py:12-16 | the labels collected have no repeats |
| Ingest.TallyCells | file_read.py:15-16 | every cell is the sum of the contributions of the matching lines (repeats accumulate) |
| Ingest.StepCells | file_read.py:15-16 | one line adds its contribution to each cell |
| Ingest.TallyLabels | file_read.py:10-16 | without `players` the labels are exactly the names on matching lines, each once |
| Ingest.TallyPlayerLabels | file_read.py:7-8 | with `players` the labels stay the players |
| Ingest.AllNamedInLast | file_read.py:12-16 | every matching line names players exactly when the earlier lines and the last one do |
| Ingest.TallyKeyError | file_read.py:7-16 | with `players` the lines go through exactly when every matching line names only players; the error names a non-player |
| Ingest.TallyIgnoresNonMatching | file_read.py:14 | lines that do not match change nothing |
| Ingest.TallySnoc | file_read.py:12-16 | one more line is one more step |
| Ingest.TallyErrPersists | file_read.py:12-16 | once a `KeyError` is raised, later lines do not matter |
| Ingest.ToTable | file_read.py:18 | labels strictly increasing and a permutation of those collected; square cells; each cell is the collected value, absent cells 0 |
| Ingest.TableNames | file_read.py:18 | the table's labels are the collected labels |
| Ingest.TableCells | file_read.py:15-18 | every cell of the table is the sum over the matching lines |
| Ingest.TableOfLines | file_read.py:6-18 | the returned table: sorted labels that are the names on the lines (or the players), every cell the sum over the matching lines |
| Ingest.FromDomBotMatches | file_read.py:6-18 | the loop returns the `KeyError` of the first offending line, or else the sorted table of everything collected |

## Left out

- `img_draw.py`, `impl_text`, the module-level season script and the `repr` strings of `match_impl`: drawing and printing. `MatchImpl` returns the numbers and the list instead of their `repr`.
- Floating point: matrix entries and scores are exact reals, so `hw/2`, `wins/(wins+losses)` and `float("3.5")` are exact. A percentage with no games played is `None`, standing for NaN.
- Tables are assumed non-negative (`IsTable`). Every table the tool builds from reports or scenarios is.
- `\w` and `\d` are read over ASCII letters, digits and `_` only; Python's Unicode classes are wider.
- Strings are compared by code point, as Python does; there is no locale.
- Ranking.WinLoss: promises key order and a permutation, not pandas' placement of rows that tie on every key.
- Search.CouldReach: the result is characterised by the scenarios the search actually pops, as the code does it. It is not compared with every scenario reachable by splitting unfinished matches: the search only branches on matches whose splits all give the same list, so it does not visit them all.
- Search.Explore: the search is modelled over an arbitrary total scenario-to-players function. `Outcome` instantiates it with `promoting`/`demoting`, which only ever see tables.
- The `deque` is used only as a stack (`pop` from the right), so it is a sequence popped at its end.
- `pd.DataFrame.from_records` on the nested dict is a map keyed (row, column). `fillna(0.)` and the zero pre-set are both "an absent cell reads 0".

## Findings

| source | as written | input that shows it | evidently intended | confidence | as-written member | corrected member |
|---|---|---|---|---|---|---|
| domimpl.py:35-42 | `resmat[~retmask] + newval[retmask]` sums two frames. Each frame is NaN wherever its mask is false, so every cell of the sum is NaN. | the 2x2 table [[0,1],[2,0]] with `set_record(m, 0, 1, 3, 3)`: cell (0,1) comes out NaN | cells (a,b) and (b,a) replaced by the new values, every other cell kept | not executed | Results.SetRecordAsWrittenLosesRecord | Results.SetRecord |
