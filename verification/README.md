# Dynasty expansion draft: a verified model of `simulate_and_draft`

This project models the allocation core of the dynasty-league expansion
draft simulator: the function `simulate_and_draft` in `app.py`, and the
small loop of the settings sidebar that completes the per-position cap table.

The core has two stages.

- **Protection and loss partitioner** (`partition.dfy`, module `Partition`).
  For each existing team (owner), in roster-map order, it works out:
  - the protected list: the owner's override, or else the first
    `max_protect` roster players, cut to `max_protect` either way;
  - the exposed candidates: the roster players not protected, in roster order;
  - the losses: candidates grouped by position (`id_to_pos`, defaulting to
    `"UNK"`) in first-seen order, each group cut to its cap. A position with
    no cap loses its whole group.

  The losses of all owners, concatenated in owner order, form the pool.
- **Draft allocator** (`allocation.dfy`, module `Allocation`). The pool is cut
  to `num_teams * picks_per_team` players. Those are dealt to the teams
  "Expansion Team 1" .. "Expansion Team N":
  - a linear draft gives pick `idx` to team `idx % N`;
  - a snake draft ("Snake") reverses the team order in odd rounds.

`simulation.dfy` (module `Simulation`) puts the two stages together as
`SimulateAndDraft`, including the name lookups `id_to_name[p]`. Those lookups
raise `KeyError` on an id without a name; the model returns that error with
the first failing id, in the order the source evaluates them. `seqs.dfy`
(module `Seqs`) holds the Python list idioms the core uses: prefix slicing,
filtered comprehensions and `reversed`. `examples_partition.dfy` proves two
worked partitions on literal rosters.

The source's loops are methods proved against specification functions:
- `Partition.GroupByPosition` and `Partition.OwnerLosses` against
  `FirstSeen`, `Group` and `Losses`;
- `Allocation.Allocate` against `PicksOf`;
- `Simulation.BreakDownAll` against `Pool` and the lookup trace;
- `Simulation.DraftStage` against `Names`, `Take` and `PicksOf`.

The lemmas about those functions carry the promised properties.

Modelling choices:
- Ids, owners, positions, names and team labels are strings.
- The roster dict is a sequence of `(owner, ids)` entries with distinct owners.
- `max_protect`, the caps, `num_teams` and `picks_per_team` are any
  naturals, except that `num_teams` and `picks_per_team` are at least 1
  (`idx % num_teams` needs `num_teams >= 1`). This is a superset of what the
  settings widgets allow (`app.py:78-88`), which also set upper bounds; the
  model does not impose those bounds.

Two behaviours of the code that are easy to miss:
- A missing name is fatal. `id_to_name[p]` (`app.py:45-46`, `52`) raises
  `KeyError` for an id without a name; it does not substitute a placeholder.
- Only the sidebar applies the "other positions" cap. Inside
  `simulate_and_draft`, a position absent from `pos_caps` is uncapped. The
  sidebar loop (`app.py:89-92`) gives that cap only to positions that occur
  as values of `id_to_pos`. So, as long as no listed player has the position
  "UNK", players missing from `id_to_pos` (position "UNK") stay uncapped
  (`Partition.UnknownPositionUncapped`). If some listed player is at "UNK",
  that position gets the "other" cap like any other, and the unlisted
  players are capped with it.

## Model

| member | source | states |
|---|---|---|
| Seqs.Take | app.py:51 | `s[:n]` has length min(n, len(s)) and is a prefix of `s` |
| Seqs.Filter | app.py:33 | a filtered comprehension is never longer than its input |
| Seqs.FilterAccepted | app.py:33 | every item a filtered comprehension keeps passes its condition |
| Seqs.FilterSnoc | app.py:33 | proof step (one unfolding of the definition): one more input item is kept at the end exactly when it passes |
| Seqs.FilterCount | app.py:33 | filtering keeps every occurrence of an accepted item and drops every occurrence of a rejected one |
| Seqs.FilterAppend | app.py:33 | filtering distributes over concatenation, so kept items stay in input order |
| Seqs.FilterAll | app.py:33 | a list whose items all pass is kept whole |
| Seqs.FilterNone | app.py:33 | a list none of whose items pass filters to nothing |
| Seqs.Reversed | app.py:60 | `list(reversed(s))` has the length of `s`, and item i is item len-1-i of `s` |
| Seqs.FlattenSplit | app.py:31-48 | concatenating per-owner lists can be split at any owner |
| Partition.PosOf | app.py:38 | `id_to_pos.get(pid, "UNK")`: the listed position, or "UNK" for an unlisted id |
| Partition.Protected | app.py:32 | at most `max_protect` ids are protected; with no override they are the roster's first min(max_protect, len) ids; with an override, the override's first min(max_protect, len) ids |
| Partition.Candidates | app.py:33 | the roster ids not in the protected list, in roster order |
| Partition.CandidatesExact | app.py:33 | a protected id is never a candidate; every other roster id is one, exactly as often as the roster lists it |
| Partition.CandidatesKeepOrder | app.py:33 | candidates keep roster order: the candidates of a split roster are those of each part, in order |
| Partition.FirstSeen | app.py:36-39 | the keys of `by_pos` never repeat a position |
| Partition.FirstSeenMembers | app.py:36-39 | a position is a key of `by_pos` exactly when some candidate has it |
| Partition.FirstSeenOrder | app.py:36-40 | the keys of `by_pos` follow the roster: for keys i < j, every candidate at key j has an earlier candidate at key i |
| Partition.Group | app.py:37-39 | `by_pos[pos]`: the candidates at `pos`, in roster order |
| Partition.Cap | app.py:41 | `pos_caps.get(pos, len(pids))`: the position's cap, or the group size when it has none |
| Partition.Slice | app.py:41-42 | `pids[:cap]`: the first `cap` players of the position's group |
| Partition.SlicesIn | app.py:40-42 | the slices of the given positions, concatenated in that order |
| Partition.Losses | app.py:35-42 | one owner's `losses`: the slices of the `by_pos` keys, in first-seen order |
| Partition.FirstSeenSnoc | app.py:37-39 | proof step (one unfolding of the definition): one more candidate adds its position at the end of the key order exactly when the position is new |
| Partition.SliceAtPos | app.py:40-42 | every player lost from position p's slice is at position p |
| Partition.SlicesInAtPos | app.py:40-42 | over distinct positions, the players at p among the concatenated slices are p's slice when p is listed, else none |
| Partition.PerPositionCap | app.py:40-42 | at position p an owner loses exactly the first min(cap, group size) players of p's group, in roster order; an uncapped position loses its whole group |
| Partition.UnseenGroupEmpty | app.py:36-39 | a position no candidate has has no group |
| Partition.LossesAreCandidates | app.py:35-42 | every loss is a candidate, and no player is lost more often than it is a candidate |
| Partition.OwnerLossesBound | app.py:32-42 | an owner loses only unprotected roster players, none more often than the roster lists it |
| Partition.Pool | app.py:29-48 | `pool`: every owner's losses, concatenated in roster-map order |
| Partition.PoolStep | app.py:48 | proof step (one unfolding of the definition): each owner's losses are appended at the end of the pool |
| Partition.EmptyRosterLosesNothing | app.py:31-48 | an empty roster loses nothing, and protects nothing unless an override says otherwise |
| Partition.EmptyRostersEmptyPool | app.py:31-48 | when every roster is empty, the pool is empty |
| Partition.GroupSnoc | app.py:37-39 | one more candidate joins the end of its own position's group and changes no other group |
| Partition.GroupingNew | app.py:37-39 | `setdefault(...).append` with a new position keeps the table in step: the position is appended to the key order with a one-player group |
| Partition.GroupingKnown | app.py:37-39 | `setdefault(...).append` with a known position keeps the table in step: the key order is unchanged and the player is appended to its group |
| Partition.GroupByPosition | app.py:36-39 | the loop builds `by_pos`: keys in first-seen order, each with exactly its candidates in roster order |
| Partition.OwnerLosses | app.py:35-42 | the loops produce exactly the owner's losses: capped group prefixes in first-seen position order |
| Partition.SlicesInStep | app.py:40-42 | proof step (one unfolding of the definition): each position of the table order appends its capped slice to the losses |
| Partition.PositionCaps | app.py:89-92 | the cap table holds the four named caps unchanged, plus the "other" cap for every other position in the position table, and no other key |
| Partition.SettingsCapsBound | app.py:89-92 | with the settings' cap table, a known position without a named cap loses at most the "other" cap |
| Partition.UnknownPositionUncapped | app.py:89-92 | with the settings' cap table, players the position table does not know are all lost when exposed (unless a known player is listed at "UNK") |
| PartitionExamples.OneOfEachPositionLost | app.py:31-48 | roster A,B (RB), C (WR), D (QB), one protection and caps of 1: A is protected and B, C, D are lost |
| PartitionExamples.LossesGroupedByFirstSeenPosition | app.py:36-42 | roster A (RB), C (WR), B (RB), nothing protected, no caps: losses are A, B, C (grouped by position, not roster order) |
| Allocation.Target | app.py:57-63 | every pick goes to a valid team index |
| Allocation.RoundOrder | app.py:58-63 | a linear draft runs teams 1..N in every round; a snake draft runs 1..N in even rounds and N..1 in odd rounds |
| Allocation.Slots | app.py:57-64 | the indices into the draft pool whose pick goes to team t, in increasing order |
| Allocation.PicksOf | app.py:56-64 | `picks_by_team_ids[teams[t]]`: the draft-pool players whose pick goes to team t, in pool order |
| Allocation.SlotsExact | app.py:57-64 | a pick index is in a team's slots exactly when it is within the pool and targets that team |
| Allocation.SlotsIncreasing | app.py:57-64 | a team receives its picks in increasing pool order |
| Allocation.PicksAtSlots | app.py:57-64 | team t receives exactly the pool players at its slots, in slot order |
| Allocation.PicksOfSnoc | app.py:64 | proof step (one unfolding of the definition): one more pool player extends only its target team's list |
| Allocation.PicksAddUp | app.py:57-64 | every pick goes to exactly one team: the teams' pick counts add up to the pool size |
| Allocation.SlotsWithinRound | app.py:57-63 | within a round each team picks once, at its turn |
| Allocation.TargetIsTurn | app.py:57-63 | pick j of a round goes to team t exactly when j is t's turn in that round |
| Allocation.SlotsFullRounds | app.py:57-63 | after r full rounds every team has exactly r picks |
| Allocation.SlotsMonotone | app.py:57-64 | a longer pool never gives a team fewer picks |
| Allocation.PicksPerTeamBound | app.py:50-64 | a pool of at most N*k players gives each team at most k; a pool of exactly N*k gives each exactly k |
| Allocation.DraftWithinCapacity | app.py:50-64 | a pool of at most N*k players gives no team more than k picks |
| Allocation.SnakeExample | app.py:57-64 | snake draft of p1..p4 to two teams: team 1 gets p1, p4 and team 2 gets p2, p3 |
| Allocation.Decimal | app.py:55 | the numeral is non-empty, has several digits exactly for n >= 10, and ends with the last digit of n |
| Allocation.DecimalDistinct | app.py:55 | different numbers have different numerals |
| Allocation.TeamLabel | app.py:55 | `f"Expansion Team {i+1}"` for team index i |
| Allocation.TeamLabelsDistinct | app.py:55 | no two expansion teams share a label |
| Allocation.TeamLabels | app.py:55 | there are N team labels and they are pairwise distinct |
| Allocation.DealOne | app.py:64 | dealing pick idx appends the player to its target team only |
| Allocation.TotalPicksCountsSlots | app.py:56-64 | the players held by the first m teams are the slots of those teams |
| Allocation.PickingTeam | app.py:58-63 | the team chosen through `order[idx % N]`, with `order` reversed in odd snake rounds, is team `Target(idx)` |
| Allocation.Allocate | app.py:55-64 | the dict has exactly the N labels as keys; team t's list is `PicksOf(pool, t)`; the lists add up to the pool size; an empty pool leaves every list empty |
| Simulation.Names | app.py:45-46 | the lookups succeed exactly when every id has a name; they then give each id's name in order; otherwise they report an id without a name all of whose predecessors have one |
| Simulation.FirstMissingCons | app.py:45-46 | a first missing id after a named id is the first missing id of the longer list |
| Simulation.NamesAppend | app.py:44-52 | looking up a + b fails at a's first missing id, else at b's, else yields both name lists joined |
| Simulation.DraftPool | app.py:50-51 | the draft pool is the pool's prefix of length min(N*k, pool size) |
| Simulation.Lookups | app.py:31-47 | the ids the owner loop looks up, in evaluation order: each owner's protected ids, then its losses |
| Simulation.TracePrefix | app.py:31-47 | proof step (one unfolding of the definition): the lookups of the first i owners are the first i owner entries |
| Simulation.FailsInPrefix | app.py:31-52 | a lookup failure among the first owners is the failure of the whole run, whatever follows |
| Simulation.FailsEarly | app.py:31-52 | a failure among the first i owners' lookups is the run's failure |
| Simulation.LookupsStep | app.py:44-47 | each owner adds the protected ids, then the losses, to the lookup trace |
| Simulation.BreakDownOwner | app.py:32-47 | one owner's losses; its breakdown holds the names of its protected and lost players, or the first missing-name error among them |
| Simulation.ListsOwnersStep | app.py:44 | proof step (one unfolding of the definition): assigning `breakdown[owner]` keeps the keys equal to the owners seen so far |
| Simulation.NamesOwnersStep | app.py:44-47 | assigning a new owner's entry leaves the earlier owners' entries intact |
| Simulation.BreakDownAll | app.py:31-48 | the owner loop fails exactly when some owner lookup fails, with the first failing id; otherwise it returns the pool and a breakdown with one entry per owner, holding that owner's names |
| Simulation.DraftStage | app.py:50-64 | the stage fails with the first draft-pool id without a name; otherwise it gives the names of `pool[:N*k]` in order and a complete draft of those ids |
| Simulation.SimulateAndDraft | app.py:25-66 | the run fails exactly when a lookup in evaluation order fails, with the first failing id; otherwise every lookup succeeds, the breakdown names every owner's protected and lost players, the draft pool names are those of the pool's prefix, and the draft is complete: every team label maps to its `PicksOf`, no team gets more than `picks_per_team`, and the lists add up to the draft pool size |

## Left out

- `load_league_rosters`: the HTTP fetch, JSON decoding and caching of roster and player data. Its result is a parameter here.
- The Streamlit page: widgets, tables, CSV export and formatting of the returned structures. The widgets' bounds are not modelled: the parameters range over all naturals, as described above.
- `app.py` has no manual-protection count check and no AI-suggestion path, so neither is part of this model.
- Simulation.SimulateAndDraft: the breakdown is a map, so the insertion order of the source's `breakdown` dict (roster-map order) is not carried in the result. The pool and the draft follow roster-map order.
- Simulation.SimulateAndDraft: a roster map with repeated owners cannot arise from a Python dict, so the model requires distinct owners.
- Partition.PositionCaps: the loop visits the positions of the set in an unspecified order. Its result does not depend on that order, and the contract states the final table only.
- Names are not rendered. The model returns the name sequences the source builds, not any textual output.
