/**
 * `simulate_and_draft` as a whole: the partitioner run once per owner in
 * roster-map order, the pool cut to the number of expansion picks, the
 * draft, and the player-name projections the source builds on the way.
 */
module Simulation {
  import opened Seqs
  import opened Partition
  import opened Allocation

  type Name = string

  /**
   * The outcome of code that looks names up with `id_to_name[p]`: the value,
   * or the `KeyError` of the first id that had no name.
   */
  datatype Result<T> = Success(value: T) | KeyError(missing: PlayerId)

  /** What the breakdown shows for one owner: protected and lost players, by name. */
  datatype OwnerBreakdown = OwnerBreakdown(protected: seq<Name>, losses: seq<Name>)

  /**
   * What a simulation returns: the breakdown per owner, the draft pool by
   * name, and each expansion team's picks (player ids) under its label.
   */
  datatype Outcome = Outcome(
    breakdown: map<OwnerId, OwnerBreakdown>,
    draftPool: seq<Name>,
    picksByTeam: map<string, seq<PlayerId>>)

  // ---------------------------------------------------------------------
  // Name projection
  // ---------------------------------------------------------------------

  /** Every id in `ids` has a name. */
  predicate AllNamed(ids: seq<PlayerId>, idToName: map<PlayerId, Name>)
  {
    forall i :: 0 <= i < |ids| ==> ids[i] in idToName
  }

  /** `names` lists the names of `ids`, position by position. */
  predicate NamedAs(ids: seq<PlayerId>, idToName: map<PlayerId, Name>, names: seq<Name>)
  {
    |names| == |ids| && forall i :: 0 <= i < |ids| ==> ids[i] in idToName && names[i] == idToName[ids[i]]
  }

  /** `p` is the first id in `ids` without a name. */
  predicate FirstMissing(ids: seq<PlayerId>, idToName: map<PlayerId, Name>, p: PlayerId)
  {
    exists i :: 0 <= i < |ids| && ids[i] == p && p !in idToName && AllNamed(ids[..i], idToName)
  }

  lemma FirstMissingCons(ids: seq<PlayerId>, idToName: map<PlayerId, Name>, p: PlayerId)
    requires |ids| > 0 && ids[0] in idToName && FirstMissing(ids[1..], idToName, p)
    ensures FirstMissing(ids, idToName, p)
  {
    var i :| 0 <= i < |ids| - 1 && ids[1..][i] == p && p !in idToName && AllNamed(ids[1..][..i], idToName);
    assert ids[..i + 1] == [ids[0]] + ids[1..][..i];
    assert ids[i + 1] == p;
  }

  /**
   * `[id_to_name[p] for p in ids]`: the names of `ids` in order, or a
   * `KeyError` for the first id without a name.
   */
  function Names(ids: seq<PlayerId>, idToName: map<PlayerId, Name>): (r: Result<seq<Name>>)
    ensures r.Success? <==> AllNamed(ids, idToName)
    ensures r.Success? ==> NamedAs(ids, idToName, r.value)
    ensures r.KeyError? ==> FirstMissing(ids, idToName, r.missing)
  {
    if ids == [] then Success([])
    else if ids[0] !in idToName then KeyError(ids[0])
    else
      match Names(ids[1..], idToName)
      case KeyError(p) =>
        FirstMissingCons(ids, idToName, p);
        KeyError(p)
      case Success(rest) => Success([idToName[ids[0]]] + rest)
  }

  /** Looking up `a + b` raises at the first missing id of `a`, else of `b`, else yields both name lists. */
  lemma {:induction false} NamesAppend(a: seq<PlayerId>, b: seq<PlayerId>, idToName: map<PlayerId, Name>)
    ensures Names(a + b, idToName)
            == match Names(a, idToName)
               case KeyError(p) => KeyError(p)
               case Success(x) =>
                 match Names(b, idToName)
                 case KeyError(p) => KeyError(p)
                 case Success(y) => Success(x + y)
  {
    if a == [] {
      assert a + b == b;
      assert Names(a, idToName) == Success([]);
      match Names(b, idToName) {
        case KeyError(p) =>
        case Success(y) => assert [] + y == y;
      }
    } else {
      assert (a + b)[0] == a[0] && (a + b)[1..] == a[1..] + b;
      NamesAppend(a[1..], b, idToName);
      if a[0] in idToName {
        var first := [idToName[a[0]]];
        match Names(a[1..], idToName) {
          case KeyError(p) =>
          case Success(x) =>
            match Names(b, idToName) {
              case KeyError(p) =>
              case Success(y) => assert first + (x + y) == (first + x) + y;
            }
        }
      }
    }
  }

  // ---------------------------------------------------------------------
  // The whole run, as values
  // ---------------------------------------------------------------------

  /** The roster map has each owner once, as a dict's keys are. */
  predicate DistinctOwners(rosters: seq<Roster>)
  {
    forall i, j :: 0 <= i < j < |rosters| ==> rosters[i].owner != rosters[j].owner
  }

  /** The pool cut to `totalPicks` entries; the rest is not drafted. */
  function DraftPool(rules: Rules, rosters: seq<Roster>, totalPicks: nat): (r: seq<PlayerId>)
    ensures |r| == Min(totalPicks, |Pool(rules, rosters)|)
    ensures r == Pool(rules, rosters)[..|r|]
  {
    Take(Pool(rules, rosters), totalPicks)
  }

  /** The ids the owner loop looks up for one owner: protected players first, then losses. */
  function Entry(rules: Rules, roster: Roster): seq<PlayerId>
  {
    ProtectedFor(rules, roster) + LossesFor(rules, roster)
  }

  /** The ids the owner loop looks up, owner by owner. */
  function Trace(rules: Rules, rosters: seq<Roster>): (r: seq<seq<PlayerId>>)
    ensures |r| == |rosters|
  {
    seq(|rosters|, i requires 0 <= i < |rosters| => Entry(rules, rosters[i]))
  }

  /** Every id whose name the owner loop looks up, in the order it looks them up. */
  function Lookups(rules: Rules, rosters: seq<Roster>): seq<PlayerId>
  {
    Flatten(Trace(rules, rosters))
  }

  /** The owner traces of a prefix of the roster map are a prefix of its traces. */
  lemma TracePrefix(rules: Rules, rosters: seq<Roster>, i: nat)
    requires i <= |rosters|
    ensures Trace(rules, rosters[..i]) == Trace(rules, rosters)[..i]
  {
  }

  /** A lookup that fails in the first `i` traces fails every longer lookup with the same id. */
  lemma {:induction false} FailsInPrefix(trace: seq<seq<PlayerId>>, i: nat, rest: seq<PlayerId>,
                                         idToName: map<PlayerId, Name>)
    requires i <= |trace|
    requires Names(Flatten(trace[..i]), idToName).KeyError?
    ensures Names(Flatten(trace) + rest, idToName) == Names(Flatten(trace[..i]), idToName)
  {
    FlattenSplit(trace, i);
    var head, tail := Flatten(trace[..i]), Flatten(trace[i..]);
    assert Flatten(trace) + rest == head + (tail + rest);
    NamesAppend(head, tail + rest, idToName);
  }

  /** A lookup that fails in the first `i` owners fails the whole run with the same id. */
  lemma FailsEarly(rules: Rules, rosters: seq<Roster>, i: nat, rest: seq<PlayerId>,
                   idToName: map<PlayerId, Name>)
    requires i <= |rosters|
    requires Names(Lookups(rules, rosters[..i]), idToName).KeyError?
    ensures Names(Lookups(rules, rosters) + rest, idToName) == Names(Lookups(rules, rosters[..i]), idToName)
  {
    TracePrefix(rules, rosters, i);
    FailsInPrefix(Trace(rules, rosters), i, rest, idToName);
  }

  /** One more owner's lookups extend the trace: protected players first, then losses. */
  lemma LookupsStep(rules: Rules, rosters: seq<Roster>, i: nat)
    requires i < |rosters|
    ensures Lookups(rules, rosters[..i + 1]) == Lookups(rules, rosters[..i]) + Entry(rules, rosters[i])
  {
    var before, after := Trace(rules, rosters[..i]), Trace(rules, rosters[..i + 1]);
    assert after[..i] == before;
  }

  // ---------------------------------------------------------------------
  // The run as the source performs it
  // ---------------------------------------------------------------------

  /** The breakdown has an entry for each owner of the roster map and for nobody else. */
  ghost predicate ListsOwners(rosters: seq<Roster>, breakdown: map<OwnerId, OwnerBreakdown>)
  {
    forall o :: o in breakdown <==> exists i :: 0 <= i < |rosters| && rosters[i].owner == o
  }

  /** Each owner's entry holds the names of their protected and lost players. */
  ghost predicate NamesOwners(rules: Rules, rosters: seq<Roster>, idToName: map<PlayerId, Name>,
                              breakdown: map<OwnerId, OwnerBreakdown>)
  {
    forall i :: 0 <= i < |rosters| ==>
      && rosters[i].owner in breakdown
      && Names(ProtectedFor(rules, rosters[i]), idToName) == Success(breakdown[rosters[i].owner].protected)
      && Names(LossesFor(rules, rosters[i]), idToName) == Success(breakdown[rosters[i].owner].losses)
  }

  /** The breakdown lists each owner of the roster map once, with the names of their protected and lost players. */
  ghost predicate BrokenDown(rules: Rules, rosters: seq<Roster>, idToName: map<PlayerId, Name>,
                             breakdown: map<OwnerId, OwnerBreakdown>)
  {
    ListsOwners(rosters, breakdown) && NamesOwners(rules, rosters, idToName, breakdown)
  }

  /**
   * One pass of the owner loop: the owner's protected list and losses, and
   * their names, or the `KeyError` of the first of them without a name.
   */
  method BreakDownOwner(rules: Rules, roster: Roster, idToName: map<PlayerId, Name>)
    returns (r: Result<OwnerBreakdown>, losses: seq<PlayerId>)
    ensures losses == LossesFor(rules, roster)
    ensures r.KeyError? <==> Names(Entry(rules, roster), idToName).KeyError?
    ensures r.KeyError? ==> Names(Entry(rules, roster), idToName) == KeyError(r.missing)
    ensures r.Success? ==>
              && Names(ProtectedFor(rules, roster), idToName) == Success(r.value.protected)
              && Names(LossesFor(rules, roster), idToName) == Success(r.value.losses)
  {
    var protected := Protected(roster.ids, rules.overrides, roster.owner, rules.maxProtect);
    losses := OwnerLosses(roster.ids, protected, rules.idToPos, rules.posCaps);
    NamesAppend(protected, losses, idToName);
    var protectedNames := Names(protected, idToName);
    if protectedNames.KeyError? {
      return KeyError(protectedNames.missing), losses;
    }
    var lossNames := Names(losses, idToName);
    if lossNames.KeyError? {
      return KeyError(lossNames.missing), losses;
    }
    r := Success(OwnerBreakdown(protectedNames.value, lossNames.value));
  }

  /**
   * The owner loop: breaks every roster down in roster-map order and pools
   * the losses, or stops at the first `KeyError`.
   */
  method BreakDownAll(rules: Rules, rosters: seq<Roster>, idToName: map<PlayerId, Name>)
    returns (r: Result<map<OwnerId, OwnerBreakdown>>, pool: seq<PlayerId>)
    requires DistinctOwners(rosters)
    ensures r.KeyError? <==> Names(Lookups(rules, rosters), idToName).KeyError?
    ensures r.KeyError? ==> Names(Lookups(rules, rosters), idToName) == KeyError(r.missing)
    ensures r.Success? ==> pool == Pool(rules, rosters) && BrokenDown(rules, rosters, idToName, r.value)
  {
    var breakdown: map<OwnerId, OwnerBreakdown> := map[];
    pool := [];
    for i := 0 to |rosters|
      invariant pool == Pool(rules, rosters[..i])
      invariant Names(Lookups(rules, rosters[..i]), idToName).Success?
      invariant BrokenDown(rules, rosters[..i], idToName, breakdown)
    {
      var entry, losses := BreakDownOwner(rules, rosters[i], idToName);
      LookupsStep(rules, rosters, i);
      NamesAppend(Lookups(rules, rosters[..i]), Entry(rules, rosters[i]), idToName);
      if entry.KeyError? {
        FailsEarly(rules, rosters, i + 1, [], idToName);
        assert Lookups(rules, rosters) + [] == Lookups(rules, rosters);
        return KeyError(entry.missing), pool;
      }
      ListsOwnersStep(rosters, i, breakdown, entry.value);
      NamesOwnersStep(rules, rosters, i, idToName, breakdown, entry.value);
      PoolStep(rules, rosters, i);
      breakdown := breakdown[rosters[i].owner := entry.value];
      pool := pool + losses;
    }
    assert rosters[..|rosters|] == rosters;
    r := Success(breakdown);
  }

  lemma ListsOwnersStep(rosters: seq<Roster>, i: nat, breakdown: map<OwnerId, OwnerBreakdown>,
                        entry: OwnerBreakdown)
    requires i < |rosters|
    requires ListsOwners(rosters[..i], breakdown)
    ensures ListsOwners(rosters[..i + 1], breakdown[rosters[i].owner := entry])
  {
    var next := breakdown[rosters[i].owner := entry];
    var done := rosters[..i + 1];
    forall o ensures o in next <==> exists j :: 0 <= j < i + 1 && done[j].owner == o {
      if o in breakdown {
        var j :| 0 <= j < i && rosters[..i][j].owner == o;
        assert done[j].owner == o;
      }
      if o == rosters[i].owner {
        assert done[i].owner == o;
      }
    }
  }

  lemma NamesOwnersStep(rules: Rules, rosters: seq<Roster>, i: nat, idToName: map<PlayerId, Name>,
                        breakdown: map<OwnerId, OwnerBreakdown>, entry: OwnerBreakdown)
    requires i < |rosters| && DistinctOwners(rosters)
    requires NamesOwners(rules, rosters[..i], idToName, breakdown)
    requires Names(ProtectedFor(rules, rosters[i]), idToName) == Success(entry.protected)
    requires Names(LossesFor(rules, rosters[i]), idToName) == Success(entry.losses)
    ensures NamesOwners(rules, rosters[..i + 1], idToName, breakdown[rosters[i].owner := entry])
  {
    var done, next := rosters[..i + 1], breakdown[rosters[i].owner := entry];
    forall j | 0 <= j < i + 1
      ensures && done[j].owner in next
              && Names(ProtectedFor(rules, done[j]), idToName) == Success(next[done[j].owner].protected)
              && Names(LossesFor(rules, done[j]), idToName) == Success(next[done[j].owner].losses)
    {
      if j < i {
        assert done[j] == rosters[..i][j];
        assert done[j].owner != rosters[i].owner;
        assert next[done[j].owner] == breakdown[done[j].owner];
      } else {
        assert done[j] == rosters[i];
      }
    }
  }

  /**
   * The draft half of an outcome: each expansion team's label holds the
   * players its turns give it from `draftPool`, no team gets more than
   * `picksPerTeam`, and together they hold the whole draft pool.
   */
  ghost predicate Drafted(draftPool: seq<PlayerId>, numTeams: nat, picksPerTeam: nat, format: string,
                          picksByTeam: map<string, seq<PlayerId>>)
    requires numTeams >= 1
  {
    var teams := TeamLabels(numTeams);
    && (forall team :: team in picksByTeam <==> team in teams)
    && (forall t :: 0 <= t < numTeams ==>
          && teams[t] in picksByTeam
          && picksByTeam[teams[t]] == PicksOf(draftPool, numTeams, format, t)
          && |picksByTeam[teams[t]]| <= picksPerTeam)
    && TotalPicks(picksByTeam, teams) == |draftPool|
  }

  /** The draft stage's result: the draft pool by name, and each expansion team's picks. */
  datatype Draft = Draft(draftPool: seq<Name>, picksByTeam: map<string, seq<PlayerId>>)

  /**
   * The draft stage: cuts the pool to `numTeams * picksPerTeam` players,
   * looks up their names and deals them to the expansion teams. The first
   * draft-pool id without a name makes it fail.
   */
  method DraftStage(pool: seq<PlayerId>, idToName: map<PlayerId, Name>, numTeams: nat,
                    picksPerTeam: nat, draftFormat: string)
    returns (r: Result<Draft>)
    requires numTeams >= 1
    ensures var draftPool := Take(pool, numTeams * picksPerTeam);
            && (r.KeyError? ==> Names(draftPool, idToName) == KeyError(r.missing))
            && (r.Success? ==> && Names(draftPool, idToName) == Success(r.value.draftPool)
                               && Drafted(draftPool, numTeams, picksPerTeam, draftFormat, r.value.picksByTeam))
  {
    var totalPicks := numTeams * picksPerTeam;
    var draftPoolIds := Take(pool, totalPicks);
    var draftPoolNames := Names(draftPoolIds, idToName);
    if draftPoolNames.KeyError? {
      return KeyError(draftPoolNames.missing);
    }
    var picksByTeam := Allocate(draftPoolIds, numTeams, draftFormat);
    DraftWithinCapacity(draftPoolIds, numTeams, picksPerTeam, draftFormat);
    r := Success(Draft(draftPoolNames.value, picksByTeam));
  }

  /**
   * Runs the expansion draft: partitions each owner's roster in roster-map
   * order, pools the losses, cuts the pool to `numTeams * picksPerTeam`
   * and deals it to the expansion teams. A player id without a name makes
   * the whole run fail with the first such id met, as the `KeyError` the
   * source raises.
   */
  method SimulateAndDraft(rosters: seq<Roster>, idToName: map<PlayerId, Name>,
                          idToPos: map<PlayerId, Position>, maxProtect: nat,
                          posCaps: map<Position, nat>, numTeams: nat, picksPerTeam: nat,
                          draftFormat: string, protectionOverrides: map<OwnerId, seq<PlayerId>>)
    returns (r: Result<Outcome>)
    requires numTeams >= 1 && picksPerTeam >= 1
    requires DistinctOwners(rosters)
    ensures var rules := Rules(idToPos, maxProtect, posCaps, protectionOverrides);
            var draftPool := DraftPool(rules, rosters, numTeams * picksPerTeam);
            var lookups := Names(Lookups(rules, rosters) + draftPool, idToName);
            && (r.KeyError? ==> lookups == KeyError(r.missing))
            && (r.Success? ==> && lookups.Success?
                               && BrokenDown(rules, rosters, idToName, r.value.breakdown)
                               && Names(draftPool, idToName) == Success(r.value.draftPool)
                               && Drafted(draftPool, numTeams, picksPerTeam, draftFormat, r.value.picksByTeam))
  {
    var rules := Rules(idToPos, maxProtect, posCaps, protectionOverrides);
    var breakdown, pool := BreakDownAll(rules, rosters, idToName);
    ghost var draftPool := DraftPool(rules, rosters, numTeams * picksPerTeam);
    NamesAppend(Lookups(rules, rosters), draftPool, idToName);
    if breakdown.KeyError? {
      return KeyError(breakdown.missing);
    }
    var draft := DraftStage(pool, idToName, numTeams, picksPerTeam, draftFormat);
    if draft.KeyError? {
      return KeyError(draft.missing);
    }
    r := Success(Outcome(breakdown.value, draft.value.draftPool, draft.value.picksByTeam));
  }
}
