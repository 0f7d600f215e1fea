/**
 * The protection and loss partitioner of the expansion draft
 * (`simulate_and_draft`, first stage): for one owner, which roster players
 * are protected, which are exposed, and which of the exposed ones are lost
 * to the pool under the per-position caps; then the pool across owners.
 */
module Partition {
  import opened Seqs

  type PlayerId = string
  type OwnerId = string
  type Position = string

  /** The position given to a player the position table does not know. */
  const Unknown: Position := "UNK"

  /** One existing team: its owner and its roster in roster order. */
  datatype Roster = Roster(owner: OwnerId, ids: seq<PlayerId>)

  /**
   * The settings the partitioner reads: the position table, the protection
   * limit, the per-position loss caps and the owners' protection overrides.
   * Caps and the limit are non-negative, as the settings sliders allow.
   */
  datatype Rules = Rules(
    idToPos: map<PlayerId, Position>,
    maxProtect: nat,
    posCaps: map<Position, nat>,
    overrides: map<OwnerId, seq<PlayerId>>)

  /** `id_to_pos.get(pid, "UNK")` */
  function PosOf(idToPos: map<PlayerId, Position>, pid: PlayerId): Position
  {
    if pid in idToPos then idToPos[pid] else Unknown
  }

  /** The filter that keeps the players at position `p`. */
  function AtPos(idToPos: map<PlayerId, Position>, p: Position): PlayerId -> bool
  {
    pid => PosOf(idToPos, pid) == p
  }

  /** The filter that keeps the players not in `protected`. */
  function Unprotected(protected: seq<PlayerId>): PlayerId -> bool
  {
    pid => pid !in protected
  }

  // ---------------------------------------------------------------------
  // Protection and candidates
  // ---------------------------------------------------------------------

  /**
   * The protected list of one owner: the override when the owner has one,
   * otherwise the first `maxProtect` roster players; cut to `maxProtect`
   * either way.
   */
  function Protected(roster: seq<PlayerId>, overrides: map<OwnerId, seq<PlayerId>>,
                     owner: OwnerId, maxProtect: nat): (r: seq<PlayerId>)
    ensures |r| <= maxProtect
    ensures owner !in overrides ==> |r| == Min(maxProtect, |roster|) && r == roster[..|r|]
    ensures owner in overrides ==>
              |r| == Min(maxProtect, |overrides[owner]|) && r == overrides[owner][..|r|]
  {
    var chosen := if owner in overrides then overrides[owner] else Take(roster, maxProtect);
    Take(chosen, maxProtect)
  }

  function Min(a: nat, b: nat): nat
  {
    if a < b then a else b
  }

  /** The exposed players: the roster players not protected, in roster order. */
  function Candidates(roster: seq<PlayerId>, protected: seq<PlayerId>): seq<PlayerId>
  {
    Filter(roster, Unprotected(protected))
  }

  /**
   * No protected player is exposed and every other roster player is,
   * exactly as often as the roster lists it.
   */
  lemma CandidatesExact(roster: seq<PlayerId>, protected: seq<PlayerId>)
    ensures forall x :: multiset(Candidates(roster, protected))[x]
                        == if x in protected then 0 else multiset(roster)[x]
    ensures forall x :: x in Candidates(roster, protected) <==> x in roster && x !in protected
  {
    forall x
      ensures multiset(Candidates(roster, protected))[x]
              == if x in protected then 0 else multiset(roster)[x]
    {
      FilterCount(roster, Unprotected(protected), x);
    }
  }

  /** Candidates of a roster split in two are the candidates of each part, in that order. */
  lemma CandidatesKeepOrder(a: seq<PlayerId>, b: seq<PlayerId>, protected: seq<PlayerId>)
    ensures Candidates(a + b, protected) == Candidates(a, protected) + Candidates(b, protected)
  {
    FilterAppend(a, b, Unprotected(protected));
  }

  // ---------------------------------------------------------------------
  // Grouping by position and capped losses
  // ---------------------------------------------------------------------

  /** The positions of `cands`, each once, in the order they are first met. */
  function FirstSeen(cands: seq<PlayerId>, idToPos: map<PlayerId, Position>): (r: seq<Position>)
    ensures forall i, j :: 0 <= i < j < |r| ==> r[i] != r[j]
  {
    if cands == [] then []
    else
      var init, last := cands[..|cands| - 1], cands[|cands| - 1];
      var seen := FirstSeen(init, idToPos);
      var p := PosOf(idToPos, last);
      if p in seen then seen else seen + [p]
  }

  /** The first-seen positions are exactly the positions of the candidates. */
  lemma {:induction false} FirstSeenMembers(cands: seq<PlayerId>, idToPos: map<PlayerId, Position>)
    ensures forall p :: p in FirstSeen(cands, idToPos) <==>
                          exists pid :: pid in cands && PosOf(idToPos, pid) == p
  {
    if cands != [] {
      var init, last := cands[..|cands| - 1], cands[|cands| - 1];
      assert cands == init + [last];
      assert forall pid :: pid in cands <==> pid in init || pid == last;
      FirstSeenMembers(init, idToPos);
    }
  }

  /**
   * The key order follows the roster: for positions listed i-th and j-th
   * with i < j, every candidate at the j-th has an earlier candidate at the i-th.
   */
  lemma {:induction false} FirstSeenOrder(cands: seq<PlayerId>, idToPos: map<PlayerId, Position>,
                                          i: nat, j: nat, l: nat)
    requires i < j < |FirstSeen(cands, idToPos)| && l < |cands|
    requires PosOf(idToPos, cands[l]) == FirstSeen(cands, idToPos)[j]
    ensures exists k :: 0 <= k < l && PosOf(idToPos, cands[k]) == FirstSeen(cands, idToPos)[i]
  {
    var init, last := cands[..|cands| - 1], cands[|cands| - 1];
    var r0, r := FirstSeen(init, idToPos), FirstSeen(cands, idToPos);
    FirstSeenMembers(init, idToPos);
    if j < |r0| {
      assert r[i] == r0[i] && r[j] == r0[j];
      // some candidate before `last` is at r[j]; the first one met is before l
      var l' := l;
      if l == |init| {
        assert r0[j] in r0;
        var pid :| pid in init && PosOf(idToPos, pid) == r0[j];
        l' :| 0 <= l' < |init| && init[l'] == pid;
      }
      assert init[l'] == cands[l'];
      FirstSeenOrder(init, idToPos, i, j, l');
      var k :| 0 <= k < l' && PosOf(idToPos, init[k]) == r0[i];
      assert cands[k] == init[k];
    } else {
      // r[j] is the position of `last`, new to the roster before it
      assert r == r0 + [PosOf(idToPos, last)] && j == |r0|;
      assert r[i] == r0[i] && r0[i] in r0;
      var pid :| pid in init && PosOf(idToPos, pid) == r0[i];
      var k :| 0 <= k < |init| && init[k] == pid;
      assert cands[k] == init[k];
    }
  }

  /** The candidates at position `p`, in roster order. */
  function Group(cands: seq<PlayerId>, idToPos: map<PlayerId, Position>, p: Position): seq<PlayerId>
  {
    Filter(cands, AtPos(idToPos, p))
  }

  /** `pos_caps.get(pos, len(pids))`: a position without a cap takes its whole group. */
  function Cap(posCaps: map<Position, nat>, p: Position, groupSize: nat): nat
  {
    if p in posCaps then posCaps[p] else groupSize
  }

  /** What position `p` loses: the first `cap` players of its group. */
  function Slice(cands: seq<PlayerId>, idToPos: map<PlayerId, Position>,
                 posCaps: map<Position, nat>, p: Position): seq<PlayerId>
  {
    var g := Group(cands, idToPos, p);
    Take(g, Cap(posCaps, p, |g|))
  }

  /** The slices of the positions in `order`, concatenated in that order. */
  function SlicesIn(cands: seq<PlayerId>, idToPos: map<PlayerId, Position>,
                    posCaps: map<Position, nat>, order: seq<Position>): seq<PlayerId>
  {
    if order == [] then []
    else SlicesIn(cands, idToPos, posCaps, order[..|order| - 1])
         + Slice(cands, idToPos, posCaps, order[|order| - 1])
  }

  /** One owner's losses: the position slices in first-seen position order. */
  function Losses(cands: seq<PlayerId>, idToPos: map<PlayerId, Position>,
                  posCaps: map<Position, nat>): seq<PlayerId>
  {
    SlicesIn(cands, idToPos, posCaps, FirstSeen(cands, idToPos))
  }

  lemma FirstSeenSnoc(cands: seq<PlayerId>, pid: PlayerId, idToPos: map<PlayerId, Position>)
    ensures FirstSeen(cands + [pid], idToPos)
            == var seen := FirstSeen(cands, idToPos);
               if PosOf(idToPos, pid) in seen then seen else seen + [PosOf(idToPos, pid)]
  {
    assert (cands + [pid])[..|cands|] == cands;
  }

  /** Every player of a slice is at the slice's position. */
  lemma SliceAtPos(cands: seq<PlayerId>, idToPos: map<PlayerId, Position>,
                   posCaps: map<Position, nat>, q: Position)
    ensures var s := Slice(cands, idToPos, posCaps, q);
            forall i :: 0 <= i < |s| ==> PosOf(idToPos, s[i]) == q
  {
    var g := Group(cands, idToPos, q);
    var s := Slice(cands, idToPos, posCaps, q);
    FilterAccepted(cands, AtPos(idToPos, q));
    forall i | 0 <= i < |s| ensures PosOf(idToPos, s[i]) == q {
      assert s[i] == g[i] && AtPos(idToPos, q)(g[i]);
    }
  }

  /** Over distinct positions `order`, the players at `p` in the slices are `p`'s slice, or nothing. */
  lemma {:induction false} SlicesInAtPos(cands: seq<PlayerId>, idToPos: map<PlayerId, Position>,
                                         posCaps: map<Position, nat>, order: seq<Position>, p: Position)
    requires forall i, j :: 0 <= i < j < |order| ==> order[i] != order[j]
    ensures Filter(SlicesIn(cands, idToPos, posCaps, order), AtPos(idToPos, p))
            == if p in order then Slice(cands, idToPos, posCaps, p) else []
  {
    if order != [] {
      var init, q := order[..|order| - 1], order[|order| - 1];
      assert order == init + [q];
      SlicesInAtPos(cands, idToPos, posCaps, init, p);
      var s := Slice(cands, idToPos, posCaps, q);
      FilterAppend(SlicesIn(cands, idToPos, posCaps, init), s, AtPos(idToPos, p));
      SliceAtPos(cands, idToPos, posCaps, q);
      if q == p {
        FilterAll(s, AtPos(idToPos, p));
        assert p !in init;
      } else {
        FilterNone(s, AtPos(idToPos, p));
      }
    }
  }

  /**
   * The per-position cap: of the players at position `p`, an owner loses
   * exactly the first min(cap, group size) of the group, in roster order;
   * a position without a cap loses its whole group.
   */
  lemma PerPositionCap(cands: seq<PlayerId>, idToPos: map<PlayerId, Position>,
                       posCaps: map<Position, nat>, p: Position)
    ensures var g := Group(cands, idToPos, p);
            var lost := Filter(Losses(cands, idToPos, posCaps), AtPos(idToPos, p));
            && |lost| == (if p in posCaps then Min(posCaps[p], |g|) else |g|)
            && lost == g[..|lost|]
  {
    var order := FirstSeen(cands, idToPos);
    SlicesInAtPos(cands, idToPos, posCaps, order, p);
    if p !in order {
      UnseenGroupEmpty(cands, idToPos, p);
    }
  }

  /** A position no candidate has has an empty group. */
  lemma UnseenGroupEmpty(cands: seq<PlayerId>, idToPos: map<PlayerId, Position>, p: Position)
    requires p !in FirstSeen(cands, idToPos)
    ensures Group(cands, idToPos, p) == []
  {
    var g := Group(cands, idToPos, p);
    FirstSeenMembers(cands, idToPos);
  }

  /**
   * Every loss is a candidate, and no player is lost more often than it is
   * a candidate: a player lost twice is listed twice in the roster.
   */
  lemma LossesAreCandidates(cands: seq<PlayerId>, idToPos: map<PlayerId, Position>,
                            posCaps: map<Position, nat>)
    ensures forall x :: multiset(Losses(cands, idToPos, posCaps))[x] <= multiset(cands)[x]
  {
    var losses := Losses(cands, idToPos, posCaps);
    forall x ensures multiset(losses)[x] <= multiset(cands)[x] {
      var q := PosOf(idToPos, x);
      var g := Group(cands, idToPos, q);
      var order := FirstSeen(cands, idToPos);
      FilterCount(losses, AtPos(idToPos, q), x);
      SlicesInAtPos(cands, idToPos, posCaps, order, q);
      TakeMultiset(g, Cap(posCaps, q, |g|));
      FilterCount(cands, AtPos(idToPos, q), x);
    }
  }

  // ---------------------------------------------------------------------
  // One owner, and the pool across owners
  // ---------------------------------------------------------------------

  function ProtectedFor(rules: Rules, r: Roster): seq<PlayerId>
  {
    Protected(r.ids, rules.overrides, r.owner, rules.maxProtect)
  }

  function LossesFor(rules: Rules, r: Roster): seq<PlayerId>
  {
    Losses(Candidates(r.ids, ProtectedFor(rules, r)), rules.idToPos, rules.posCaps)
  }

  /**
   * An owner loses only roster players that are not protected, and none
   * more often than the roster lists it.
   */
  lemma OwnerLossesBound(rules: Rules, r: Roster)
    ensures forall x :: multiset(LossesFor(rules, r))[x]
                        <= if x in ProtectedFor(rules, r) then 0 else multiset(r.ids)[x]
  {
    var protected := ProtectedFor(rules, r);
    CandidatesExact(r.ids, protected);
    LossesAreCandidates(Candidates(r.ids, protected), rules.idToPos, rules.posCaps);
  }

  /** The pool: every owner's losses, concatenated in roster-map order. */
  function Pool(rules: Rules, rosters: seq<Roster>): seq<PlayerId>
  {
    if rosters == [] then []
    else Pool(rules, rosters[..|rosters| - 1]) + LossesFor(rules, rosters[|rosters| - 1])
  }

  /** One more owner adds their losses at the end of the pool. */
  lemma PoolStep(rules: Rules, rosters: seq<Roster>, i: nat)
    requires i < |rosters|
    ensures Pool(rules, rosters[..i + 1]) == Pool(rules, rosters[..i]) + LossesFor(rules, rosters[i])
  {
    assert rosters[..i + 1][..i] == rosters[..i];
  }

  /** An owner with an empty roster protects nobody from the roster default and loses nothing. */
  lemma EmptyRosterLosesNothing(rules: Rules, r: Roster)
    requires r.ids == []
    ensures LossesFor(rules, r) == []
    ensures r.owner !in rules.overrides ==> ProtectedFor(rules, r) == []
  {
    var cands := Candidates(r.ids, ProtectedFor(rules, r));
    assert cands == [];
    assert FirstSeen(cands, rules.idToPos) == [];
  }

  /** When every roster is empty, the pool is empty. */
  lemma {:induction false} EmptyRostersEmptyPool(rules: Rules, rosters: seq<Roster>)
    requires forall i :: 0 <= i < |rosters| ==> rosters[i].ids == []
    ensures Pool(rules, rosters) == []
  {
    if rosters != [] {
      EmptyRostersEmptyPool(rules, rosters[..|rosters| - 1]);
      EmptyRosterLosesNothing(rules, rosters[|rosters| - 1]);
    }
  }

  // ---------------------------------------------------------------------
  // The partitioner as the source runs it
  // ---------------------------------------------------------------------

  /**
   * `order` and `byPos` are the insertion-ordered table `by_pos` of the
   * players `cands`: the keys in first-seen order, each with its group.
   */
  ghost predicate Grouped(cands: seq<PlayerId>, idToPos: map<PlayerId, Position>,
                          order: seq<Position>, byPos: map<Position, seq<PlayerId>>)
  {
    && order == FirstSeen(cands, idToPos)
    && (forall p :: p in byPos <==> p in order)
    && (forall p :: p in byPos ==> byPos[p] == Group(cands, idToPos, p))
  }

  /** One more candidate joins the end of its own position's group and no other. */
  lemma GroupSnoc(cands: seq<PlayerId>, pid: PlayerId, idToPos: map<PlayerId, Position>)
    ensures forall p :: Group(cands + [pid], idToPos, p)
                        == Group(cands, idToPos, p) + (if PosOf(idToPos, pid) == p then [pid] else [])
  {
    forall p ensures Group(cands + [pid], idToPos, p)
                     == Group(cands, idToPos, p) + (if PosOf(idToPos, pid) == p then [pid] else [])
    {
      FilterSnoc(cands, pid, AtPos(idToPos, p));
    }
  }

  /** `by_pos.setdefault(pos, []).append(pid)` for a position not yet in the table. */
  lemma GroupingNew(cands: seq<PlayerId>, pid: PlayerId, idToPos: map<PlayerId, Position>,
                    order: seq<Position>, byPos: map<Position, seq<PlayerId>>)
    requires Grouped(cands, idToPos, order, byPos)
    requires PosOf(idToPos, pid) !in byPos
    ensures var pos := PosOf(idToPos, pid);
            Grouped(cands + [pid], idToPos, order + [pos], byPos[pos := [pid]])
  {
    var pos := PosOf(idToPos, pid);
    var order', byPos' := order + [pos], byPos[pos := [pid]];
    FirstSeenSnoc(cands, pid, idToPos);
    assert FirstSeen(cands + [pid], idToPos) == order';
    forall p ensures p in byPos' <==> p in order' {
      assert p in order' <==> p in order || p == pos;
    }
    forall p | p in byPos' ensures byPos'[p] == Group(cands + [pid], idToPos, p) {
      FilterSnoc(cands, pid, AtPos(idToPos, p));
      if p == pos {
        UnseenGroupEmpty(cands, idToPos, pos);
      }
    }
  }

  /** `by_pos.setdefault(pos, []).append(pid)` for a position already in the table. */
  lemma GroupingKnown(cands: seq<PlayerId>, pid: PlayerId, idToPos: map<PlayerId, Position>,
                      order: seq<Position>, byPos: map<Position, seq<PlayerId>>)
    requires Grouped(cands, idToPos, order, byPos)
    requires PosOf(idToPos, pid) in byPos
    ensures var pos := PosOf(idToPos, pid);
            Grouped(cands + [pid], idToPos, order, byPos[pos := byPos[pos] + [pid]])
  {
    var pos := PosOf(idToPos, pid);
    var byPos' := byPos[pos := byPos[pos] + [pid]];
    FirstSeenSnoc(cands, pid, idToPos);
    assert FirstSeen(cands + [pid], idToPos) == order;
    forall p | p in byPos' ensures byPos'[p] == Group(cands + [pid], idToPos, p) {
      FilterSnoc(cands, pid, AtPos(idToPos, p));
    }
  }

  /**
   * `by_pos`, built as the source does: an insertion-ordered table from
   * position to the candidates at that position. `order` is its key order.
   */
  method GroupByPosition(candidates: seq<PlayerId>, idToPos: map<PlayerId, Position>)
    returns (order: seq<Position>, byPos: map<Position, seq<PlayerId>>)
    ensures order == FirstSeen(candidates, idToPos)
    ensures forall p :: p in byPos <==> p in order
    ensures forall p :: p in byPos ==> byPos[p] == Group(candidates, idToPos, p)
  {
    order, byPos := [], map[];
    for i := 0 to |candidates|
      invariant Grouped(candidates[..i], idToPos, order, byPos)
    {
      var pid := candidates[i];
      var pos := PosOf(idToPos, pid);
      assert candidates[..i + 1] == candidates[..i] + [pid];
      if pos !in byPos {
        GroupingNew(candidates[..i], pid, idToPos, order, byPos);
        byPos := byPos[pos := [pid]];
        order := order + [pos];
      } else {
        GroupingKnown(candidates[..i], pid, idToPos, order, byPos);
        byPos := byPos[pos := byPos[pos] + [pid]];
      }
    }
    assert candidates[..|candidates|] == candidates;
  }

  /**
   * One owner's losses, computed as the source does: group the candidates
   * by position, then take the capped prefix of each group in table order.
   */
  method OwnerLosses(roster: seq<PlayerId>, protected: seq<PlayerId>,
                     idToPos: map<PlayerId, Position>, posCaps: map<Position, nat>)
    returns (losses: seq<PlayerId>)
    ensures losses == Losses(Candidates(roster, protected), idToPos, posCaps)
  {
    var candidates := Candidates(roster, protected);
    var order, byPos := GroupByPosition(candidates, idToPos);
    losses := [];
    for j := 0 to |order|
      invariant losses == SlicesIn(candidates, idToPos, posCaps, order[..j])
    {
      var pos := order[j];
      var pids := byPos[pos];
      var cap := if pos in posCaps then posCaps[pos] else |pids|;
      SlicesInStep(candidates, idToPos, posCaps, order, j);
      losses := losses + Take(pids, cap);
    }
    assert order[..|order|] == order;
  }

  /** One more position in the table order appends its slice. */
  lemma SlicesInStep(cands: seq<PlayerId>, idToPos: map<PlayerId, Position>,
                     posCaps: map<Position, nat>, order: seq<Position>, j: nat)
    requires j < |order|
    ensures SlicesIn(cands, idToPos, posCaps, order[..j + 1])
            == SlicesIn(cands, idToPos, posCaps, order[..j]) + Slice(cands, idToPos, posCaps, order[j])
  {
    assert order[..j + 1][..j] == order[..j];
  }

  /** The named caps of the settings sidebar. */
  function NamedCaps(rbCap: nat, wrCap: nat, teCap: nat, qbCap: nat): map<Position, nat>
  {
    map["RB" := rbCap, "WR" := wrCap, "TE" := teCap, "QB" := qbCap]
  }

  /**
   * The cap table the settings produce: the four named caps, and the
   * "other positions" cap for every other position the position table uses.
   */
  method PositionCaps(rbCap: nat, wrCap: nat, teCap: nat, qbCap: nat, flexCap: nat,
                      idToPos: map<PlayerId, Position>)
    returns (posCaps: map<Position, nat>)
    ensures posCaps.Keys == NamedCaps(rbCap, wrCap, teCap, qbCap).Keys + idToPos.Values
    ensures forall p :: p in NamedCaps(rbCap, wrCap, teCap, qbCap) ==>
                          posCaps[p] == NamedCaps(rbCap, wrCap, teCap, qbCap)[p]
    ensures forall p :: p in posCaps && p !in NamedCaps(rbCap, wrCap, teCap, qbCap) ==>
                          posCaps[p] == flexCap
  {
    var named := NamedCaps(rbCap, wrCap, teCap, qbCap);
    posCaps := named;
    var rest := idToPos.Values;
    while rest != {}
      invariant rest <= idToPos.Values
      invariant posCaps.Keys == named.Keys + (idToPos.Values - rest)
      invariant forall p :: p in named ==> posCaps[p] == named[p]
      invariant forall p :: p in posCaps && p !in named ==> posCaps[p] == flexCap
      decreases rest
    {
      var pos :| pos in rest;
      if pos !in posCaps {
        posCaps := posCaps[pos := flexCap];
      }
      rest := rest - {pos};
    }
  }

  /**
   * With the settings' cap table, every position the position table uses
   * loses at most its cap; only players the table does not know (position
   * "UNK", when no player is listed at "UNK") fall back to no cap at all.
   */
  lemma SettingsCapsBound(rbCap: nat, wrCap: nat, teCap: nat, qbCap: nat, flexCap: nat,
                          idToPos: map<PlayerId, Position>, posCaps: map<Position, nat>,
                          cands: seq<PlayerId>, p: Position)
    requires posCaps.Keys == NamedCaps(rbCap, wrCap, teCap, qbCap).Keys + idToPos.Values
    requires forall q :: q in posCaps && q !in NamedCaps(rbCap, wrCap, teCap, qbCap) ==>
                           posCaps[q] == flexCap
    requires p in idToPos.Values && p !in NamedCaps(rbCap, wrCap, teCap, qbCap)
    ensures |Filter(Losses(cands, idToPos, posCaps), AtPos(idToPos, p))| <= flexCap
  {
    PerPositionCap(cands, idToPos, posCaps, p);
  }

  /**
   * With the settings' cap table, the players the position table does not
   * know are not capped by the "other positions" cap: every one of them
   * that is exposed is lost, unless some known player is listed at "UNK".
   */
  lemma UnknownPositionUncapped(rbCap: nat, wrCap: nat, teCap: nat, qbCap: nat,
                                idToPos: map<PlayerId, Position>, posCaps: map<Position, nat>,
                                cands: seq<PlayerId>)
    requires posCaps.Keys == NamedCaps(rbCap, wrCap, teCap, qbCap).Keys + idToPos.Values
    requires Unknown !in idToPos.Values
    ensures Filter(Losses(cands, idToPos, posCaps), AtPos(idToPos, Unknown)) == Group(cands, idToPos, Unknown)
  {
    assert Unknown !in NamedCaps(rbCap, wrCap, teCap, qbCap);
    PerPositionCap(cands, idToPos, posCaps, Unknown);
  }
}
