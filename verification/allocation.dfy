/**
 * The draft allocator of the expansion draft (`simulate_and_draft`, second
 * stage): the expansion teams "Expansion Team 1" .. "Expansion Team N", and
 * the dealing of the draft pool to them in snake or linear order.
 */
module Allocation {
  import opened Seqs

  /** The one format string that selects the snake order; every other string drafts linearly. */
  const SnakeFormat: string := "Snake"

  // ---------------------------------------------------------------------
  // Turn order
  // ---------------------------------------------------------------------

  /**
   * The team (counted from 0) that pick `idx` goes to: `idx % numTeams`,
   * except in the odd rounds `idx / numTeams` of a snake draft, which run
   * from the last team back to the first.
   */
  function Target(idx: nat, numTeams: nat, format: string): (t: nat)
    requires numTeams >= 1
    ensures t < numTeams
  {
    var pos := idx % numTeams;
    if format == SnakeFormat && (idx / numTeams) % 2 == 1 then numTeams - 1 - pos else pos
  }

  lemma DivModInRound(rnd: nat, j: nat, numTeams: nat)
    requires j < numTeams
    ensures (rnd * numTeams + j) / numTeams == rnd
    ensures (rnd * numTeams + j) % numTeams == j
  {
    var idx := rnd * numTeams + j;
    var q, r := idx / numTeams, idx % numTeams;
    assert (q - rnd) * numTeams == j - r;
    if q > rnd {
      MulAtLeast(q - rnd, numTeams);
    } else if q < rnd {
      MulAtLeast(rnd - q, numTeams);
    }
  }

  lemma {:induction false} MulAtLeast(a: nat, b: nat)
    requires a >= 1
    ensures a * b >= b
  {
    if a > 1 {
      MulAtLeast(a - 1, b);
    }
  }

  /** The place in round `rnd` at which team `t` picks. */
  function TurnInRound(rnd: nat, t: nat, numTeams: nat, format: string): nat
    requires t < numTeams
  {
    if format == SnakeFormat && rnd % 2 == 1 then numTeams - 1 - t else t
  }

  /**
   * The order within one round: a linear draft runs team 1 .. N in every
   * round; a snake draft runs 1 .. N in even rounds and N .. 1 in odd ones.
   */
  lemma RoundOrder(rnd: nat, j: nat, numTeams: nat, format: string)
    requires j < numTeams
    ensures format != SnakeFormat ==> Target(rnd * numTeams + j, numTeams, format) == j
    ensures format == SnakeFormat && rnd % 2 == 0 ==> Target(rnd * numTeams + j, numTeams, format) == j
    ensures format == SnakeFormat && rnd % 2 == 1 ==>
              Target(rnd * numTeams + j, numTeams, format) == numTeams - 1 - j
  {
    DivModInRound(rnd, j, numTeams);
  }

  // ---------------------------------------------------------------------
  // What each team receives
  // ---------------------------------------------------------------------

  /** The pool indices below `len` that go to team `t`, in increasing order. */
  function Slots(len: nat, numTeams: nat, format: string, t: nat): seq<nat>
    requires numTeams >= 1
  {
    if len == 0 then []
    else Slots(len - 1, numTeams, format, t)
         + (if Target(len - 1, numTeams, format) == t then [len - 1] else [])
  }

  /** Each pick below `len` is a slot of exactly the team it targets. */
  lemma {:induction false} SlotsExact(len: nat, numTeams: nat, format: string, t: nat)
    requires numTeams >= 1
    ensures forall idx: nat :: idx in Slots(len, numTeams, format, t)
                               <==> idx < len && Target(idx, numTeams, format) == t
  {
    if len > 0 {
      SlotsExact(len - 1, numTeams, format, t);
    }
  }

  ghost predicate Increasing(s: seq<nat>)
  {
    forall a, b :: 0 <= a < b < |s| ==> s[a] < s[b]
  }

  /** A team's slots are in increasing pick order. */
  lemma {:induction false} SlotsIncreasing(len: nat, numTeams: nat, format: string, t: nat)
    requires numTeams >= 1
    ensures Increasing(Slots(len, numTeams, format, t))
  {
    if len > 0 {
      var s0 := Slots(len - 1, numTeams, format, t);
      var s := Slots(len, numTeams, format, t);
      SlotsIncreasing(len - 1, numTeams, format, t);
      SlotsExact(len - 1, numTeams, format, t);
      if Target(len - 1, numTeams, format) == t {
        assert s == s0 + [len - 1];
        forall a, b | 0 <= a < b < |s| ensures s[a] < s[b] {
          assert s[a] == s0[a] && s0[a] in s0;
          if b < |s0| {
            assert s[b] == s0[b];
          }
        }
      }
    }
  }

  /** The players team `t` receives from `pool`, in pick order. */
  function PicksOf<T>(pool: seq<T>, numTeams: nat, format: string, t: nat): seq<T>
    requires numTeams >= 1
  {
    if pool == [] then []
    else
      PicksOf(pool[..|pool| - 1], numTeams, format, t)
      + (if Target(|pool| - 1, numTeams, format) == t then [pool[|pool| - 1]] else [])
  }

  /** Team `t` receives exactly the pool players at its slots, in slot order. */
  lemma {:induction false} PicksAtSlots<T>(pool: seq<T>, numTeams: nat, format: string, t: nat)
    requires numTeams >= 1
    ensures var s := Slots(|pool|, numTeams, format, t);
            var r := PicksOf(pool, numTeams, format, t);
            && |r| == |s|
            && forall k :: 0 <= k < |r| ==> s[k] < |pool| && r[k] == pool[s[k]]
  {
    if pool != [] {
      var init := pool[..|pool| - 1];
      PicksAtSlots(init, numTeams, format, t);
      SlotsExact(|init|, numTeams, format, t);
      var s := Slots(|init|, numTeams, format, t);
      forall k | 0 <= k < |s| ensures s[k] < |init| {
        assert s[k] in s;
      }
    }
  }

  lemma PicksOfSnoc<T>(pool: seq<T>, x: T, numTeams: nat, format: string, t: nat)
    requires numTeams >= 1
    ensures PicksOf(pool + [x], numTeams, format, t)
            == PicksOf(pool, numTeams, format, t)
               + (if Target(|pool|, numTeams, format) == t then [x] else [])
  {
    assert (pool + [x])[..|pool|] == pool;
  }

  /** The number of picks the teams below `m` receive among the first `len`. */
  function TotalSlots(len: nat, numTeams: nat, format: string, m: nat): nat
    requires numTeams >= 1
  {
    if m == 0 then 0 else TotalSlots(len, numTeams, format, m - 1) + |Slots(len, numTeams, format, m - 1)|
  }

  lemma {:induction false} TotalSlotsStep(len: nat, numTeams: nat, format: string, m: nat)
    requires numTeams >= 1
    ensures TotalSlots(len + 1, numTeams, format, m)
            == TotalSlots(len, numTeams, format, m) + (if Target(len, numTeams, format) < m then 1 else 0)
  {
    if m > 0 {
      TotalSlotsStep(len, numTeams, format, m - 1);
    }
  }

  /**
   * Every pick goes to exactly one team: the teams' pick counts add up to
   * the number of picks.
   */
  lemma {:induction false} PicksAddUp(len: nat, numTeams: nat, format: string)
    requires numTeams >= 1
    ensures TotalSlots(len, numTeams, format, numTeams) == len
  {
    if len > 0 {
      PicksAddUp(len - 1, numTeams, format);
      TotalSlotsStep(len - 1, numTeams, format, numTeams);
    } else {
      NoPicksYet(numTeams, format, numTeams);
    }
  }

  lemma {:induction false} NoPicksYet(numTeams: nat, format: string, m: nat)
    requires numTeams >= 1
    ensures TotalSlots(0, numTeams, format, m) == 0
  {
    if m > 0 {
      NoPicksYet(numTeams, format, m - 1);
    }
  }

  /** Pick `j` of round `rnd` goes to team `t` exactly when `j` is `t`'s turn in that round. */
  lemma TargetIsTurn(rnd: nat, j: nat, numTeams: nat, format: string, t: nat)
    requires t < numTeams && j < numTeams
    ensures Target(rnd * numTeams + j, numTeams, format) == t <==> TurnInRound(rnd, t, numTeams, format) == j
  {
    RoundOrder(rnd, j, numTeams, format);
  }

  /** One more pick adds a slot to its target team only. */
  lemma SlotsSnoc(len: nat, numTeams: nat, format: string, t: nat)
    requires numTeams >= 1
    ensures |Slots(len + 1, numTeams, format, t)|
            == |Slots(len, numTeams, format, t)| + (if Target(len, numTeams, format) == t then 1 else 0)
  {
  }

  /** Within round `rnd`, team `t` picks once, at its turn. */
  lemma {:induction false} SlotsWithinRound(rnd: nat, j: nat, numTeams: nat, format: string, t: nat)
    requires t < numTeams && j <= numTeams
    ensures |Slots(rnd * numTeams + j, numTeams, format, t)|
            == |Slots(rnd * numTeams, numTeams, format, t)|
               + (if TurnInRound(rnd, t, numTeams, format) < j then 1 else 0)
  {
    if j > 0 {
      SlotsWithinRound(rnd, j - 1, numTeams, format, t);
      SlotsSnoc(rnd * numTeams + (j - 1), numTeams, format, t);
      TargetIsTurn(rnd, j - 1, numTeams, format, t);
    }
  }

  /** After `rounds` full rounds every team has exactly `rounds` picks. */
  lemma {:induction false} SlotsFullRounds(rounds: nat, numTeams: nat, format: string, t: nat)
    requires t < numTeams
    ensures |Slots(rounds * numTeams, numTeams, format, t)| == rounds
  {
    if rounds > 0 {
      SlotsFullRounds(rounds - 1, numTeams, format, t);
      SlotsWithinRound(rounds - 1, numTeams, numTeams, format, t);
      assert (rounds - 1) * numTeams + numTeams == rounds * numTeams;
    }
  }

  /** A team never has fewer picks among more of the pool. */
  lemma {:induction false} SlotsMonotone(a: nat, b: nat, numTeams: nat, format: string, t: nat)
    requires numTeams >= 1 && a <= b
    ensures |Slots(a, numTeams, format, t)| <= |Slots(b, numTeams, format, t)|
  {
    if a < b {
      SlotsMonotone(a, b - 1, numTeams, format, t);
    }
  }

  /**
   * With `picksPerTeam` picks for each of `numTeams` teams, a pool of at
   * most `numTeams * picksPerTeam` players gives each team at most
   * `picksPerTeam` of them, and a pool of exactly that size gives each team
   * exactly `picksPerTeam`.
   */
  lemma PicksPerTeamBound(len: nat, numTeams: nat, picksPerTeam: nat, format: string, t: nat)
    requires t < numTeams && len <= numTeams * picksPerTeam
    ensures |Slots(len, numTeams, format, t)| <= picksPerTeam
    ensures len == numTeams * picksPerTeam ==> |Slots(len, numTeams, format, t)| == picksPerTeam
  {
    SlotsFullRounds(picksPerTeam, numTeams, format, t);
    SlotsMonotone(len, picksPerTeam * numTeams, numTeams, format, t);
  }

  /** No team of the draft receives more than `picksPerTeam` of a pool of at most `numTeams * picksPerTeam`. */
  lemma DraftWithinCapacity<T>(pool: seq<T>, numTeams: nat, picksPerTeam: nat, format: string)
    requires numTeams >= 1 && |pool| <= numTeams * picksPerTeam
    ensures forall t :: 0 <= t < numTeams ==> |PicksOf(pool, numTeams, format, t)| <= picksPerTeam
  {
    forall t | 0 <= t < numTeams
      ensures |PicksOf(pool, numTeams, format, t)| <= picksPerTeam
    {
      PicksAtSlots(pool, numTeams, format, t);
      PicksPerTeamBound(|pool|, numTeams, picksPerTeam, format, t);
    }
  }

  /** A two-team snake draft of four players: team 1 gets the 1st and 4th, team 2 the 2nd and 3rd. */
  lemma SnakeExample()
    ensures PicksOf(["p1", "p2", "p3", "p4"], 2, SnakeFormat, 0) == ["p1", "p4"]
    ensures PicksOf(["p1", "p2", "p3", "p4"], 2, SnakeFormat, 1) == ["p2", "p3"]
  {
    assert Target(0, 2, SnakeFormat) == 0 && Target(1, 2, SnakeFormat) == 1;
    assert Target(2, 2, SnakeFormat) == 1 && Target(3, 2, SnakeFormat) == 0;
    var none: seq<string> := [];
    var p1, p12, p123, p1234 := ["p1"], ["p1", "p2"], ["p1", "p2", "p3"], ["p1", "p2", "p3", "p4"];
    assert none + ["p1"] == p1 && p1 + ["p2"] == p12 && p12 + ["p3"] == p123 && p123 + ["p4"] == p1234;
    assert PicksOf(none, 2, SnakeFormat, 0) == [] && PicksOf(none, 2, SnakeFormat, 1) == [];
    PicksOfSnoc(none, "p1", 2, SnakeFormat, 0);
    PicksOfSnoc(["p1"], "p2", 2, SnakeFormat, 0);
    PicksOfSnoc(["p1", "p2"], "p3", 2, SnakeFormat, 0);
    PicksOfSnoc(["p1", "p2", "p3"], "p4", 2, SnakeFormat, 0);
    PicksOfSnoc(none, "p1", 2, SnakeFormat, 1);
    PicksOfSnoc(["p1"], "p2", 2, SnakeFormat, 1);
    PicksOfSnoc(["p1", "p2"], "p3", 2, SnakeFormat, 1);
    PicksOfSnoc(["p1", "p2", "p3"], "p4", 2, SnakeFormat, 1);
  }

  // ---------------------------------------------------------------------
  // Team labels
  // ---------------------------------------------------------------------

  function Digit(d: nat): char
    requires d < 10
  {
    ('0' as int + d) as char
  }

  /** The decimal numeral of `n`, as Python's `str(n)` writes it. */
  function Decimal(n: nat): (s: string)
    ensures |s| >= 1 && (n >= 10 <==> |s| >= 2)
    ensures s[|s| - 1] == Digit(n % 10)
  {
    if n < 10 then [Digit(n)] else Decimal(n / 10) + [Digit(n % 10)]
  }

  /** Different numbers have different numerals. */
  lemma {:induction false} DecimalDistinct(a: nat, b: nat)
    requires a != b
    ensures Decimal(a) != Decimal(b)
  {
    if a >= 10 && b >= 10 && a % 10 == b % 10 {
      var da, db := Decimal(a), Decimal(b);
      assert da[..|da| - 1] == Decimal(a / 10);
      assert db[..|db| - 1] == Decimal(b / 10);
      DecimalDistinct(a / 10, b / 10);
    }
  }

  /** `f"Expansion Team {t+1}"` for the team at index `t`. */
  function TeamLabel(t: nat): string
  {
    "Expansion Team " + Decimal(t + 1)
  }

  /** No two expansion teams share a label. */
  lemma TeamLabelsDistinct(a: nat, b: nat)
    requires a != b
    ensures TeamLabel(a) != TeamLabel(b)
  {
    var prefix := "Expansion Team ";
    assert TeamLabel(a)[|prefix|..] == Decimal(a + 1);
    assert TeamLabel(b)[|prefix|..] == Decimal(b + 1);
    DecimalDistinct(a + 1, b + 1);
  }

  /** The labels of the expansion teams, in creation order. */
  function TeamLabels(numTeams: nat): (r: seq<string>)
    ensures |r| == numTeams
    ensures forall i, j :: 0 <= i < j < numTeams ==> r[i] != r[j]
  {
    var r := seq(numTeams, i requires 0 <= i => TeamLabel(i));
    assert forall i, j :: 0 <= i < j < numTeams ==> r[i] != r[j] by {
      forall i, j | 0 <= i < j < numTeams ensures r[i] != r[j] {
        TeamLabelsDistinct(i, j);
      }
    }
    r
  }

  /** Dealing pick `idx` extends exactly its target team's list. */
  lemma DealOne<T>(pool: seq<T>, idx: nat, numTeams: nat, format: string)
    requires numTeams >= 1 && idx < |pool|
    ensures forall t :: 0 <= t < numTeams ==>
              PicksOf(pool[..idx + 1], numTeams, format, t)
              == PicksOf(pool[..idx], numTeams, format, t)
                 + (if Target(idx, numTeams, format) == t then [pool[idx]] else [])
  {
    assert pool[..idx + 1] == pool[..idx] + [pool[idx]];
    forall t | 0 <= t < numTeams
      ensures PicksOf(pool[..idx + 1], numTeams, format, t)
              == PicksOf(pool[..idx], numTeams, format, t)
                 + (if Target(idx, numTeams, format) == t then [pool[idx]] else [])
    {
      PicksOfSnoc(pool[..idx], pool[idx], numTeams, format, t);
    }
  }

  /** The number of players held, in `picksByTeam`, by the teams labelled `teams`. */
  function TotalPicks<T>(picksByTeam: map<string, seq<T>>, teams: seq<string>): nat
  {
    if teams == [] then 0
    else
      var last := teams[|teams| - 1];
      TotalPicks(picksByTeam, teams[..|teams| - 1])
      + (if last in picksByTeam then |picksByTeam[last]| else 0)
  }

  lemma {:induction false} TotalPicksCountsSlots<T>(picksByTeam: map<string, seq<T>>, teams: seq<string>,
                                                    pool: seq<T>, numTeams: nat, format: string, m: nat)
    requires numTeams >= 1 && m <= |teams|
    requires forall t :: 0 <= t < m ==>
               teams[t] in picksByTeam && picksByTeam[teams[t]] == PicksOf(pool, numTeams, format, t)
    ensures TotalPicks(picksByTeam, teams[..m]) == TotalSlots(|pool|, numTeams, format, m)
  {
    if m > 0 {
      assert teams[..m][..m - 1] == teams[..m - 1];
      TotalPicksCountsSlots(picksByTeam, teams, pool, numTeams, format, m - 1);
      PicksAtSlots(pool, numTeams, format, m - 1);
    }
  }

  // ---------------------------------------------------------------------
  // The draft as the source runs it
  // ---------------------------------------------------------------------

  /**
   * The team that makes pick `idx`, chosen as the source does: from the
   * teams in creation order, or in reverse order in the odd rounds of a
   * snake draft.
   */
  method PickingTeam(teams: seq<string>, idx: nat, format: string) returns (team: string)
    requires |teams| >= 1
    ensures team == teams[Target(idx, |teams|, format)]
  {
    var numTeams := |teams|;
    if format == SnakeFormat {
      var rnd := idx / numTeams;
      var order := if rnd % 2 == 0 then teams else Reversed(teams);
      team := order[idx % numTeams];
    } else {
      team := teams[idx % numTeams];
    }
  }

  /**
   * Creates the expansion teams and deals the draft pool to them in turn
   * order, appending each player to the list of its team's label.
   */
  method Allocate<T>(draftPool: seq<T>, numTeams: nat, format: string)
    returns (picksByTeam: map<string, seq<T>>)
    requires numTeams >= 1
    ensures forall team :: team in picksByTeam <==> team in TeamLabels(numTeams)
    ensures forall t :: 0 <= t < numTeams ==>
              picksByTeam[TeamLabels(numTeams)[t]] == PicksOf(draftPool, numTeams, format, t)
    ensures TotalPicks(picksByTeam, TeamLabels(numTeams)) == |draftPool|
    ensures draftPool == [] ==> forall team :: team in picksByTeam ==> picksByTeam[team] == []
  {
    var teams := TeamLabels(numTeams);
    picksByTeam := map team | team in teams :: [];
    for idx := 0 to |draftPool|
      invariant forall team :: team in picksByTeam <==> team in teams
      invariant forall t :: 0 <= t < numTeams ==>
                  picksByTeam[teams[t]] == PicksOf(draftPool[..idx], numTeams, format, t)
    {
      var team := PickingTeam(teams, idx, format);
      DealOne(draftPool, idx, numTeams, format);
      picksByTeam := picksByTeam[team := picksByTeam[team] + [draftPool[idx]]];
    }
    assert draftPool[..|draftPool|] == draftPool;
    assert teams[..numTeams] == teams;
    TotalPicksCountsSlots(picksByTeam, teams, draftPool, numTeams, format, numTeams);
    PicksAddUp(|draftPool|, numTeams, format);
  }
}
