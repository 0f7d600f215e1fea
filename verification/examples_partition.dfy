/**
 * Worked examples of the partitioner on small literal rosters: the first
 * shows caps cutting every position to one loss, the second shows losses
 * grouped by first-seen position rather than in roster order.
 */
module PartitionExamples {
  import opened Seqs
  import opened Partition

  /** A three-player filter, item by item. */
  lemma Filter3(a: PlayerId, b: PlayerId, c: PlayerId, keep: PlayerId -> bool)
    ensures Filter([a, b, c], keep)
            == (if keep(a) then [a] else []) + (if keep(b) then [b] else []) + (if keep(c) then [c] else [])
  {
    var none: seq<PlayerId> := [];
    FilterSnoc(none, a, keep);
    assert none + [a] == [a];
    FilterSnoc([a], b, keep);
    assert [a] + [b] == [a, b];
    FilterSnoc([a, b], c, keep);
    assert [a, b] + [c] == [a, b, c];
  }

  /** A position whose first letter differs from those of `a` and `b` is in neither `[a]` nor `[a, b]`. */
  lemma DifferentPositions(x: Position, a: Position, b: Position)
    requires |x| > 0 && |a| > 0 && |b| > 0 && x[0] != a[0] && x[0] != b[0]
    ensures x !in [a] && x !in [a, b]
  {
  }

  function CapsExamplePositions(): map<PlayerId, Position>
  {
    map["A" := "RB", "B" := "RB", "C" := "WR", "D" := "QB"]
  }

  function CapsExampleCaps(): map<Position, nat>
  {
    map["RB" := 1, "WR" := 1, "QB" := 1]
  }

  lemma CapsExampleCandidates()
    ensures Candidates(["A", "B", "C", "D"], ["A"]) == ["B", "C", "D"]
  {
    var keep := Unprotected(["A"]);
    assert !keep("A") && keep("B") && keep("C") && keep("D");
    Filter3("A", "B", "C", keep);
    FilterSnoc(["A", "B", "C"], "D", keep);
    assert ["A", "B", "C"] + ["D"] == ["A", "B", "C", "D"];
  }

  /** The positions of the example's players. */
  lemma CapsExampleLookups()
    ensures var idToPos := CapsExamplePositions();
            && PosOf(idToPos, "A") == "RB" && PosOf(idToPos, "B") == "RB"
            && PosOf(idToPos, "C") == "WR" && PosOf(idToPos, "D") == "QB"
  {
  }

  /** A single player's first-seen positions are its own position. */
  lemma FirstSeenOne(pid: PlayerId, idToPos: map<PlayerId, Position>)
    ensures FirstSeen([pid], idToPos) == [PosOf(idToPos, pid)]
  {
    var none: seq<PlayerId> := [];
    FirstSeenSnoc(none, pid, idToPos);
    assert none + [pid] == [pid];
  }

  lemma CapsExampleOrder1()
    ensures FirstSeen(["B"], CapsExamplePositions()) == ["RB"]
  {
    FirstSeenOne("B", CapsExamplePositions());
    CapsExampleLookups();
  }

  lemma CapsExampleOrder2()
    ensures FirstSeen(["B", "C"], CapsExamplePositions()) == ["RB", "WR"]
  {
    CapsExampleOrder1();
    FirstSeenSnoc(["B"], "C", CapsExamplePositions());
    assert ["B"] + ["C"] == ["B", "C"];
    DifferentPositions("WR", "RB", "RB");
  }

  lemma CapsExampleOrder()
    ensures FirstSeen(["B", "C", "D"], CapsExamplePositions()) == ["RB", "WR", "QB"]
  {
    CapsExampleOrder2();
    FirstSeenSnoc(["B", "C"], "D", CapsExamplePositions());
    assert ["B", "C"] + ["D"] == ["B", "C", "D"];
    DifferentPositions("QB", "RB", "WR");
  }

  lemma CapsExampleSlices()
    ensures Slice(["B", "C", "D"], CapsExamplePositions(), CapsExampleCaps(), "RB") == ["B"]
    ensures Slice(["B", "C", "D"], CapsExamplePositions(), CapsExampleCaps(), "WR") == ["C"]
    ensures Slice(["B", "C", "D"], CapsExamplePositions(), CapsExampleCaps(), "QB") == ["D"]
  {
    var idToPos := CapsExamplePositions();
    assert PosOf(idToPos, "B") == "RB" && PosOf(idToPos, "C") == "WR" && PosOf(idToPos, "D") == "QB";
    Filter3("B", "C", "D", AtPos(idToPos, "RB"));
    Filter3("B", "C", "D", AtPos(idToPos, "WR"));
    Filter3("B", "C", "D", AtPos(idToPos, "QB"));
  }

  /**
   * Roster A, B (running backs), C (receiver), D (quarterback); one
   * protection; a cap of one at each of those positions. A is protected
   * and the caps let B, C and D go.
   */
  lemma OneOfEachPositionLost()
    ensures var rules := Rules(CapsExamplePositions(), 1, CapsExampleCaps(), map[]);
            var r := Roster("owner", ["A", "B", "C", "D"]);
            ProtectedFor(rules, r) == ["A"] && LossesFor(rules, r) == ["B", "C", "D"]
  {
    var rules := Rules(CapsExamplePositions(), 1, CapsExampleCaps(), map[]);
    var r := Roster("owner", ["A", "B", "C", "D"]);
    assert ProtectedFor(rules, r) == ["A"];
    CapsExampleCandidates();
    CapsExampleOrder();
    CapsExampleSlices();
    SlicesIn3(["B", "C", "D"], CapsExamplePositions(), CapsExampleCaps(), "RB", "WR", "QB");
  }

  function OrderExamplePositions(): map<PlayerId, Position>
  {
    map["A" := "RB", "B" := "RB", "C" := "WR"]
  }

  /** The positions of the example's players. */
  lemma OrderExampleLookups()
    ensures var idToPos := OrderExamplePositions();
            PosOf(idToPos, "A") == "RB" && PosOf(idToPos, "B") == "RB" && PosOf(idToPos, "C") == "WR"
  {
  }

  lemma OrderExampleOrder1()
    ensures FirstSeen(["A"], OrderExamplePositions()) == ["RB"]
  {
    FirstSeenOne("A", OrderExamplePositions());
    OrderExampleLookups();
  }

  lemma OrderExampleOrder2()
    ensures FirstSeen(["A", "C"], OrderExamplePositions()) == ["RB", "WR"]
  {
    OrderExampleOrder1();
    FirstSeenSnoc(["A"], "C", OrderExamplePositions());
    assert ["A"] + ["C"] == ["A", "C"];
    DifferentPositions("WR", "RB", "RB");
  }

  lemma OrderExampleOrder()
    ensures FirstSeen(["A", "C", "B"], OrderExamplePositions()) == ["RB", "WR"]
  {
    OrderExampleOrder2();
    FirstSeenSnoc(["A", "C"], "B", OrderExamplePositions());
    assert ["A", "C"] + ["B"] == ["A", "C", "B"];
    assert ["RB", "WR"][0] == "RB";
  }

  lemma OrderExampleSlices()
    ensures Slice(["A", "C", "B"], OrderExamplePositions(), map[], "RB") == ["A", "B"]
    ensures Slice(["A", "C", "B"], OrderExamplePositions(), map[], "WR") == ["C"]
  {
    var idToPos := OrderExamplePositions();
    assert PosOf(idToPos, "A") == "RB" && PosOf(idToPos, "C") == "WR" && PosOf(idToPos, "B") == "RB";
    Filter3("A", "C", "B", AtPos(idToPos, "RB"));
    Filter3("A", "C", "B", AtPos(idToPos, "WR"));
  }

  lemma OrderExampleCandidates()
    ensures Candidates(["A", "C", "B"], []) == ["A", "C", "B"]
  {
    FilterAll(["A", "C", "B"], Unprotected([]));
  }

  /** The slices over a single position are that position's slice. */
  lemma SlicesInOne(cands: seq<PlayerId>, idToPos: map<PlayerId, Position>, posCaps: map<Position, nat>,
                    p: Position)
    ensures SlicesIn(cands, idToPos, posCaps, [p]) == Slice(cands, idToPos, posCaps, p)
  {
    assert [p][..0] == [];
  }

  /** Slices over two positions, in order. */
  lemma SlicesIn2(cands: seq<PlayerId>, idToPos: map<PlayerId, Position>, posCaps: map<Position, nat>,
                  p: Position, q: Position)
    ensures SlicesIn(cands, idToPos, posCaps, [p, q])
            == Slice(cands, idToPos, posCaps, p) + Slice(cands, idToPos, posCaps, q)
  {
    assert [p, q][..1] == [p];
    SlicesInOne(cands, idToPos, posCaps, p);
  }

  /** Slices over three positions, in order. */
  lemma SlicesIn3(cands: seq<PlayerId>, idToPos: map<PlayerId, Position>, posCaps: map<Position, nat>,
                  p: Position, q: Position, s: Position)
    ensures SlicesIn(cands, idToPos, posCaps, [p, q, s])
            == Slice(cands, idToPos, posCaps, p) + Slice(cands, idToPos, posCaps, q)
               + Slice(cands, idToPos, posCaps, s)
  {
    assert [p, q, s][..2] == [p, q];
    SlicesIn2(cands, idToPos, posCaps, p, q);
  }

  /**
   * Roster A (running back), C (receiver), B (running back), nobody
   * protected, no caps: the losses come grouped by position in the order
   * the positions were first met, so B is lost before C.
   */
  lemma LossesGroupedByFirstSeenPosition()
    ensures var rules := Rules(OrderExamplePositions(), 0, map[], map[]);
            LossesFor(rules, Roster("owner", ["A", "C", "B"])) == ["A", "B", "C"]
  {
    var rules := Rules(OrderExamplePositions(), 0, map[], map[]);
    var r := Roster("owner", ["A", "C", "B"]);
    assert ProtectedFor(rules, r) == [];
    OrderExampleCandidates();
    OrderExampleOrder();
    OrderExampleSlices();
    SlicesIn2(["A", "C", "B"], OrderExamplePositions(), map[], "RB", "WR");
  }
}
