// Task automata of the warehouse binary.  Each is an integer-coded
// transition function from the current automaton state q and the word the
// robot emits to the next state, or -1 for a state the automaton does not
// have.  The coarse replenishment task reads the coarse word (the agent's
// cell); the fine replenishment and regeneration tasks read the fine word.

module TaskAutomata {
  import opened Common
  import opened Geometry
  import opened Layout
  import opened FineWorld
  import opened CoarseWorld

  // ---------------------------------------------------------------------
  // Coarse replenishment: go to the selected rack, then to the selected feed
  // point, then back to the rack; 3 is finished and 4 is done.
  // ---------------------------------------------------------------------

  /** goto_rack_position: qNext when the agent stands on the selected rack,
      otherwise q. */
  function GotoRackPosition(w: CoarseWord, info: Info, qNext: int, q: int): int
    reads info
    requires info.lookupRack < |info.racks|
  {
    if w.agentPosition == info.racks[info.lookupRack] then qNext else q
  }

  /** goto_feed_position: 2 when the agent stands on the selected feed
      point, otherwise 1. */
  function GotoFeedPosition(w: CoarseWord, info: Info): int
    reads info
    requires info.feedOption < |info.feeds|
  {
    if w.agentPosition == info.feeds[info.feedOption] then 2 else 1
  }

  /** lr_replenishment as evidently intended: state 0 advances to 1 when the
      agent stands on the selected rack, like state 2 advances to 3.  The rack
      is looked up in states 0 and 2 and the feed point in state 1; an index
      out of range makes the source panic. */
  function LrReplenishment(q: int, w: CoarseWord, info: Info): (r: int)
    reads info
    requires (q == 0 || q == 2) ==> info.lookupRack < |info.racks|
    requires q == 1 ==> info.feedOption < |info.feeds|
    ensures 0 <= q <= 4 ==> q <= r <= 4 && r <= q + 1
    ensures !(0 <= q <= 4) <==> r == -1
    ensures q == 0 ==> (r == 1 <==> w.agentPosition == info.racks[info.lookupRack])
    ensures q == 1 ==> (r == 2 <==> w.agentPosition == info.feeds[info.feedOption])
    ensures q == 2 ==> (r == 3 <==> w.agentPosition == info.racks[info.lookupRack])
    ensures q == 3 || q == 4 ==> r == 4
  {
    match q
    case 0 => GotoRackPosition(w, info, 1, 0)
    case 1 => GotoFeedPosition(w, info)
    case 2 => GotoRackPosition(w, info, 3, 2)
    case 3 => 4
    case 4 => 4
    case _ => -1
  }

  /** lr_replenishment as written: state 0 passes the outcomes of
      goto_rack_position in the order (0, 1), so it stays in 0 while the agent
      stands on the selected rack and advances to 1 on any other cell. */
  function LrReplenishmentAsWritten(q: int, w: CoarseWord, info: Info): (r: int)
    reads info
    requires (q == 0 || q == 2) ==> info.lookupRack < |info.racks|
    requires q == 1 ==> info.feedOption < |info.feeds|
    ensures 0 <= q <= 4 ==> q <= r <= 4 && r <= q + 1
    ensures !(0 <= q <= 4) <==> r == -1
    ensures q == 0 ==> (r == 1 <==> w.agentPosition != info.racks[info.lookupRack])
    ensures q != 0 ==> r == LrReplenishment(q, w, info)
  {
    match q
    case 0 => GotoRackPosition(w, info, 0, 1)
    case 1 => GotoFeedPosition(w, info)
    case 2 => GotoRackPosition(w, info, 3, 2)
    case 3 => 4
    case 4 => 4
    case _ => -1
  }

  /** The state after reading the words in order from q. */
  function LrRun(q: int, ws: seq<CoarseWord>, info: Info): int
    reads info
    requires info.lookupRack < |info.racks| && info.feedOption < |info.feeds|
    decreases |ws|
  {
    if ws == [] then q else LrRun(LrReplenishment(q, ws[0], info), ws[1..], info)
  }

  /** The targets of the coarse replenishment task, in order. */
  function LrTargets(info: Info): seq<Point>
    reads info
    requires info.lookupRack < |info.racks| && info.feedOption < |info.feeds|
  {
    [info.racks[info.lookupRack], info.feeds[info.feedOption], info.racks[info.lookupRack]]
  }

  /** How many of the targets the positions visit in order, matching each
      target at its first visit after the previous one (the greedy
      subsequence match). */
  function Matched(ws: seq<CoarseWord>, targets: seq<Point>): (n: nat)
    ensures n <= |targets| && n <= |ws|
  {
    if ws == [] || targets == [] then 0
    else if ws[0].agentPosition == targets[0] then 1 + Matched(ws[1..], targets[1..])
    else Matched(ws[1..], targets)
  }

  /** Up to state 3 the coarse replenishment automaton counts the in-order
      visits of rack, feed point and rack: from state q < 4 the run reaches
      min(state, 3) == q plus the number of the remaining targets visited in
      order. */
  lemma {:induction false} LrRunCountsVisits(q: int, ws: seq<CoarseWord>, info: Info)
    requires info.lookupRack < |info.racks| && info.feedOption < |info.feeds|
    requires 0 <= q <= 3
    ensures var r := LrRun(q, ws, info);
            (if r < 3 then r else 3) == q + Matched(ws, LrTargets(info)[q..])
    decreases |ws|
  {
    if ws != [] {
      var t := LrTargets(info)[q..];
      var q' := LrReplenishment(q, ws[0], info);
      if q' == 4 {
        LrRunStaysDone(ws[1..], info);
      } else {
        LrRunCountsVisits(q', ws[1..], info);
        if q < 3 {
          assert t[1..] == LrTargets(info)[q + 1..];
        }
      }
    }
  }

  /** Once done, the coarse replenishment automaton stays done. */
  lemma {:induction false} LrRunStaysDone(ws: seq<CoarseWord>, info: Info)
    requires info.lookupRack < |info.racks| && info.feedOption < |info.feeds|
    ensures LrRun(4, ws, info) == 4
  {
    if ws != [] {
      LrRunStaysDone(ws[1..], info);
    }
  }

  /** From its start, the intended automaton reaches state 3 or beyond
      (finished or done) exactly when the positions visit rack, feed point
      and rack in order; such a run has at least three words. */
  lemma LrRunFinishes(ws: seq<CoarseWord>, info: Info)
    requires info.lookupRack < |info.racks| && info.feedOption < |info.feeds|
    ensures LrRun(0, ws, info) >= 3 <==> Matched(ws, LrTargets(info)) == 3
    ensures LrRun(0, ws, info) >= 3 ==> |ws| >= 3
  {
    LrRunCountsVisits(0, ws, info);
    assert LrTargets(info)[0..] == LrTargets(info);
  }

  /** The state after reading the words in order from q, as written. */
  function LrRunAsWritten(q: int, ws: seq<CoarseWord>, info: Info): int
    reads info
    requires info.lookupRack < |info.racks| && info.feedOption < |info.feeds|
    decreases |ws|
  {
    if ws == [] then q else LrRunAsWritten(LrReplenishmentAsWritten(q, ws[0], info), ws[1..], info)
  }

  /** Away from state 0 the as-written automaton runs like the intended one. */
  lemma {:induction false} LrRunAsWrittenAfterStart(q: int, ws: seq<CoarseWord>, info: Info)
    requires info.lookupRack < |info.racks| && info.feedOption < |info.feeds|
    requires q != 0
    ensures LrRunAsWritten(q, ws, info) == LrRun(q, ws, info)
    decreases |ws|
  {
    if ws != [] {
      var q' := LrReplenishment(q, ws[0], info);
      if q' != 0 {
        LrRunAsWrittenAfterStart(q', ws[1..], info);
      } else {
        assert false;
      }
    }
  }

  /** What the as-written automaton counts from its start, for a run whose
      first i words stand on the selected rack: it stays in 0 while the agent
      stands on the rack; at the first word off the rack it moves to 1, and
      from then on it counts the in-order visits of the feed point and the
      rack. */
  lemma {:induction false} LrRunAsWrittenCounts(ws: seq<CoarseWord>, info: Info, i: int)
    requires info.lookupRack < |info.racks| && info.feedOption < |info.feeds|
    requires 0 <= i <= |ws|
    requires forall j :: 0 <= j < i ==> ws[j].agentPosition == info.racks[info.lookupRack]
    ensures i == |ws| ==> LrRunAsWritten(0, ws, info) == 0
    ensures i < |ws| && ws[i].agentPosition != info.racks[info.lookupRack] ==>
              var r := LrRunAsWritten(0, ws, info);
              (if r < 3 then r else 3) == 1 + Matched(ws[i + 1..], LrTargets(info)[1..])
    decreases i
  {
    if i > 0 {
      assert ws[0].agentPosition == info.racks[info.lookupRack];
      assert forall j :: 0 <= j < i - 1 ==> ws[1..][j] == ws[j + 1];
      LrRunAsWrittenCounts(ws[1..], info, i - 1);
      if i < |ws| {
        assert ws[1..][i - 1 + 1..] == ws[i + 1..];
      }
    } else if i < |ws| && ws[0].agentPosition != info.racks[info.lookupRack] {
      LrRunAsWrittenAfterStart(1, ws[1..], info);
      LrRunCountsVisits(1, ws[1..], info);
    }
  }

  /** The discrepancy: with the selected rack at (2, 1) and the selected feed
      point at (0, 1), visiting rack, feed point and rack finishes the
      intended automaton but leaves the as-written one in state 1, while a
      run that reaches the rack only at its end finishes the as-written one
      and leaves the intended one in state 1. */
  lemma LrAsWrittenSkipsRack(info: Info)
    requires info.lookupRack < |info.racks| && info.feedOption < |info.feeds|
    requires info.racks[info.lookupRack] == Point(2, 1) && info.feeds[info.feedOption] == Point(0, 1)
    ensures var ws := [CoarseWord(Point(2, 1)), CoarseWord(Point(0, 1)), CoarseWord(Point(2, 1))];
            LrRun(0, ws, info) == 3 && LrRunAsWritten(0, ws, info) == 1
    ensures var ws := [CoarseWord(Point(5, 5)), CoarseWord(Point(0, 1)), CoarseWord(Point(2, 1))];
            LrRunAsWritten(0, ws, info) == 3 && LrRun(0, ws, info) == 1
  {
    var rack, feed, far := CoarseWord(Point(2, 1)), CoarseWord(Point(0, 1)), CoarseWord(Point(5, 5));
    var ws := [rack, feed, rack];
    assert ws[1..] == [feed, rack] && ws[1..][1..] == [rack] && ws[1..][1..][1..] == [];
    assert LrRun(0, ws, info) == LrRun(1, [feed, rack], info) == LrRun(2, [rack], info) == 3;
    assert LrRunAsWritten(0, ws, info) == LrRunAsWritten(0, [feed, rack], info)
           == LrRunAsWritten(1, [rack], info) == 1;
    var vs := [far, feed, rack];
    assert vs[1..] == [feed, rack];
    assert LrRunAsWritten(0, vs, info) == LrRunAsWritten(1, [feed, rack], info)
           == LrRunAsWritten(2, [rack], info) == 3;
    assert LrRun(0, vs, info) == LrRun(0, [feed, rack], info) == LrRun(0, [rack], info) == 1;
  }

  // ---------------------------------------------------------------------
  // Fine replenishment: face the selected rack, pick it up, carry it to face
  // the selected feed point, carry it back to face the rack, drop it; 5 is
  // finished, 6 is done and 7 is the fail sink (the rack was dropped or
  // picked up at the wrong time).
  // ---------------------------------------------------------------------

  /** The cell the agent faces in word w. */
  function FrontOf(w: FineWord, info: Info): Option<Point>
    reads info
    requires w.dir in info.rotation
  {
    FrontPos(w.pos, w.dir, info.rotation, info.width, info.height)
  }

  /** goto_rand_rackpos: the front cell is computed first (a direction without
      a rotation entry panics); carrying anything is a failure; otherwise 1
      when the agent faces the selected rack, else 0. */
  function GotoRandRackpos(w: FineWord, info: Info): int
    reads info
    requires w.dir in info.rotation
    requires w.carrying == 0 && FrontOf(w, info).Some? ==> info.lookupRack < |info.racks|
  {
    var front := FrontOf(w, info);
    if w.carrying == 0 then
      if front.Some? && front.value == info.racks[info.lookupRack] then 1 else 0
    else 7
  }

  /** pickup_rack_at_pos: 2 once carrying, otherwise 1. */
  function PickupRackAtPos(w: FineWord): int {
    if w.carrying == 1 then 2 else 1
  }

  /** carry_rack_to_feed0: not carrying is a failure; otherwise 3 when the
      agent faces the selected feed point, else 2. */
  function CarryRackToFeed(w: FineWord, info: Info): int
    reads info
    requires w.dir in info.rotation
    requires w.carrying == 1 && FrontOf(w, info).Some? ==> info.feedOption < |info.feeds|
  {
    var front := FrontOf(w, info);
    if w.carrying == 1 then
      if front.Some? && front.value == info.feeds[info.feedOption] then 3 else 2
    else 7
  }

  /** carry_rack_back_to_pos: not carrying is a failure; otherwise 4 when the
      agent faces the selected rack, else 3. */
  function CarryRackBackToPos(w: FineWord, info: Info): int
    reads info
    requires w.dir in info.rotation
    requires w.carrying == 1 && FrontOf(w, info).Some? ==> info.lookupRack < |info.racks|
  {
    var front := FrontOf(w, info);
    if w.carrying == 1 then
      if front.Some? && front.value == info.racks[info.lookupRack] then 4 else 3
    else 7
  }

  /** drop_rack: 5 once not carrying, otherwise 4. */
  function DropRack(w: FineWord): int {
    if w.carrying == 0 then 5 else 4
  }

  /** Whether hr_replenishment can read word w in state q without panicking. */
  predicate HrDefined(q: int, w: FineWord, info: Info)
    reads info
  {
    && (q == 0 || q == 2 || q == 3 ==> w.dir in info.rotation)
    && (q == 0 && w.carrying == 0 && w.dir in info.rotation && FrontOf(w, info).Some? ==>
          info.lookupRack < |info.racks|)
    && (q == 2 && w.carrying == 1 && w.dir in info.rotation && FrontOf(w, info).Some? ==>
          info.feedOption < |info.feeds|)
    && (q == 3 && w.carrying == 1 && w.dir in info.rotation && FrontOf(w, info).Some? ==>
          info.lookupRack < |info.racks|)
  }

  /** hr_replenishment. */
  function HrReplenishment(q: int, w: FineWord, info: Info): (r: int)
    reads info
    requires HrDefined(q, w, info)
    ensures 0 <= q <= 7 ==> q <= r <= 7
    ensures !(0 <= q <= 7) <==> r == -1
    // states 0 to 4 either stay, advance by one or fail
    ensures 0 <= q <= 4 ==> r == q || r == q + 1 || r == 7
    // the fail sink is entered only from 0, 2 and 3, and only by carrying
    // at the wrong time
    ensures r == 7 && q != 7 <==> (q == 0 && w.carrying != 0) || ((q == 2 || q == 3) && w.carrying != 1)
    ensures q == 0 && w.carrying == 0 ==>
              (r == 1 <==> FrontOf(w, info).Some? && FrontOf(w, info).value == info.racks[info.lookupRack])
    ensures q == 1 ==> (r == 2 <==> w.carrying == 1)
    ensures q == 2 && w.carrying == 1 ==>
              (r == 3 <==> FrontOf(w, info).Some? && FrontOf(w, info).value == info.feeds[info.feedOption])
    ensures q == 3 && w.carrying == 1 ==>
              (r == 4 <==> FrontOf(w, info).Some? && FrontOf(w, info).value == info.racks[info.lookupRack])
    ensures q == 4 ==> (r == 5 <==> w.carrying == 0)
    ensures q == 5 || q == 6 ==> r == 6
    ensures q == 7 ==> r == 7
  {
    match q
    case 0 => GotoRandRackpos(w, info)
    case 1 => PickupRackAtPos(w)
    case 2 => CarryRackToFeed(w, info)
    case 3 => CarryRackBackToPos(w, info)
    case 4 => DropRack(w)
    case 5 => 6
    case 6 => 6
    case 7 => 7
    case _ => -1
  }

  /** The state after reading the words in order from q; every word must have
      a direction of the rotation mapping and both selectors must be in
      range, which covers every state. */
  function HrRun(q: int, ws: seq<FineWord>, info: Info): int
    reads info
    requires info.lookupRack < |info.racks| && info.feedOption < |info.feeds|
    requires forall i :: 0 <= i < |ws| ==> ws[i].dir in info.rotation
    decreases |ws|
  {
    if ws == [] then q else HrRun(HrReplenishment(q, ws[0], info), ws[1..], info)
  }

  /** A run of the fine replenishment automaton never goes back: it ends in
      a state at least as far as its start, and inside 0 .. 7. */
  lemma {:induction false} HrRunMonotone(q: int, ws: seq<FineWord>, info: Info)
    requires info.lookupRack < |info.racks| && info.feedOption < |info.feeds|
    requires forall i :: 0 <= i < |ws| ==> ws[i].dir in info.rotation
    requires 0 <= q <= 7
    ensures q <= HrRun(q, ws, info) <= 7
    decreases |ws|
  {
    if ws != [] {
      HrRunMonotone(HrReplenishment(q, ws[0], info), ws[1..], info);
    }
  }

  /** The done state 6 and the fail sink 7 are absorbing for whole runs. */
  lemma {:induction false} HrRunAbsorbing(q: int, ws: seq<FineWord>, info: Info)
    requires info.lookupRack < |info.racks| && info.feedOption < |info.feeds|
    requires forall i :: 0 <= i < |ws| ==> ws[i].dir in info.rotation
    requires q == 6 || q == 7
    ensures HrRun(q, ws, info) == q
  {
    if ws != [] {
      HrRunAbsorbing(q, ws[1..], info);
    }
  }

  /** A run that stops carrying the rack on its way to the feed point fails
      for good, whatever follows. */
  lemma HrDropOnTheWayFails(q: int, ws: seq<FineWord>, info: Info)
    requires info.lookupRack < |info.racks| && info.feedOption < |info.feeds|
    requires forall i :: 0 <= i < |ws| ==> ws[i].dir in info.rotation
    requires q == 2 && |ws| > 0 && ws[0].carrying == 0
    ensures HrRun(q, ws, info) == 7
  {
    HrRunAbsorbing(7, ws[1..], info);
  }

  // ---------------------------------------------------------------------
  // Regeneration: go to the agent's queue point; 1 is finished and 2 is
  // done.  The queue point is a field the warehouse binary sets on its
  // Info, outside the Info type that is modelled, so it is a parameter.
  // ---------------------------------------------------------------------

  /** regeneration. */
  function Regeneration(q: int, w: FineWord, queuePoint: Point): (r: int)
    ensures 0 <= q <= 2 ==> q <= r <= 2 && r <= q + 1
    ensures !(0 <= q <= 2) <==> r == -1
    ensures q == 0 ==> (r == 1 <==> w.pos == queuePoint)
    ensures q == 1 || q == 2 ==> r == 2
  {
    match q
    case 0 => if w.pos == queuePoint then 1 else 0
    case 1 => 2
    case 2 => 2
    case _ => -1
  }

  function RegenRun(q: int, ws: seq<FineWord>, queuePoint: Point): int
    decreases |ws|
  {
    if ws == [] then q else RegenRun(Regeneration(q, ws[0], queuePoint), ws[1..], queuePoint)
  }

  /** From the start, the regeneration task is finished or done exactly when
      the agent has stood on the queue point, and done exactly when a word
      follows that visit. */
  lemma {:induction false} RegenRunVisits(ws: seq<FineWord>, queuePoint: Point)
    ensures RegenRun(0, ws, queuePoint) >= 1 <==> exists i :: 0 <= i < |ws| && ws[i].pos == queuePoint
    ensures RegenRun(0, ws, queuePoint) == 2 <==> exists i :: 0 <= i < |ws| - 1 && ws[i].pos == queuePoint
  {
    if ws != [] {
      var rest := ws[1..];
      if ws[0].pos == queuePoint {
        RegenAfterVisit(rest, queuePoint);
        assert RegenRun(0, ws, queuePoint) == RegenRun(1, rest, queuePoint);
        if rest != [] {
          assert 0 < |ws| - 1;
        }
      } else {
        RegenRunVisits(rest, queuePoint);
        assert RegenRun(0, ws, queuePoint) == RegenRun(0, rest, queuePoint);
        if exists i :: 0 <= i < |ws| && ws[i].pos == queuePoint {
          var i :| 0 <= i < |ws| && ws[i].pos == queuePoint;
          assert i > 0 && rest[i - 1].pos == queuePoint;
        }
        if exists i :: 0 <= i < |rest| && rest[i].pos == queuePoint {
          var i :| 0 <= i < |rest| && rest[i].pos == queuePoint;
          assert ws[i + 1].pos == queuePoint;
        }
        if exists i :: 0 <= i < |ws| - 1 && ws[i].pos == queuePoint {
          var i :| 0 <= i < |ws| - 1 && ws[i].pos == queuePoint;
          assert i > 0 && rest[i - 1].pos == queuePoint;
        }
        if exists i :: 0 <= i < |rest| - 1 && rest[i].pos == queuePoint {
          var i :| 0 <= i < |rest| - 1 && rest[i].pos == queuePoint;
          assert ws[i + 1].pos == queuePoint;
        }
      }
    }
  }

  /** After the visit the automaton is in its finish state, and done after one more word. */
  lemma {:induction false} RegenAfterVisit(ws: seq<FineWord>, queuePoint: Point)
    ensures RegenRun(1, ws, queuePoint) == if ws == [] then 1 else 2
    ensures RegenRun(2, ws, queuePoint) == 2
  {
    if ws != [] {
      RegenAfterVisit(ws[1..], queuePoint);
    }
  }
}
