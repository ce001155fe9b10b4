// The coarse-resolution warehouse: the fine grid is shrunk by a factor
// grid_square into a wnew x hnew grid; the agent is just a cell and moves
// left, right, up or down, clamped at the borders and held in place in the
// rack aisles.  The robot object registers the cells with a dense index and
// fills its transition table in place.

module CoarseWorld {
  import opened Common
  import opened Geometry
  import opened Layout

  /** LowResWord: the observation is the agent's cell. */
  datatype CoarseWord = CoarseWord(agentPosition: Point)

  const LeftAction := 0
  const RightAction := 1
  const UpAction := 2
  const DownAction := 3

  // ---------------------------------------------------------------------
  // The state space.
  // ---------------------------------------------------------------------

  /** ceil(n / g), which state_space computes as `(n as f64 / g as f64).ceil()`;
      for i32 operands the floating-point quotient is never rounded onto an
      integer, so the integer ceiling is exact. */
  function CeilDiv(n: int, g: nat): (r: int)
    requires g > 0
    ensures (r - 1) * g < n <= r * g
    ensures n >= 0 ==> r >= 0
  {
    var q := (n + g - 1) / g;
    assert n + g - 1 == q * g + (n + g - 1) % g;
    q
  }

  /** The cells state_space registers, in iproduct order: x-major, so the
      cells of column 0 first, each column from y = 0 upwards.  A negative
      bound gives an empty range. */
  function Cells(wn: int, hn: int): seq<Point> {
    if wn <= 0 || hn <= 0 then [] else GridCells(wn, hn)
  }

  /** The words registered alongside a list of cells. */
  function CoarseWords(e: seq<Point>): seq<CoarseWord> {
    seq(|e|, i requires 0 <= i < |e| => CoarseWord(e[i]))
  }


  /** Cell (x, y) sits at position x * height + y of the enumeration. */
  lemma {:induction false} GridCellsAt(xEnd: nat, height: nat, x: int, y: int)
    requires 0 <= x < xEnd && 0 <= y < height
    ensures x * height + y < |GridCells(xEnd, height)|
    ensures GridCells(xEnd, height)[x * height + y] == Point(x, y)
  {
    var a, b := GridCells(xEnd - 1, height), ColumnCells(xEnd - 1, height);
    assert GridCells(xEnd, height) == a + b;
    GridCellsCount(xEnd - 1, height);
    ColumnCellsShape(xEnd - 1, height);
    if x < xEnd - 1 {
      GridCellsAt(xEnd - 1, height, x, y);
    } else {
      assert |a| == x * height;
    }
  }

  /** state_space registers exactly the cells of the wn x hn grid, each once,
      wn * hn of them. */
  lemma CellsShape(wn: int, hn: int)
    ensures forall p :: p in Cells(wn, hn) <==> InGrid(p, wn, hn)
    ensures Distinct(Cells(wn, hn))
    ensures wn >= 0 && hn >= 0 ==> |Cells(wn, hn)| == wn * hn
  {
    if wn > 0 && hn > 0 {
      GridCellsShape(wn, hn);
    } else {
      assert Cells(wn, hn) == [];
    }
  }

  /** Cell p of the wn x hn grid gets index p.x * hn + p.y, and the reverse
      map gives that index the cell back. */
  lemma CellIndex(wn: int, hn: int, p: Point)
    requires InGrid(p, wn, hn)
    ensures p in Indexing(Cells(wn, hn)) && Indexing(Cells(wn, hn))[p] == p.x * hn + p.y
    ensures p.x * hn + p.y in Inverse(Cells(wn, hn), Indexing(Cells(wn, hn)))
            && Inverse(Cells(wn, hn), Indexing(Cells(wn, hn)))[p.x * hn + p.y] == p
  {
    var e := Cells(wn, hn);
    assert Distinct(e) by {
      GridCellsCount(wn, hn);
    }
    GridCellsAt(wn, hn, p.x, p.y);
    IndexingDense(e);
    assert e[p.x * hn + p.y] == p;
  }

  /** The reverse map is defined on exactly the indices 0 .. |cells| - 1. */
  lemma CellsInverseDomain(wn: int, hn: int, i: int)
    ensures i in Inverse(Cells(wn, hn), Indexing(Cells(wn, hn))) <==> 0 <= i < |Cells(wn, hn)|
  {
    var e := Cells(wn, hn);
    if 0 <= i < |e| {
      assert Distinct(e) by {
        if wn > 0 && hn > 0 {
          GridCellsCount(wn, hn);
        }
      }
      IndexingDense(e);
    }
  }

  // ---------------------------------------------------------------------
  // The step.
  // ---------------------------------------------------------------------

  /** Lexicographic order on (x, y), the order of the source's tuples. */
  predicate LexLeq(a: Point, b: Point) {
    a.x < b.x || (a.x == b.x && a.y <= b.y)
  }

  /** `rack_positions.iter().min()`: the least rack in lexicographic order. */
  function LexMin(s: seq<Point>): (r: Point)
    requires s != []
    ensures r in s && forall q :: q in s ==> LexLeq(r, q)
  {
    if |s| == 1 then s[0]
    else
      var m := LexMin(s[1..]);
      assert s == [s[0]] + s[1..];
      if LexLeq(s[0], m) then s[0] else m
  }

  /** `rack_positions.iter().max()`: the greatest rack in lexicographic order. */
  function LexMax(s: seq<Point>): (r: Point)
    requires s != []
    ensures r in s && forall q :: q in s ==> LexLeq(q, r)
  {
    if |s| == 1 then s[0]
    else
      var m := LexMax(s[1..]);
      assert s == [s[0]] + s[1..];
      if LexLeq(m, s[0]) then s[0] else m
  }

  /** The aisle rule: an odd column at least two columns left of the greatest
      rack, between the y of the least rack and the y of the greatest rack.
      (An i32 `x % 2 != 0` holds exactly for odd x, as Dafny's `%` does.) */
  predicate InAisle(s: Point, racks: seq<Point>)
    requires racks != []
  {
    s.x <= LexMax(racks).x - 2 && LexMin(racks).y <= s.y <= LexMax(racks).y && s.x % 2 != 0
  }

  /** The cell the step moves to.  The source panics on an empty rack list
      (the min/max unwraps) and on an action outside 0 .. 3. */
  function CoarseNext(s: Point, a: int, w: int, h: int, racks: seq<Point>): (r: Point)
    requires racks != [] && 0 <= a < 4
    // at most one cell, and along the axis of the action
    ensures r == s || (a == LeftAction && r == Point(s.x - 1, s.y)) || (a == RightAction && r == Point(s.x + 1, s.y))
                   || (a == UpAction && r == Point(s.x, s.y + 1)) || (a == DownAction && r == Point(s.x, s.y - 1))
    // when the move happens
    ensures a == LeftAction ==> (r != s <==> s.x > 0)
    ensures a == RightAction ==> (r != s <==> s.x < w - 1)
    ensures a == UpAction ==> (r != s <==> !InAisle(s, racks) && s.y < h - 1)
    ensures a == DownAction ==> (r != s <==> !InAisle(s, racks) && s.y > 0)
    // an in-grid cell never leaves the grid
    ensures InGrid(s, w, h) ==> InGrid(r, w, h)
  {
    if a == LeftAction then
      if s.x > 0 then Point(s.x - 1, s.y) else s
    else if a == RightAction then
      if s.x < w - 1 then Point(s.x + 1, s.y) else s
    else if a == UpAction then
      if InAisle(s, racks) then s
      else if s.y < h - 1 then Point(s.x, s.y + 1) else s
    else
      if InAisle(s, racks) then s
      else if s.y > 0 then Point(s.x, s.y - 1) else s
  }

  /** Whether step gets through action a from s without panicking: one of
      the four moves, at least one rack, and an index for the new cell. */
  predicate CanMove(s: Point, a: int, w: int, h: int, racks: seq<Point>, mapping: map<Point, nat>) {
    0 <= a < 4 && racks != [] && CoarseNext(s, a, w, h, racks) in mapping
  }

  /** step: the one successor, by index, with probability 1 and the word of
      the new cell.  The source unwraps the new cell's index. */
  function Successors(s: Point, a: int, w: int, h: int, info: Info, mapping: map<Point, nat>)
    : (r: seq<(nat, real, CoarseWord)>)
    reads info
    requires CanMove(s, a, w, h, info.racks, mapping)
    ensures |r| == 1 && r[0].1 == 1.0 && r[0].2.agentPosition == CoarseNext(s, a, w, h, info.racks)
    ensures r[0].0 == mapping[r[0].2.agentPosition]
  {
    var next := CoarseNext(s, a, w, h, info.racks);
    [(mapping[next], 1.0, CoarseWord(next))]
  }

  /** Moving left and then right, or right and then left, returns to the
      start away from the corresponding border. */
  lemma LeftRightInverse(s: Point, w: int, h: int, racks: seq<Point>)
    requires racks != []
    ensures 0 < s.x < w ==> CoarseNext(CoarseNext(s, LeftAction, w, h, racks), RightAction, w, h, racks) == s
    ensures 0 <= s.x < w - 1 ==> CoarseNext(CoarseNext(s, RightAction, w, h, racks), LeftAction, w, h, racks) == s
  {
  }

  /** Moving up and then down returns to the start when neither cell lies in
      an aisle and the start is below the top row; symmetrically for down
      and then up. */
  lemma UpDownInverse(s: Point, w: int, h: int, racks: seq<Point>)
    requires racks != []
    ensures 0 <= s.y < h - 1 && !InAisle(s, racks) && !InAisle(Point(s.x, s.y + 1), racks) ==>
              CoarseNext(CoarseNext(s, UpAction, w, h, racks), DownAction, w, h, racks) == s
    ensures 0 < s.y < h && !InAisle(s, racks) && !InAisle(Point(s.x, s.y - 1), racks) ==>
              CoarseNext(CoarseNext(s, DownAction, w, h, racks), UpAction, w, h, racks) == s
  {
  }

  /** In an aisle the vertical moves are no-ops, whatever the borders. */
  lemma AisleHoldsVertical(s: Point, w: int, h: int, racks: seq<Point>)
    requires racks != [] && InAisle(s, racks)
    ensures CoarseNext(s, UpAction, w, h, racks) == s && CoarseNext(s, DownAction, w, h, racks) == s
  {
  }

  // ---------------------------------------------------------------------
  // The transition table.
  // ---------------------------------------------------------------------

  /** Whether transition_map gets through `states` without panicking: every
      state has an index, and for every action a < na the action is one of
      the four moves, the rack list is not empty and the new cell has an
      index. */
  predicate Lookups(states: seq<Point>, mapping: map<Point, nat>, na: int, w: int, h: int, info: Info)
    reads info
  {
    forall i :: 0 <= i < |states| ==>
      && states[i] in mapping
      && forall a :: 0 <= a < na ==> CanMove(states[i], a, w, h, info.racks, mapping)
  }

  /** Table t after storing the entries of state s for actions 0 .. upto - 1,
      in order. */
  function RowInto(t: map<(nat, int), seq<(nat, real, CoarseWord)>>, s: Point, upto: int, w: int, h: int,
                   info: Info, mapping: map<Point, nat>): map<(nat, int), seq<(nat, real, CoarseWord)>>
    reads info
    requires s in mapping
    requires forall a :: 0 <= a < upto ==> CanMove(s, a, w, h, info.racks, mapping)
    decreases upto
  {
    if upto <= 0 then t
    else RowInto(t, s, upto - 1, w, h, info, mapping)[Key(mapping[s], upto - 1) := Successors(s, upto - 1, w, h, info, mapping)]
  }

  /** The transition table after processing `states` in order over table t. */
  function TableAfter(t: map<(nat, int), seq<(nat, real, CoarseWord)>>, states: seq<Point>, na: int, w: int, h: int,
                      info: Info, mapping: map<Point, nat>): map<(nat, int), seq<(nat, real, CoarseWord)>>
    reads info
    requires Lookups(states, mapping, na, w, h, info)
  {
    if states == [] then t
    else
      var init := states[..|states| - 1];
      assert forall i :: 0 <= i < |init| ==> init[i] == states[i];
      RowInto(TableAfter(t, init, na, w, h, info, mapping), states[|states| - 1], na, w, h, info, mapping)
  }

  /** Storing a row sets exactly the keys of that state's index and the
      stored actions. */
  lemma {:induction false} RowIntoLookup(t: map<(nat, int), seq<(nat, real, CoarseWord)>>, s: Point, upto: int,
                                          w: int, h: int, info: Info, mapping: map<Point, nat>, k: (nat, int))
    requires s in mapping
    requires forall a :: 0 <= a < upto ==> CanMove(s, a, w, h, info.racks, mapping)
    ensures k.0 == mapping[s] && 0 <= k.1 < upto ==>
              k in RowInto(t, s, upto, w, h, info, mapping)
              && RowInto(t, s, upto, w, h, info, mapping)[k] == Successors(s, k.1, w, h, info, mapping)
    ensures !(k.0 == mapping[s] && 0 <= k.1 < upto) ==>
              (k in RowInto(t, s, upto, w, h, info, mapping) <==> k in t)
              && (k in t ==> RowInto(t, s, upto, w, h, info, mapping)[k] == t[k])
    decreases upto
  {
    if upto > 0 {
      RowIntoLookup(t, s, upto - 1, w, h, info, mapping, k);
    }
  }

  /** The table transition_map builds holds, for the i-th state and every
      action a < na, the one successor of step from that state, provided the
      index gives different states different numbers. */
  lemma {:induction false} TableAfterLookup(t: map<(nat, int), seq<(nat, real, CoarseWord)>>, states: seq<Point>,
                                             na: int, w: int, h: int, info: Info, mapping: map<Point, nat>,
                                             i: int, a: int)
    requires Lookups(states, mapping, na, w, h, info)
    requires forall j, l :: 0 <= j < l < |states| ==> mapping[states[j]] != mapping[states[l]]
    requires 0 <= i < |states| && 0 <= a < na
    ensures Key(mapping[states[i]], a) in TableAfter(t, states, na, w, h, info, mapping)
    ensures TableAfter(t, states, na, w, h, info, mapping)[Key(mapping[states[i]], a)]
            == Successors(states[i], a, w, h, info, mapping)
  {
    var init, last := states[..|states| - 1], states[|states| - 1];
    assert forall j :: 0 <= j < |init| ==> init[j] == states[j];
    var k := Key(mapping[states[i]], a);
    RowIntoLookup(TableAfter(t, init, na, w, h, info, mapping), last, na, w, h, info, mapping, k);
    if i < |init| {
      TableAfterLookup(t, init, na, w, h, info, mapping, i, a);
      assert mapping[states[i]] != mapping[last];
    }
  }

  /** With the grid state_space registers for a factor of 1 (as the warehouse
      binary calls it), four actions and at least one rack, transition_map
      finds every index it looks up. */
  lemma GeneratedSpaceLookups(w: int, h: int, info: Info)
    requires info.racks != []
    ensures Lookups(Cells(CeilDiv(w, 1), CeilDiv(h, 1)), Indexing(Cells(CeilDiv(w, 1), CeilDiv(h, 1))), 4, w, h, info)
  {
    assert CeilDiv(w, 1) == w && CeilDiv(h, 1) == h;
    var cells := Cells(w, h);
    CellsShape(w, h);
    forall i | 0 <= i < |cells|
      ensures cells[i] in Indexing(cells)
      ensures forall a :: 0 <= a < 4 ==> CanMove(cells[i], a, w, h, info.racks, Indexing(cells))
    {
      assert cells[i] in cells;
      CellIndex(w, h, cells[i]);
      forall a | 0 <= a < 4
        ensures CanMove(cells[i], a, w, h, info.racks, Indexing(cells))
      {
        CellIndex(w, h, CoarseNext(cells[i], a, w, h, info.racks));
      }
    }
    assert Lookups(cells, Indexing(cells), 4, w, h, info);
  }

  // ---------------------------------------------------------------------
  // The robot object.
  // ---------------------------------------------------------------------

  /** Robot<LowResState, LowResWord>. */
  class CoarseRobot {
    var states: seq<Point>
    var initState: Point
    const numActions: nat
    var stateMapping: map<Point, nat>
    var words: seq<CoarseWord>
    var reverseMapping: map<nat, Point>
    var transitions: map<(nat, int), seq<(nat, real, CoarseWord)>>
    var rewards: map<(nat, int), real>

    /** make: actions 0 .. na - 1, everything else empty. */
    constructor Make(na: nat, init: Point)
      ensures numActions == na && initState == init
      ensures states == [] && stateMapping == map[] && words == [] && reverseMapping == map[]
      ensures transitions == map[] && rewards == map[]
    {
      states := [];
      initState := init;
      numActions := na;
      stateMapping := map[];
      words := [];
      reverseMapping := map[];
      transitions := map[];
      rewards := map[];
    }

    /** The registered lists are the base lists extended by `added`, each
        added cell indexed by its position in `added`. */
    ghost predicate RegisteredSince(baseStates: seq<Point>, baseWords: seq<CoarseWord>,
                                    baseMap: map<Point, nat>, added: seq<Point>)
      reads this
    {
      states == baseStates + added && words == baseWords + CoarseWords(added)
      && stateMapping == baseMap + Indexing(added)
    }

    /** The inner loop of state_space: the cells of column x, from y = 0 up,
        indexed from `counter` on. */
    method RegisterColumn(x: int, hn: nat, counter: nat,
                          ghost baseStates: seq<Point>, ghost baseWords: seq<CoarseWord>,
                          ghost baseMap: map<Point, nat>, ghost added: seq<Point>)
      returns (next: nat)
      requires RegisteredSince(baseStates, baseWords, baseMap, added) && counter == |added|
      modifies this`states, this`stateMapping, this`words
      ensures RegisteredSince(baseStates, baseWords, baseMap, added + ColumnCells(x, hn))
      ensures next == counter + hn
    {
      next := counter;
      ghost var done: seq<Point> := [];
      assert added + done == added;
      for y := 0 to hn
        invariant done == ColumnCells(x, y) && next == counter + y && |done| == y
        invariant RegisteredSince(baseStates, baseWords, baseMap, added + done)
      {
        var p := Point(x, y);
        states := states + [p];
        stateMapping := stateMapping[p := next];
        words := words + [CoarseWord(p)];
        IndexedOne(baseMap, added + done, p);
        CoarseWordsSnoc(baseWords, added + done, p);
        assert added + done + [p] == added + (done + [p]);
        done := done + [p];
        next := next + 1;
      }
    }

    /** state_space: register the cells of the ceil(w / g) x ceil(h / g) grid
        in iproduct order, indexed from 0, then build the reverse map; the
        new grid size is returned. */
    method StateSpace(w: int, h: int, g: nat) returns (wnew: int, hnew: int)
      requires g > 0
      modifies this`states, this`stateMapping, this`words, this`reverseMapping
      ensures wnew == CeilDiv(w, g) && hnew == CeilDiv(h, g)
      ensures states == old(states) + Cells(wnew, hnew)
      ensures words == old(words) + CoarseWords(Cells(wnew, hnew))
      ensures stateMapping == old(stateMapping) + Indexing(Cells(wnew, hnew))
      ensures reverseMapping == Inverse(states, stateMapping)
    {
      wnew := CeilDiv(w, g);
      hnew := CeilDiv(h, g);
      // an empty range when either bound is not positive
      var wn: nat := if wnew <= 0 || hnew <= 0 then 0 else wnew;
      var hn: nat := if hnew <= 0 then 0 else hnew;
      ghost var baseStates, baseWords, baseMap := states, words, stateMapping;
      ghost var added: seq<Point> := [];
      assert baseStates + [] == baseStates && baseWords + CoarseWords([]) == baseWords;
      assert baseMap + Indexing(added) == baseMap;
      var ix: nat := 0;
      for x := 0 to wn
        invariant added == GridCells(x, hn) && ix == |added|
        invariant RegisteredSince(baseStates, baseWords, baseMap, added)
      {
        ix := RegisterColumn(x, hn, ix, baseStates, baseWords, baseMap, added);
        ColumnCellsShape(x, hn);
        added := added + ColumnCells(x, hn);
      }
      assert added == Cells(wnew, hnew);
      reverseMapping := Inverse(states, stateMapping);
    }

    /** transition_map: for every registered state and every action, store
        its one successor and the reward r. */
    method TransitionMap(r: real, w: int, h: int, info: Info)
      requires Lookups(states, stateMapping, numActions, w, h, info)
      modifies this`transitions, this`rewards
      ensures transitions == TableAfter(old(transitions), states, numActions, w, h, info, stateMapping)
      ensures rewards == RewardsAfter(old(rewards), states, numActions, stateMapping, r)
    {
      var all := states;
      for i := 0 to |all|
        invariant transitions == TableAfter(old(transitions), all[..i], numActions, w, h, info, stateMapping)
        invariant rewards == RewardsAfter(old(rewards), all[..i], numActions, stateMapping, r)
      {
        LookupsPrefix(all, stateMapping, numActions, w, h, info, i + 1);
        assert all[..i + 1][..i] == all[..i] && all[..i + 1][i] == all[i];
        FillRow(all[i], r, w, h, info);
      }
      assert all[..|all|] == all;
    }

    /** The action loop of transition_map for one state. */
    method FillRow(s: Point, r: real, w: int, h: int, info: Info)
      requires s in stateMapping
      requires forall a :: 0 <= a < numActions ==> CanMove(s, a, w, h, info.racks, stateMapping)
      modifies this`transitions, this`rewards
      ensures transitions == RowInto(old(transitions), s, numActions, w, h, info, stateMapping)
      ensures rewards == RewardInto(old(rewards), stateMapping[s], numActions, r)
    {
      var idx := stateMapping[s];
      var t, rw := transitions, rewards;
      for a := 0 to numActions
        invariant t == RowInto(transitions, s, a, w, h, info, stateMapping)
        invariant rw == RewardInto(rewards, idx, a, r)
      {
        t := t[Key(idx, a) := Successors(s, a, w, h, info, stateMapping)];
        rw := rw[Key(idx, a) := r];
      }
      transitions, rewards := t, rw;
    }
  }

  lemma LookupsPrefix(states: seq<Point>, mapping: map<Point, nat>, na: int, w: int, h: int, info: Info, k: nat)
    requires Lookups(states, mapping, na, w, h, info) && k <= |states|
    ensures Lookups(states[..k], mapping, na, w, h, info)
  {
    assert forall i :: 0 <= i < k ==> states[..k][i] == states[i];
  }

  /** Registering one more cell keeps the words in step with the cells. */
  lemma CoarseWordsSnoc(baseWords: seq<CoarseWord>, added: seq<Point>, p: Point)
    ensures baseWords + CoarseWords(added) + [CoarseWord(p)] == baseWords + CoarseWords(added + [p])
  {
    var e := added + [p];
    assert forall i :: 0 <= i < |added| ==> e[i] == added[i];
    assert CoarseWords(e) == CoarseWords(added) + [CoarseWord(p)];
  }
}
