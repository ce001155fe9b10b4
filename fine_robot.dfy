// The fine-resolution robot model: the state space warehouse_state_space
// enumerates over the corridor cells, its dense index, and the transition
// table warehouse_transition_map fills in place.

module FineRobot {
  import opened Common
  import opened Geometry
  import opened Layout
  import opened FineWorld

  // ---------------------------------------------------------------------
  // The enumeration order of warehouse_state_space: for each corridor cell p,
  // for each direction, first the states where a pack lies on another
  // corridor cell, then the state with no pack, then the carrying state.
  // ---------------------------------------------------------------------

  function PackState(p: Point, dir: Byte, p2: Point): FineState {
    FineState(dir, p, 0, 1, p2)
  }

  function EmptyState(p: Point, dir: Byte): FineState {
    FineState(dir, p, 0, 0, NoPack)
  }

  function CarryState(p: Point, dir: Byte): FineState {
    FineState(dir, p, 1, 0, NoPack)
  }

  /** Agent at p facing dir, not carrying, a pack on each other cell of cs. */
  function PackStates(p: Point, dir: Byte, cs: seq<Point>): seq<FineState> {
    if cs == [] then []
    else
      var last := cs[|cs| - 1];
      PackStates(p, dir, cs[..|cs| - 1]) + (if last != p then [PackState(p, dir, last)] else [])
  }

  function StatesAt(p: Point, dir: Byte, cs: seq<Point>): seq<FineState> {
    PackStates(p, dir, cs) + [EmptyState(p, dir), CarryState(p, dir)]
  }

  /** The states of agent cell p for directions 0 .. d - 1. */
  function DirStates(p: Point, cs: seq<Point>, d: nat): seq<FineState>
    requires d <= 4
  {
    if d == 0 then [] else DirStates(p, cs, d - 1) + StatesAt(p, d - 1, cs)
  }

  /** The states for agent cells ps, with packs ranging over cs. */
  function EnumerateFrom(ps: seq<Point>, cs: seq<Point>): seq<FineState> {
    if ps == [] then [] else EnumerateFrom(ps[..|ps| - 1], cs) + DirStates(ps[|ps| - 1], cs, 4)
  }

  /** The list warehouse_state_space registers for corridor list cs. */
  function StateSpace(cs: seq<Point>): seq<FineState> {
    EnumerateFrom(cs, cs)
  }

  /** The shape of a generated state apart from the agent's cell. */
  predicate Shape(st: FineState, cs: seq<Point>) {
    && st.dir < 4
    && (|| (st.carrying == 0 && st.packAvailable == 1 && st.packPos in cs && st.packPos != st.pos)
        || (st.carrying == 0 && st.packAvailable == 0 && st.packPos == NoPack)
        || (st.carrying == 1 && st.packAvailable == 0 && st.packPos == NoPack))
  }

  predicate InStateSpace(st: FineState, cs: seq<Point>) {
    st.pos in cs && Shape(st, cs)
  }

  /** Number of cells of cs other than p. */
  function Others(p: Point, cs: seq<Point>): nat {
    if p in cs then |cs| - 1 else |cs|
  }

  lemma {:induction false} PackStatesShape(p: Point, dir: Byte, cs: seq<Point>)
    ensures forall st :: st in PackStates(p, dir, cs) <==>
              st.pos == p && st.dir == dir && st.carrying == 0 && st.packAvailable == 1
              && st.packPos in cs && st.packPos != p
    ensures Distinct(cs) ==> Distinct(PackStates(p, dir, cs)) && |PackStates(p, dir, cs)| == Others(p, cs)
  {
    if cs != [] {
      var init, last := cs[..|cs| - 1], cs[|cs| - 1];
      PackStatesShape(p, dir, init);
      assert cs == init + [last];
      if Distinct(cs) {
        assert Distinct(init);
        assert last !in init;
        var tail := if last != p then [PackState(p, dir, last)] else [];
        DistinctConcat(PackStates(p, dir, init), tail);
      }
    }
  }

  lemma StatesAtShape(p: Point, dir: Byte, cs: seq<Point>)
    requires dir < 4
    ensures forall st :: st in StatesAt(p, dir, cs) <==> st.pos == p && st.dir == dir && Shape(st, cs)
    ensures Distinct(cs) ==> Distinct(StatesAt(p, dir, cs)) && |StatesAt(p, dir, cs)| == Others(p, cs) + 2
  {
    PackStatesShape(p, dir, cs);
    if Distinct(cs) {
      DistinctConcat(PackStates(p, dir, cs), [EmptyState(p, dir), CarryState(p, dir)]);
    }
  }

  lemma {:induction false} DirStatesMembers(p: Point, cs: seq<Point>, d: nat)
    requires d <= 4
    ensures forall st :: st in DirStates(p, cs, d) <==> st.pos == p && st.dir < d && Shape(st, cs)
  {
    if d > 0 {
      DirStatesMembers(p, cs, d - 1);
      StatesAtShape(p, d - 1, cs);
      forall st
        ensures st in DirStates(p, cs, d) <==> st.pos == p && st.dir < d && Shape(st, cs)
      {
        assert st in DirStates(p, cs, d) <==> st in DirStates(p, cs, d - 1) || st in StatesAt(p, d - 1, cs);
      }
    }
  }

  lemma {:induction false} DirStatesCount(p: Point, cs: seq<Point>, d: nat)
    requires d <= 4 && Distinct(cs)
    ensures Distinct(DirStates(p, cs, d)) && |DirStates(p, cs, d)| == d * (Others(p, cs) + 2)
  {
    if d > 0 {
      var k := Others(p, cs) + 2;
      var before, here := DirStates(p, cs, d - 1), StatesAt(p, d - 1, cs);
      assert Distinct(before) && |before| == (d - 1) * k by {
        DirStatesCount(p, cs, d - 1);
      }
      assert Distinct(here) && |here| == k by {
        StatesAtShape(p, d - 1, cs);
      }
      assert forall x :: x in before ==> x !in here by {
        DirStatesMembers(p, cs, d - 1);
        StatesAtShape(p, d - 1, cs);
      }
      DistinctConcat(before, here);
      assert (d - 1) * k + k == d * k;
    }
  }

  /** The enumeration holds exactly the states of the right shape whose agent
      cell is listed. */
  lemma {:induction false} EnumerateFromMembers(ps: seq<Point>, cs: seq<Point>)
    ensures forall st :: st in EnumerateFrom(ps, cs) <==> st.pos in ps && Shape(st, cs)
  {
    if ps != [] {
      var init, last := ps[..|ps| - 1], ps[|ps| - 1];
      assert ps == init + [last];
      EnumerateFromMembers(init, cs);
      DirStatesMembers(last, cs, 4);
      forall st
        ensures st in EnumerateFrom(ps, cs) <==> st.pos in ps && Shape(st, cs)
      {
        assert st in EnumerateFrom(ps, cs) <==> st in EnumerateFrom(init, cs) || st in DirStates(last, cs, 4);
        assert st.pos in ps <==> st.pos in init || st.pos == last;
      }
    }
  }

  /** For duplicate-free lists the enumeration has no duplicates and holds
      4 (|cs| + 1) states per listed cell. */
  lemma {:induction false} EnumerateFromCount(ps: seq<Point>, cs: seq<Point>)
    requires Distinct(ps) && Distinct(cs) && forall p :: p in ps ==> p in cs
    ensures Distinct(EnumerateFrom(ps, cs)) && |EnumerateFrom(ps, cs)| == |ps| * (4 * (|cs| + 1))
  {
    if ps != [] {
      var init, last := ps[..|ps| - 1], ps[|ps| - 1];
      var k := 4 * (|cs| + 1);
      assert ps == init + [last];
      assert Distinct(init) && last !in init && last in cs;
      var before, here := EnumerateFrom(init, cs), DirStates(last, cs, 4);
      assert Distinct(before) && |before| == |init| * k by {
        EnumerateFromCount(init, cs);
      }
      assert Distinct(here) && |here| == k by {
        DirStatesCount(last, cs, 4);
        assert Others(last, cs) + 2 == |cs| + 1;
      }
      assert forall x :: x in before ==> x !in here by {
        EnumerateFromMembers(init, cs);
        DirStatesMembers(last, cs, 4);
      }
      DistinctConcat(before, here);
      MulPred(|ps|, k);
    }
  }

  /** The generated state space: every state of it is consistent, the
      placed pack is on another corridor cell, the carrying and no-pack
      states use the sentinel, and for a duplicate-free corridor list of n
      cells there are 4 n (n + 1) distinct states. */
  lemma StateSpaceProperties(cs: seq<Point>)
    ensures forall st :: st in StateSpace(cs) <==> InStateSpace(st, cs)
    ensures forall st :: st in StateSpace(cs) ==> Consistent(st)
    ensures Distinct(cs) ==> Distinct(StateSpace(cs)) && |StateSpace(cs)| == 4 * |cs| * (|cs| + 1)
  {
    EnumerateFromMembers(cs, cs);
    forall st | st in StateSpace(cs)
      ensures Consistent(st)
    {
      assert Shape(st, cs);
    }
    if Distinct(cs) {
      var n := |cs|;
      assert Distinct(StateSpace(cs)) && |StateSpace(cs)| == n * (4 * (n + 1)) by {
        EnumerateFromCount(cs, cs);
      }
      assert n * (4 * (n + 1)) == 4 * n * (n + 1);
    }
  }

  /** The corridor list covers every free grid cell (true of both the
      as-written and the intended corridor filter). */
  ghost predicate CoversFreeCells(info: Info, cs: seq<Point>)
    reads info
  {
    forall p :: InGrid(p, info.width, info.height) && p !in info.racks && p !in info.feeds ==> p in cs
  }

  lemma CorridorListsCoverFreeCells(info: Info)
    ensures CoversFreeCells(info, CorridorsAsWritten(GridCells(info.width, info.height), info.racks, info.feeds))
    ensures CoversFreeCells(info, IntendedCorridors(GridCells(info.width, info.height), info.racks, info.feeds))
  {
    GridCellsShape(info.width, info.height);
    IntendedCorridorsMembership(GridCells(info.width, info.height), info.racks, info.feeds);
    forall p | InGrid(p, info.width, info.height) && p !in info.racks && p !in info.feeds
      ensures p in CorridorsAsWritten(GridCells(info.width, info.height), info.racks, info.feeds)
    {
      CorridorsAsWrittenMembership(GridCells(info.width, info.height), info.racks, info.feeds, p);
    }
  }

  /** The state space is closed under warehouse_step: the successor of every
      generated state under every action is itself generated.  (So the
      successor lookups of warehouse_transition_map never fail.) */
  lemma StepClosed(st: FineState, a: int, info: Info, cs: seq<Point>)
    requires DefaultRotationInstalled(info) && CoversFreeCells(info, cs)
    requires InStateSpace(st, cs)
    ensures InStateSpace(NextState(st, a, info), cs)
  {
    var front := Front(st, info);
    if Facing(st, info) == Free {
      DefaultRotationTurns(st.dir);
      assert front.Some? && InGrid(front.value, info.width, info.height);
      assert front.value in cs;
      assert front.value != st.pos;
    }
    if a == 0 || a == 1 {
      RotationsInverse(st.dir);
    }
  }

  // ---------------------------------------------------------------------
  // The robot object.
  // ---------------------------------------------------------------------

  /** The transition list warehouse_transition_map stores for state st and
      action a: the one successor of warehouse_step, by index, with its
      probability and word. */
  function Successors(st: FineState, a: int, info: Info, mapping: map<FineState, nat>): seq<(nat, real, FineWord)>
    reads info
    requires st.dir in info.rotation && NextState(st, a, info) in mapping
  {
    var succ := Step(st, a, info);
    [(mapping[succ[0].next], succ[0].prob, succ[0].word)]
  }

  /** Whether every listed state, and its successor under each action
      0 .. na - 1, can be looked up (warehouse_transition_map unwraps both). */
  predicate Lookups(states: seq<FineState>, mapping: map<FineState, nat>, na: int, info: Info)
    reads info
  {
    forall i :: 0 <= i < |states| ==>
      && states[i] in mapping && states[i].dir in info.rotation
      && forall a :: 0 <= a < na ==> NextState(states[i], a, info) in mapping
  }

  /** Over a corridor list covering the free cells, every lookup of
      warehouse_transition_map succeeds on the generated state space: each
      generated state and each of its successors is indexed. */
  lemma GeneratedSpaceLookups(info: Info, cs: seq<Point>, na: int)
    requires DefaultRotationInstalled(info) && CoversFreeCells(info, cs)
    ensures Lookups(StateSpace(cs), Indexing(StateSpace(cs)), na, info)
  {
    var e := StateSpace(cs);
    StateSpaceProperties(cs);
    IndexingDense(e);
    forall i | 0 <= i < |e|
      ensures e[i] in Indexing(e) && e[i].dir in info.rotation
      ensures forall a :: 0 <= a < na ==> NextState(e[i], a, info) in Indexing(e)
    {
      assert e[i] in e && Consistent(e[i]);
      forall a | 0 <= a < na
        ensures NextState(e[i], a, info) in Indexing(e)
      {
        StepClosed(e[i], a, info, cs);
      }
    }
  }

  /** Table t after storing the entries of state st for actions 0 .. upto - 1,
      in order. */
  function RowInto(t: map<(nat, int), seq<(nat, real, FineWord)>>, st: FineState, upto: int,
                   info: Info, mapping: map<FineState, nat>): map<(nat, int), seq<(nat, real, FineWord)>>
    reads info
    requires st in mapping && st.dir in info.rotation
    requires forall a :: 0 <= a < upto ==> NextState(st, a, info) in mapping
    decreases upto
  {
    if upto <= 0 then t
    else RowInto(t, st, upto - 1, info, mapping)[Key(mapping[st], upto - 1) := Successors(st, upto - 1, info, mapping)]
  }

  /** The transition table after processing `states` in order over table t. */
  function TableAfter(t: map<(nat, int), seq<(nat, real, FineWord)>>, states: seq<FineState>,
                      na: int, info: Info, mapping: map<FineState, nat>): map<(nat, int), seq<(nat, real, FineWord)>>
    reads info
    requires Lookups(states, mapping, na, info)
  {
    if states == [] then t
    else
      var init := states[..|states| - 1];
      assert forall i :: 0 <= i < |init| ==> init[i] == states[i];
      RowInto(TableAfter(t, init, na, info, mapping), states[|states| - 1], na, info, mapping)
  }

  /** Storing a row touches exactly the keys of that state's index and the
      stored actions. */
  lemma {:induction false} RowIntoLookup(t: map<(nat, int), seq<(nat, real, FineWord)>>, st: FineState, upto: int,
                                          info: Info, mapping: map<FineState, nat>, k: (nat, int))
    requires st in mapping && st.dir in info.rotation
    requires forall a :: 0 <= a < upto ==> NextState(st, a, info) in mapping
    ensures k.0 == mapping[st] && 0 <= k.1 < upto ==>
              k in RowInto(t, st, upto, info, mapping)
              && RowInto(t, st, upto, info, mapping)[k] == Successors(st, k.1, info, mapping)
    ensures !(k.0 == mapping[st] && 0 <= k.1 < upto) ==>
              (k in RowInto(t, st, upto, info, mapping) <==> k in t)
              && (k in t ==> RowInto(t, st, upto, info, mapping)[k] == t[k])
    decreases upto
  {
    if upto > 0 {
      RowIntoLookup(t, st, upto - 1, info, mapping, k);
    }
  }

  /** The table warehouse_transition_map builds holds, for the i-th state and
      every action a < na, the successor of warehouse_step from that state,
      provided the index gives different states different numbers (as the
      index warehouse_state_space builds does). */
  lemma {:induction false} TableAfterLookup(t: map<(nat, int), seq<(nat, real, FineWord)>>, states: seq<FineState>,
                                             na: int, info: Info, mapping: map<FineState, nat>, i: int, a: int)
    requires Lookups(states, mapping, na, info)
    requires forall j, l :: 0 <= j < l < |states| ==> mapping[states[j]] != mapping[states[l]]
    requires 0 <= i < |states| && 0 <= a < na
    ensures Key(mapping[states[i]], a) in TableAfter(t, states, na, info, mapping)
    ensures TableAfter(t, states, na, info, mapping)[Key(mapping[states[i]], a)] == Successors(states[i], a, info, mapping)
  {
    var init, last := states[..|states| - 1], states[|states| - 1];
    assert forall j :: 0 <= j < |init| ==> init[j] == states[j];
    var k := Key(mapping[states[i]], a);
    RowIntoLookup(TableAfter(t, init, na, info, mapping), last, na, info, mapping, k);
    if i < |init| {
      TableAfterLookup(t, init, na, info, mapping, i, a);
      assert mapping[states[i]] != mapping[last];
    }
  }

  /** The words registered alongside a list of states. */
  function Words(e: seq<FineState>): seq<FineWord> {
    seq(|e|, i requires 0 <= i < |e| => WordOf(e[i]))
  }

  class Robot {
    var states: seq<FineState>
    var initState: FineState
    const numActions: nat
    var stateMapping: map<FineState, nat>
    var words: seq<FineWord>
    var reverseMapping: map<nat, FineState>
    var transitions: map<(nat, int), seq<(nat, real, FineWord)>>
    var rewards: map<(nat, int), real>

    /** warehouse_make: actions 0 .. na - 1, everything else empty. */
    constructor Make(na: nat, init: FineState)
      ensures numActions == na && initState == init
      ensures states == [] && stateMapping == map[] && words == [] && reverseMapping == map[]
      ensures transitions == map[] && rewards == map[]
    {
      states := [];
      initState := init;
      numActions := na;
      stateMapping := map[];
      words := [];
      reverseMapping := map[];
      transitions := map[];
      rewards := map[];
    }

    /** The registered lists are the base lists extended by `added`, each
        added state indexed by its position in `added`. */
    ghost predicate RegisteredSince(baseStates: seq<FineState>, baseWords: seq<FineWord>,
                                    baseMap: map<FineState, nat>, added: seq<FineState>)
      reads this
    {
      states == baseStates + added && words == baseWords + Words(added)
      && stateMapping == baseMap + Indexing(added)
    }

    /** Register one state under index idx: set_state, insert_state_mapping
        and insert_word. */
    method Register(st: FineState, w: FineWord, idx: nat, ghost baseStates: seq<FineState>,
                    ghost baseWords: seq<FineWord>, ghost baseMap: map<FineState, nat>, ghost added: seq<FineState>)
      requires RegisteredSince(baseStates, baseWords, baseMap, added)
      requires idx == |added| && w == WordOf(st)
      modifies this`states, this`stateMapping, this`words
      ensures states == old(states) + [st] && words == old(words) + [w]
      ensures stateMapping == old(stateMapping)[st := idx]
      ensures RegisteredSince(baseStates, baseWords, baseMap, added + [st])
    {
      states := states + [st];
      stateMapping := stateMapping[st := idx];
      words := words + [w];
      IndexedOne(baseMap, added, st);
      WordedOne(baseWords, added, st);
    }

    /** The innermost loop of warehouse_state_space: the states with the agent
        at p facing dir and a pack on another corridor cell. */
    method RegisterPackStates(p: Point, dir: Byte, corridors: seq<Point>, counter: nat,
                              ghost baseStates: seq<FineState>, ghost baseWords: seq<FineWord>,
                              ghost baseMap: map<FineState, nat>, ghost added: seq<FineState>)
      returns (next: nat)
      requires RegisteredSince(baseStates, baseWords, baseMap, added) && counter == |added|
      modifies this`states, this`stateMapping, this`words
      ensures RegisteredSince(baseStates, baseWords, baseMap, added + PackStates(p, dir, corridors))
      ensures next == counter + |PackStates(p, dir, corridors)|
    {
      next := counter;
      ghost var done: seq<FineState> := [];
      assert added + done == added;
      for j := 0 to |corridors|
        invariant done == PackStates(p, dir, corridors[..j]) && next == counter + |done|
        invariant RegisteredSince(baseStates, baseWords, baseMap, added + done)
      {
        var p2 := corridors[j];
        assert corridors[..j + 1][..j] == corridors[..j] && corridors[..j + 1][j] == p2;
        if p2 != p {
          var st := FineState(dir, p, 0, 1, p2);
          Register(st, FineWord(st.pos, st.dir, st.carrying, Some(st.packPos)), next,
                   baseStates, baseWords, baseMap, added + done);
          assert added + done + [st] == added + (done + [st]);
          done := done + [st];
          next := next + 1;
        }
      }
      assert corridors[..|corridors|] == corridors;
    }

    /** One (cell, direction) pass of warehouse_state_space: the pack states,
        then the state with no pack, then the carrying state. */
    method RegisterAgentDir(p: Point, dir: Byte, corridors: seq<Point>, counter: nat,
                            ghost baseStates: seq<FineState>, ghost baseWords: seq<FineWord>,
                            ghost baseMap: map<FineState, nat>, ghost added: seq<FineState>)
      returns (next: nat)
      requires RegisteredSince(baseStates, baseWords, baseMap, added) && counter == |added|
      modifies this`states, this`stateMapping, this`words
      ensures RegisteredSince(baseStates, baseWords, baseMap, added + StatesAt(p, dir, corridors))
      ensures next == counter + |StatesAt(p, dir, corridors)|
    {
      next := counter;
      ghost var done: seq<FineState> := [];
      assert added + done == added;
      for c := 0 to 2
        invariant c == 0 ==> done == []
        invariant c == 1 ==> done == PackStates(p, dir, corridors) + [EmptyState(p, dir)]
        invariant c == 2 ==> done == StatesAt(p, dir, corridors)
        invariant next == counter + |done| && RegisteredSince(baseStates, baseWords, baseMap, added + done)
      {
        if c == 0 {
          next := RegisterPackStates(p, dir, corridors, next, baseStates, baseWords, baseMap, added);
          done := PackStates(p, dir, corridors);
          var st := FineState(dir, p, 0, 0, NoPack);
          Register(st, FineWord(st.pos, st.dir, st.carrying, None), next,
                   baseStates, baseWords, baseMap, added + done);
          assert added + done + [st] == added + (done + [st]);
          done := done + [st];
          next := next + 1;
        } else {
          var st := FineState(dir, p, 1, 0, NoPack);
          Register(st, FineWord(st.pos, st.dir, st.carrying, None), next,
                   baseStates, baseWords, baseMap, added + done);
          assert added + done + [st] == added + (done + [st]);
          done := done + [st];
          next := next + 1;
        }
      }
    }

    /** The states of one corridor cell p as agent position, direction by
        direction. */
    method RegisterCell(p: Point, corridors: seq<Point>, counter: nat,
                        ghost baseStates: seq<FineState>, ghost baseWords: seq<FineWord>,
                        ghost baseMap: map<FineState, nat>, ghost added: seq<FineState>)
      returns (next: nat)
      requires RegisteredSince(baseStates, baseWords, baseMap, added) && counter == |added|
      modifies this`states, this`stateMapping, this`words
      ensures RegisteredSince(baseStates, baseWords, baseMap, added + DirStates(p, corridors, 4))
      ensures next == counter + |DirStates(p, corridors, 4)|
    {
      next := counter;
      ghost var done: seq<FineState> := [];
      assert added + done == added;
      for dir := 0 to 4
        invariant done == DirStates(p, corridors, dir) && next == counter + |done|
        invariant RegisteredSince(baseStates, baseWords, baseMap, added + done)
      {
        next := RegisterAgentDir(p, dir, corridors, next, baseStates, baseWords, baseMap, added + done);
        assert added + done + StatesAt(p, dir, corridors) == added + (done + StatesAt(p, dir, corridors));
        done := done + StatesAt(p, dir, corridors);
      }
    }

    /** warehouse_state_space: register the enumeration of the corridor list,
        counting indices from 0, then build the reverse map. */
    method WarehouseStateSpace(corridors: seq<Point>)
      modifies this`states, this`stateMapping, this`words, this`reverseMapping
      ensures states == old(states) + StateSpace(corridors)
      ensures words == old(words) + Words(StateSpace(corridors))
      ensures stateMapping == old(stateMapping) + Indexing(StateSpace(corridors))
      ensures reverseMapping == Inverse(states, stateMapping)
    {
      ghost var baseStates, baseWords, baseMap := states, words, stateMapping;
      ghost var added: seq<FineState> := [];
      assert baseStates + [] == baseStates && baseWords + Words([]) == baseWords;
      assert baseMap + Indexing(added) == baseMap;
      var counter: nat := 0;
      for i := 0 to |corridors|
        invariant added == EnumerateFrom(corridors[..i], corridors) && counter == |added|
        invariant RegisteredSince(baseStates, baseWords, baseMap, added)
      {
        var p := corridors[i];
        assert corridors[..i + 1][..i] == corridors[..i] && corridors[..i + 1][i] == p;
        counter := RegisterCell(p, corridors, counter, baseStates, baseWords, baseMap, added);
        added := added + DirStates(p, corridors, 4);
      }
      assert corridors[..|corridors|] == corridors;
      reverseMapping := Inverse(states, stateMapping);
    }

    /** warehouse_transition_map: for every registered state and every action,
        store its one successor (by index) and the reward r. */
    method WarehouseTransitionMap(r: real, info: Info)
      requires Lookups(states, stateMapping, numActions, info)
      modifies this`transitions, this`rewards
      ensures transitions == TableAfter(old(transitions), states, numActions, info, stateMapping)
      ensures rewards == RewardsAfter(old(rewards), states, numActions, stateMapping, r)
    {
      var all := states;
      for i := 0 to |all|
        invariant transitions == TableAfter(old(transitions), all[..i], numActions, info, stateMapping)
        invariant rewards == RewardsAfter(old(rewards), all[..i], numActions, stateMapping, r)
      {
        LookupsPrefix(all, stateMapping, numActions, info, i + 1);
        assert all[..i + 1][..i] == all[..i] && all[..i + 1][i] == all[i];
        FillRow(all[i], r, info);
      }
      assert all[..|all|] == all;
    }

    /** The action loop of warehouse_transition_map for one state. */
    method FillRow(st: FineState, r: real, info: Info)
      requires st in stateMapping && st.dir in info.rotation
      requires forall a :: 0 <= a < numActions ==> NextState(st, a, info) in stateMapping
      modifies this`transitions, this`rewards
      ensures transitions == RowInto(old(transitions), st, numActions, info, stateMapping)
      ensures rewards == RewardInto(old(rewards), stateMapping[st], numActions, r)
    {
      var idx := stateMapping[st];
      // the row is built locally and stored once; nothing reads the tables
      // in between
      var t, rw := transitions, rewards;
      for a := 0 to numActions
        invariant t == RowInto(transitions, st, a, info, stateMapping)
        invariant rw == RewardInto(rewards, idx, a, r)
      {
        t := t[Key(idx, a) := Successors(st, a, info, stateMapping)];
        rw := rw[Key(idx, a) := r];
      }
      transitions, rewards := t, rw;
    }
  }

  lemma LookupsPrefix(states: seq<FineState>, mapping: map<FineState, nat>, na: int, info: Info, k: nat)
    requires Lookups(states, mapping, na, info) && k <= |states|
    ensures Lookups(states[..k], mapping, na, info)
  {
    assert forall i :: 0 <= i < k ==> states[..k][i] == states[i];
  }

  /** Registering one more state keeps the words in step with the list of
      registered states. */
  lemma WordsSnoc(added: seq<FineState>, st: FineState)
    ensures Words(added + [st]) == Words(added) + [WordOf(st)]
  {
    var e := added + [st];
    assert forall i :: 0 <= i < |added| ==> e[i] == added[i];
  }

  lemma WordedOne(baseWords: seq<FineWord>, added: seq<FineState>, st: FineState)
    ensures baseWords + Words(added) + [WordOf(st)] == baseWords + Words(added + [st])
  {
    WordsSnoc(added, st);
    assert baseWords + Words(added) + [WordOf(st)] == baseWords + (Words(added) + [WordOf(st)]);
  }
}
