// The fine-resolution warehouse: the agent has a position, a facing
// direction, a carrying flag, and there may be one pack on the floor.
// warehouse_step is deterministic; it is modelled as a function of the state,
// the action and the (read-only) warehouse context.

module FineWorld {
  import opened Common
  import opened Geometry
  import opened Layout

  /** Fine state: direction 0 = right, 1 = down, 2 = left, 3 = up;
      `packPos == NoPack` when no pack lies on the floor. */
  datatype FineState = FineState(dir: Byte, pos: Point, carrying: Byte, packAvailable: Byte, packPos: Point)

  /** The observation handed to the automata. */
  datatype FineWord = FineWord(pos: Point, dir: Byte, carrying: Byte, packPos: Option<Point>)

  /** One successor of a step: next state, probability and word. */
  datatype Successor = Successor(next: FineState, prob: real, word: FineWord)

  const RotateLeftAction := 0
  const RotateRightAction := 1
  const ForwardAction := 2
  const PickupAction := 3
  const DropAction := 4

  function RotateLeft(d: Byte): Byte {
    if d == 0 then 3 else d - 1
  }

  function RotateRight(d: Byte): Byte {
    (d + 1) % 4
  }

  /** The two rotations keep a direction in 0 .. 3 and undo each other. */
  lemma RotationsInverse(d: Byte)
    requires d < 4
    ensures RotateLeft(d) < 4 && RotateRight(d) < 4
    ensures RotateRight(RotateLeft(d)) == d && RotateLeft(RotateRight(d)) == d
  {
  }

  /** The word emitted on entering `s`: the pack position only when a pack lies
      on the floor. */
  function WordOf(s: FineState): (w: FineWord)
    ensures w.pos == s.pos && w.dir == s.dir && w.carrying == s.carrying
    ensures w.packPos.Some? <==> s.packAvailable == 1
    ensures w.packPos.Some? ==> w.packPos.value == s.packPos
  {
    FineWord(s.pos, s.dir, s.carrying, if s.packAvailable == 1 then Some(s.packPos) else None)
  }

  /** The cell in front of the agent in state `s`. */
  function Front(s: FineState, info: Info): Option<Point>
    reads info
    requires s.dir in info.rotation
  {
    FrontPos(s.pos, s.dir, info.rotation, info.width, info.height)
  }

  /** What the agent in state `s` faces. */
  function Facing(s: FineState, info: Info): CellType
    reads info
    requires s.dir in info.rotation
  {
    FwdCell(Front(s, info), s.packAvailable, s.packPos, info.racks, info.feeds)
  }

  /** A pickup changes the state: not carrying, and facing a pack, or a rack or
      feed point while no pack lies on the floor. */
  predicate PickupEffective(s: FineState, info: Info)
    reads info
    requires s.dir in info.rotation
  {
    s.carrying == 0 &&
    (Facing(s, info) == Pack || ((Facing(s, info) == Rack || Facing(s, info) == Feed) && s.packAvailable == 0))
  }

  /** A drop changes the state: carrying, and facing a rack, a feed point or a
      free cell. */
  predicate DropEffective(s: FineState, info: Info)
    reads info
    requires s.dir in info.rotation
  {
    s.carrying == 1 && (Facing(s, info) == Rack || Facing(s, info) == Feed || Facing(s, info) == Free)
  }

  /** The successor state of warehouse_step.  The facing cell is computed
      before the action is looked at, so a direction without a rotation entry
      makes every action panic; an action outside 0 .. 4 changes nothing. */
  function NextState(s: FineState, a: int, info: Info): (r: FineState)
    reads info
    requires s.dir in info.rotation
    // rotations: only the direction changes
    ensures a == RotateLeftAction ==> r == s.(dir := RotateLeft(s.dir))
    ensures a == RotateRightAction ==> r == s.(dir := RotateRight(s.dir))
    // everything but a rotation keeps the direction
    ensures a != RotateLeftAction && a != RotateRightAction ==> r.dir == s.dir
    // the position changes only by moving forward onto a free front cell
    ensures r.pos != s.pos ==> a == ForwardAction && Facing(s, info) == Free
    ensures a == ForwardAction ==>
              r == (if Facing(s, info) == Free then s.(pos := Front(s, info).value) else s)
    // pickup and drop change nothing unless effective
    ensures a == PickupAction ==> (r == s <==> !PickupEffective(s, info))
    ensures a == DropAction ==> (r == s <==> !DropEffective(s, info))
    ensures a == PickupAction && PickupEffective(s, info) ==>
              r.pos == s.pos && r.carrying == 1 &&
              (Facing(s, info) == Pack ==> r.packAvailable == 0 && r.packPos == NoPack) &&
              (Facing(s, info) != Pack ==> r.packAvailable == s.packAvailable && r.packPos == s.packPos)
    ensures a == DropAction && DropEffective(s, info) ==>
              r.pos == s.pos && r.carrying == 0 &&
              (Facing(s, info) == Free ==> r.packAvailable == 1 && r.packPos == Front(s, info).value) &&
              (Facing(s, info) != Free ==> r.packAvailable == 0 && r.packPos == NoPack)
    ensures a !in {0, 1, 2, 3, 4} ==> r == s
  {
    var front := Front(s, info);
    var cell := Facing(s, info);
    if a == 0 then
      s.(dir := RotateLeft(s.dir))
    else if a == 1 then
      s.(dir := RotateRight(s.dir))
    else if a == 2 then
      if cell == Free then s.(pos := front.value) else s
    else if a == 3 then
      if s.carrying == 0 then
        match cell
        case Feed => if s.packAvailable == 0 then s.(carrying := 1) else s
        case Pack => s.(carrying := 1, packAvailable := 0, packPos := NoPack)
        case Rack => if s.packAvailable == 0 then s.(carrying := 1) else s
        case _ => s
      else s
    else if a == 4 then
      if s.carrying == 1 then
        match cell
        case Rack => s.(carrying := 0, packPos := NoPack, packAvailable := 0)
        case Feed => s.(carrying := 0, packPos := NoPack, packAvailable := 0)
        case Free => s.(carrying := 0, packPos := front.value, packAvailable := 1)
        case _ => s
      else s
    else
      s
  }

  /** warehouse_step: exactly one successor, with probability 1, whose word
      describes the successor state. */
  function Step(s: FineState, a: int, info: Info): (r: seq<Successor>)
    reads info
    requires s.dir in info.rotation
    ensures |r| == 1 && r[0].prob == 1.0 && r[0].next == NextState(s, a, info)
    ensures r[0].word.pos == r[0].next.pos && r[0].word.dir == r[0].next.dir
    ensures r[0].word.carrying == r[0].next.carrying
    ensures r[0].word.packPos == if r[0].next.packAvailable == 1 then Some(r[0].next.packPos) else None
  {
    var n := NextState(s, a, info);
    [Successor(n, 1.0, WordOf(n))]
  }

  /** The rotation mapping installed by set_rotation_mapping. */
  predicate DefaultRotationInstalled(info: Info)
    reads info
  {
    forall d :: 0 <= d < 4 ==> d in info.rotation && info.rotation[d] == DefaultRotation()[d]
  }

  /** The invariants every generated fine state satisfies: a direction of the
      rotation mapping, 0/1 flags, the "no pack" sentinel when no pack is on
      the floor, no floor pack while carrying, and a floor pack never under
      the agent. */
  predicate Consistent(s: FineState) {
    && s.dir < 4
    && s.carrying <= 1 && s.packAvailable <= 1
    && (s.packAvailable == 0 ==> s.packPos == NoPack)
    && (s.carrying == 1 ==> s.packAvailable == 0)
    && (s.packAvailable == 1 ==> s.packPos != s.pos)
  }

  /** Every step keeps a consistent state consistent. */
  lemma StepPreservesConsistency(s: FineState, a: int, info: Info)
    requires DefaultRotationInstalled(info)
    requires Consistent(s)
    ensures Consistent(NextState(s, a, info))
  {
    var r := NextState(s, a, info);
    if a == 1 {
      RotationsInverse(s.dir);
    } else if Facing(s, info) == Free && (a == 2 || a == 4) {
      DefaultRotationTurns(s.dir);
    }
  }

  /** Picking a pack up from the floor and putting it back down (the cell ahead
      is not a feed point) returns to the state before the pickup. */
  lemma PickupThenDropRestoresPack(s: FineState, info: Info)
    requires DefaultRotationInstalled(info) && Consistent(s)
    requires s.carrying == 0 && Facing(s, info) == Pack && Front(s, info).value !in info.feeds
    ensures NextState(NextState(s, PickupAction, info), DropAction, info) == s
  {
    var t := NextState(s, PickupAction, info);
    assert Front(t, info) == Front(s, info);
    assert Facing(t, info) == Free;
  }
}
