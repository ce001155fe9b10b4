// Decoding a solved scheduler into the file format: every product state the
// policy covers becomes a record of the robot state it stands for, the chosen
// action and the automaton state, grouped by agent position and then by
// agent direction, in policy order.

module Schedule {
  import opened Common
  import opened Geometry
  import opened FineWorld

  const I32Min: int := -0x8000_0000
  const I32Max: int := 0x7FFF_FFFF

  /** One decoded entry (TaskActionPair). */
  datatype TaskActionPair = TaskActionPair(dir: Byte, pos: Point, carrying: Byte, packAvailable: Byte,
                                           packPos: Point, action: int, q: int)

  /** position -> direction -> records.  The source keys both levels by their
      printed form, which is one-to-one, so the values themselves are used. */
  type Sched = map<Point, map<int, seq<TaskActionPair>>>

  /** `x as i32` for a finite float: truncation toward zero, saturating at the
      bounds of i32. */
  function CastToI32(x: real): (r: int)
    ensures I32Min <= r <= I32Max
    ensures 0.0 <= x < (I32Max + 1) as real ==> r as real <= x < (r + 1) as real
    ensures (I32Min - 1) as real < x <= 0.0 ==> (r - 1) as real < x <= r as real
    ensures x >= (I32Max + 1) as real ==> r == I32Max
    ensures x <= (I32Min - 1) as real ==> r == I32Min
  {
    var t := if x >= 0.0 then x.Floor else -((-x).Floor);
    if t > I32Max then I32Max else if t < I32Min then I32Min else t
  }

  /** Whether policy entry sidx can be decoded: both reverse lookups succeed
      (the source unwraps them) and the robot index is not negative. */
  predicate Decodable(sidx: nat, productReverse: map<nat, (int, int)>, robotReverse: map<nat, FineState>) {
    sidx in productReverse && productReverse[sidx].0 >= 0 && productReverse[sidx].0 in robotReverse
  }

  /** The record for policy entry sidx. */
  function RecordAt(pi: seq<real>, productReverse: map<nat, (int, int)>, robotReverse: map<nat, FineState>,
                    sidx: nat): (rec: TaskActionPair)
    requires sidx < |pi| && Decodable(sidx, productReverse, robotReverse)
    ensures var st := robotReverse[productReverse[sidx].0];
            rec.dir == st.dir && rec.pos == st.pos && rec.carrying == st.carrying
            && rec.packAvailable == st.packAvailable && rec.packPos == st.packPos
    ensures rec.action == CastToI32(pi[sidx]) && rec.q == productReverse[sidx].1
  {
    var (s, q) := productReverse[sidx];
    var st := robotReverse[s];
    TaskActionPair(st.dir, st.pos, st.carrying, st.packAvailable, st.packPos, CastToI32(pi[sidx]), q)
  }

  /** The records of policy entries 0 .. n - 1, in order. */
  function Records(pi: seq<real>, productReverse: map<nat, (int, int)>, robotReverse: map<nat, FineState>,
                   n: nat): (rs: seq<TaskActionPair>)
    requires n <= |pi| && forall sidx :: 0 <= sidx < n ==> Decodable(sidx, productReverse, robotReverse)
    ensures |rs| == n
  {
    if n == 0 then [] else Records(pi, productReverse, robotReverse, n - 1) + [RecordAt(pi, productReverse, robotReverse, n - 1)]
  }

  /** Filing one record: a new position gets a new direction map, a new
      direction a new list, otherwise the record is appended. */
  function Insert(sched: Sched, rec: TaskActionPair): Sched {
    if rec.pos !in sched then sched[rec.pos := map[rec.dir := [rec]]]
    else if rec.dir !in sched[rec.pos] then sched[rec.pos := sched[rec.pos][rec.dir := [rec]]]
    else sched[rec.pos := sched[rec.pos][rec.dir := sched[rec.pos][rec.dir] + [rec]]]
  }

  /** The schedule after filing the records in order. */
  function Decoded(rs: seq<TaskActionPair>): Sched {
    if rs == [] then map[] else Insert(Decoded(rs[..|rs| - 1]), rs[|rs| - 1])
  }

  /** The records with position p and direction d, in order. */
  function Bucket(rs: seq<TaskActionPair>, p: Point, d: int): seq<TaskActionPair> {
    if rs == [] then []
    else
      var last := rs[|rs| - 1];
      Bucket(rs[..|rs| - 1], p, d) + (if last.pos == p && last.dir == d then [last] else [])
  }

  /** create_decoded_sched_to_file: file every policy entry under its robot
      state's position and direction. */
  method DecodeSchedule(pi: seq<real>, productReverse: map<nat, (int, int)>, robotReverse: map<nat, FineState>)
    returns (sched: Sched)
    requires forall sidx :: 0 <= sidx < |pi| ==> Decodable(sidx, productReverse, robotReverse)
    ensures sched == Decoded(Records(pi, productReverse, robotReverse, |pi|))
  {
    sched := map[];
    for sidx := 0 to |pi|
      invariant sched == Decoded(Records(pi, productReverse, robotReverse, sidx))
    {
      assert Decodable(sidx, productReverse, robotReverse);
      var (s, q) := productReverse[sidx];
      var st := robotReverse[s];
      var rec := TaskActionPair(st.dir, st.pos, st.carrying, st.packAvailable, st.packPos, CastToI32(pi[sidx]), q);
      ghost var rs := Records(pi, productReverse, robotReverse, sidx + 1);
      assert rs[..sidx] == Records(pi, productReverse, robotReverse, sidx) && rs[sidx] == rec;
      assert Decoded(rs) == Insert(sched, rec);
      if st.pos !in sched {
        sched := sched[st.pos := map[st.dir := [rec]]];
      } else if st.dir !in sched[st.pos] {
        sched := sched[st.pos := sched[st.pos][st.dir := [rec]]];
      } else {
        sched := sched[st.pos := sched[st.pos][st.dir := sched[st.pos][st.dir] + [rec]]];
      }
    }
  }

  /** The decoded schedule files every record exactly once, under its own
      position and direction, keeping policy order: the list under (p, d)
      exists exactly when some record has that position and direction, and is
      then the sub-sequence of those records. */
  lemma {:induction false} DecodedBuckets(rs: seq<TaskActionPair>, p: Point, d: int)
    ensures p in Decoded(rs) && d in Decoded(rs)[p] <==> Bucket(rs, p, d) != []
    ensures p in Decoded(rs) && d in Decoded(rs)[p] ==> Decoded(rs)[p][d] == Bucket(rs, p, d)
  {
    if rs != [] {
      DecodedBuckets(rs[..|rs| - 1], p, d);
    }
  }

  /** A position has an entry exactly when some record is at that position,
      and then it has at least one direction. */
  lemma {:induction false} DecodedPositions(rs: seq<TaskActionPair>, p: Point)
    ensures p in Decoded(rs) <==> exists i :: 0 <= i < |rs| && rs[i].pos == p
    ensures p in Decoded(rs) ==> Decoded(rs)[p] != map[]
  {
    if rs != [] {
      var init, last := rs[..|rs| - 1], rs[|rs| - 1];
      DecodedPositions(init, p);
      var m := Decoded(init);
      assert Decoded(rs) == Insert(m, last);
      if p == last.pos {
        assert last.dir in Insert(m, last)[p];
        assert rs[|rs| - 1].pos == p;
      } else {
        assert p in Insert(m, last) <==> p in m;
        assert p in m ==> Insert(m, last)[p] == m[p];
        if exists i :: 0 <= i < |init| && init[i].pos == p {
          var i :| 0 <= i < |init| && init[i].pos == p;
          assert rs[i].pos == p;
        }
        if exists i :: 0 <= i < |rs| && rs[i].pos == p {
          var i :| 0 <= i < |rs| && rs[i].pos == p;
          assert i != |rs| - 1;
          assert init[i].pos == p;
        }
      }
    }
  }

  /** The records under (p, d) are exactly the records with that position and
      direction. */
  lemma {:induction false} BucketMembers(rs: seq<TaskActionPair>, p: Point, d: int, rec: TaskActionPair)
    ensures rec in Bucket(rs, p, d) <==> rec in rs && rec.pos == p && rec.dir == d
  {
    if rs != [] {
      var init := rs[..|rs| - 1];
      BucketMembers(init, p, d, rec);
      assert rs == init + [rs[|rs| - 1]];
    }
  }

  /** The number of records in the lists under the given (position,
      direction) keys. */
  function BucketTotal(rs: seq<TaskActionPair>, keys: seq<(Point, int)>): nat {
    if keys == [] then 0
    else
      var k := keys[|keys| - 1];
      BucketTotal(rs, keys[..|keys| - 1]) + |Bucket(rs, k.0, k.1)|
  }

  /** How often key k occurs in keys. */
  function Occurrences(keys: seq<(Point, int)>, k: (Point, int)): nat {
    if keys == [] then 0
    else Occurrences(keys[..|keys| - 1], k) + (if keys[|keys| - 1] == k then 1 else 0)
  }

  lemma {:induction false} OccursOnce(keys: seq<(Point, int)>, k: (Point, int))
    requires Distinct(keys)
    ensures Occurrences(keys, k) == if k in keys then 1 else 0
  {
    if keys != [] {
      var init := keys[..|keys| - 1];
      assert keys == init + [keys[|keys| - 1]];
      assert Distinct(init);
      OccursOnce(init, k);
    }
  }

  lemma {:induction false} BucketTotalSnoc(rs: seq<TaskActionPair>, rec: TaskActionPair, keys: seq<(Point, int)>)
    ensures BucketTotal(rs + [rec], keys) == BucketTotal(rs, keys) + Occurrences(keys, (rec.pos, rec.dir))
  {
    assert (rs + [rec])[..|rs|] == rs;
    if keys != [] {
      BucketTotalSnoc(rs, rec, keys[..|keys| - 1]);
    }
  }

  /** Every record is filed exactly once: for any duplicate-free list of
      (position, direction) keys that covers every record, the lists under
      those keys hold |rs| records in total.  With DecodedBuckets, the decoded
      schedule of a policy holds one record per policy entry. */
  lemma {:induction false} BucketsSumToRecords(rs: seq<TaskActionPair>, keys: seq<(Point, int)>)
    requires Distinct(keys)
    requires forall i :: 0 <= i < |rs| ==> (rs[i].pos, rs[i].dir) in keys
    ensures BucketTotal(rs, keys) == |rs|
  {
    if rs == [] {
      BucketTotalEmpty(keys);
    } else {
      var init, last := rs[..|rs| - 1], rs[|rs| - 1];
      assert forall i :: 0 <= i < |init| ==> init[i] == rs[i];
      BucketsSumToRecords(init, keys);
      assert rs == init + [last];
      BucketTotalSnoc(init, last, keys);
      OccursOnce(keys, (last.pos, last.dir));
    }
  }

  lemma {:induction false} BucketTotalEmpty(keys: seq<(Point, int)>)
    ensures BucketTotal([], keys) == 0
  {
    if keys != [] {
      BucketTotalEmpty(keys[..|keys| - 1]);
    }
  }
}
