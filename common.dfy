// Small generic helpers shared by the warehouse models: an optional value,
// duplicate-freeness of a list, and the dense index a list of states gets
// when each state is registered in turn.

module Common {

  datatype Option<T> = None | Some(value: T)

  predicate Distinct<T(==)>(s: seq<T>) {
    forall i, j :: 0 <= i < j < |s| ==> s[i] != s[j]
  }

  /** The state-to-index map obtained by registering `e[0]`, `e[1]`, ... in
      turn under their positions; a repeated element keeps its last index. */
  function Indexing<T(==)>(e: seq<T>): map<T, nat> {
    if e == [] then map[] else Indexing(e[..|e| - 1])[e[|e| - 1] := |e| - 1]
  }

  /** Registration order gives a dense index: exactly the listed elements
      are keys, each key maps to a position holding it, and without
      duplicates the index of e[i] is i. */
  lemma {:induction false} IndexingDense<T>(e: seq<T>)
    ensures forall s :: s in Indexing(e) <==> s in e
    ensures forall s :: s in Indexing(e) ==> Indexing(e)[s] < |e| && e[Indexing(e)[s]] == s
    ensures Distinct(e) ==> forall i :: 0 <= i < |e| ==> Indexing(e)[e[i]] == i
  {
    if e != [] {
      var init, last := e[..|e| - 1], e[|e| - 1];
      IndexingDense(init);
      assert e == init + [last];
      if Distinct(e) {
        assert Distinct(init);
        forall i | 0 <= i < |e| ensures Indexing(e)[e[i]] == i {
          if i < |init| {
            assert e[i] == init[i] != last;
          }
        }
      }
    }
  }

  /** The index-to-state map built from the state-to-index map. */
  function Inverse<T(==)>(states: seq<T>, mapping: map<T, nat>): map<nat, T> {
    map i | 0 <= i < |states| && states[i] in mapping && mapping[states[i]] == i :: states[i]
  }

  /** For a duplicate-free list, the index numbers the elements
      0 .. n - 1 one-to-one and the reverse map undoes it both ways. */
  lemma IndexRoundTrip<T>(e: seq<T>)
    requires Distinct(e)
    ensures forall i :: 0 <= i < |e| ==> e[i] in Indexing(e) && Indexing(e)[e[i]] == i
    ensures forall st :: st in Indexing(e) <==> st in e
    ensures forall j, l :: 0 <= j < l < |e| ==> Indexing(e)[e[j]] != Indexing(e)[e[l]]
    ensures forall i :: i in Inverse(e, Indexing(e)) <==> 0 <= i < |e|
    ensures forall i :: 0 <= i < |e| ==> Inverse(e, Indexing(e))[i] == e[i]
    ensures forall st :: st in Indexing(e) ==>
              Indexing(e)[st] in Inverse(e, Indexing(e)) && Inverse(e, Indexing(e))[Indexing(e)[st]] == st
  {
    IndexingDense(e);
  }

  /** The key of the (state index, action) tables. */
  function Key(idx: nat, a: int): (nat, int) {
    (idx, a)
  }

  /** Table rw after storing reward r for state index idx and actions
      0 .. upto - 1. */
  function RewardInto(rw: map<(nat, int), real>, idx: nat, upto: int, r: real): map<(nat, int), real>
    decreases upto
  {
    if upto <= 0 then rw else RewardInto(rw, idx, upto - 1, r)[Key(idx, upto - 1) := r]
  }

  /** The reward table after processing `states` in order over table rw. */
  function RewardsAfter<T(==)>(rw: map<(nat, int), real>, states: seq<T>, na: int,
                               mapping: map<T, nat>, r: real): map<(nat, int), real>
    requires forall i :: 0 <= i < |states| ==> states[i] in mapping
  {
    if states == [] then rw
    else
      var init := states[..|states| - 1];
      assert forall i :: 0 <= i < |init| ==> init[i] == states[i];
      RewardInto(RewardsAfter(rw, init, na, mapping, r), mapping[states[|states| - 1]], na, r)
  }

  /** Registering one more state keeps the index in step with the list of
      registered states. */
  lemma IndexedOne<T>(baseMap: map<T, nat>, added: seq<T>, st: T)
    ensures (baseMap + Indexing(added))[st := |added|] == baseMap + Indexing(added + [st])
  {
    IndexingSnoc(added, st);
    MergeUpdate(baseMap, Indexing(added), st, |added|);
  }

  /** Two duplicate-free lists with no common element concatenate to a
      duplicate-free list. */
  lemma DistinctConcat<T>(a: seq<T>, b: seq<T>)
    requires Distinct(a) && Distinct(b)
    requires forall x :: x in a ==> x !in b
    ensures Distinct(a + b)
  {
    forall i, j | 0 <= i < j < |a + b| ensures (a + b)[i] != (a + b)[j] {
      if i < |a| && j >= |a| {
        assert a[i] in a && b[j - |a|] in b;
      }
    }
  }

  /** Indexing one more element adds exactly its position. */
  lemma IndexingSnoc<T>(e: seq<T>, x: T)
    ensures Indexing(e + [x]) == Indexing(e)[x := |e|]
  {
    assert (e + [x])[..|e|] == e;
  }

  lemma MergeUpdate<K, V>(m: map<K, V>, n: map<K, V>, k: K, v: V)
    ensures (m + n)[k := v] == m + n[k := v]
  {
  }

  lemma MulPred(n: int, k: int)
    ensures n * k == (n - 1) * k + k
  {
  }
}
