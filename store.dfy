/** The key-value fallback of the record store (app.js, guardarEnLocalStorage,
    obtenerDeLocalStorage, eliminarDeLocalStorage): the whole collection is
    one array under a fixed key, read, changed and written back on every
    call. */
module Store {
  import opened Records
  import opened Sequences

  /** The array with every record of id `id` taken out, the rest in order. */
  function Without(rs: seq<Work>, id: int): (r: seq<Work>)
    ensures forall w :: w in r ==> !HasId(w, id)
    ensures forall w :: multiset(r)[w] == if HasId(w, id) then 0 else multiset(rs)[w]
    ensures IsSubsequence(r, rs)
  {
    var keep := (w: Work) => !HasId(w, id);
    FilterIsSubsequence(rs, keep);
    Filter(rs, keep)
  }

  /** Deleting an id no record has leaves the array as it was. */
  lemma DeleteAbsentIsNoOp(rs: seq<Work>, id: int)
    requires forall w :: w in rs ==> !HasId(w, id)
    ensures Without(rs, id) == rs
  {
    FilterKeepsAll(rs, (w: Work) => !HasId(w, id));
  }

  /** Every stored record has an id, and ids grow along the array. */
  ghost predicate IdsIncreasing(rs: seq<Work>)
  {
    && (forall w :: w in rs ==> w.id.Some?)
    && (forall i, j :: 0 <= i < j < |rs| ==> IdBefore(rs[i], rs[j]))
  }

  predicate IdBefore(a: Work, b: Work)
  {
    a.id.Some? && b.id.Some? && a.id.value < b.id.value
  }

  /** A save whose clock reading is later than the last stored id keeps ids
      increasing, hence unique. */
  lemma SaveKeepsIdsIncreasing(rs: seq<Work>, trabajo: Work, now: int, stamp: string)
    requires IdsIncreasing(rs)
    requires forall w :: w in rs ==> w.id.value < now
    ensures IdsIncreasing(rs + [trabajo.(id := Some(now), timestamp := stamp)])
  {
  }

  /** Deleting keeps ids increasing. */
  lemma DeleteKeepsIdsIncreasing(rs: seq<Work>, id: int)
    requires IdsIncreasing(rs)
    ensures IdsIncreasing(Without(rs, id))
  {
    SubsequencePreservesOrder(Without(rs, id), rs, IdBefore);
    SubsequenceElements(Without(rs, id), rs);
  }

  /** With increasing ids a delete takes out at most one record. */
  lemma {:induction false} DeleteRemovesAtMostOne(rs: seq<Work>, id: int)
    requires IdsIncreasing(rs)
    ensures |rs| - 1 <= |Without(rs, id)| <= |rs|
    decreases |rs|
  {
    if rs != [] {
      var init, w := rs[..|rs| - 1], rs[|rs| - 1];
      assert rs == init + [w];
      IdsIncreasingPrefix(init, w);
      DeleteRemovesAtMostOne(init, id);
      WithoutSnoc(init, w, id);
      var r0 := Without(init, id);
      if HasId(w, id) {
        DeleteAbsentIsNoOp(init, id);
        assert Without(rs, id) == init;
      } else {
        assert Without(rs, id) == r0 + [w];
      }
    }
  }

  /** Dropping the last record keeps ids increasing, and the ids before
      it are all smaller than its own. */
  lemma IdsIncreasingPrefix(rs: seq<Work>, w: Work)
    requires IdsIncreasing(rs + [w])
    ensures IdsIncreasing(rs)
    ensures forall x :: x in rs ==> IdBefore(x, w)
  {
    var all := rs + [w];
    assert forall i :: 0 <= i < |rs| ==> rs[i] == all[i];
    forall x | x in rs ensures IdBefore(x, w) {
      var i :| 0 <= i < |rs| && rs[i] == x;
      assert IdBefore(all[i], all[|rs|]);
    }
  }

  /** Deleting the id a save just assigned undoes the save, provided no
      earlier record carried that id. */
  lemma SaveThenDelete(rs: seq<Work>, trabajo: Work, now: int, stamp: string)
    requires forall w :: w in rs ==> !HasId(w, now)
    ensures Without(rs + [trabajo.(id := Some(now), timestamp := stamp)], now) == rs
  {
    WithoutSnoc(rs, trabajo.(id := Some(now), timestamp := stamp), now);
    DeleteAbsentIsNoOp(rs, now);
  }

  lemma WithoutSnoc(rs: seq<Work>, w: Work, id: int)
    ensures Without(rs + [w], id) == Without(rs, id) + (if HasId(w, id) then [] else [w])
  {
    FilterSnoc(rs, w, (x: Work) => !HasId(x, id));
  }

  class FallbackStore {
    /** The decoded array under the storage key; a missing key reads as []. */
    var trabajos: seq<Work>

    constructor (stored: seq<Work>)
      ensures trabajos == stored
    {
      trabajos := stored;
    }

    /** Appends the record stamped with id `now` (the clock's milliseconds)
      and save time `stamp`, and returns that id. `storageOk` is the
      storage's answer: when the stored text does not decode or the write
      back is refused (a full quota), the call fails (None) and the stored
      array stays as it was. */
    method Save(trabajo: Work, now: int, stamp: string, storageOk: bool) returns (id: Option<int>)
      modifies this
      ensures storageOk ==> id == Some(now) && trabajos == old(trabajos) + [trabajo.(id := Some(now), timestamp := stamp)]
      ensures storageOk ==> HasId(trabajos[|trabajos| - 1], now)
      ensures !storageOk ==> id == None && trabajos == old(trabajos)
    {
      if !storageOk {
        return None;
      }
      var stored := trabajos;
      var t := trabajo.(id := Some(now), timestamp := stamp);
      stored := stored + [t];
      trabajos := stored;
      id := t.id;
    }

    /** Every stored record, in stored order. */
    method List() returns (rs: seq<Work>)
      ensures rs == trabajos
    {
      rs := trabajos;
    }

    /** Removes every record of id `id`; an absent id is not an error. A
      failing storage (`storageOk` false) makes the call fail and leaves the
      stored array as it was. */
    method Delete(id: int, storageOk: bool) returns (ok: bool)
      modifies this
      ensures ok == storageOk
      ensures ok ==> trabajos == Without(old(trabajos), id)
      ensures !ok ==> trabajos == old(trabajos)
    {
      if !storageOk {
        return false;
      }
      var stored := trabajos;
      stored := Without(stored, id);
      trabajos := stored;
      ok := true;
    }
  }
}
