/**
 * A JavaScript `Set` used as an insertion-ordered collection without duplicates:
 * `add` appends an element only when it is new, and `Array.from` lists the
 * elements in the order they were first added.
 */
module OrderedSet {

  predicate NoDup<T(==,!new)>(xs: seq<T>) {
    forall i, j :: 0 <= i < j < |xs| ==> xs[i] != xs[j]
  }

  /** `set.add(x)` on a set whose elements, in insertion order, are acc. */
  function Add<T(==,!new)>(acc: seq<T>, x: T): seq<T> {
    if x in acc then acc else acc + [x]
  }

  /** Adds the elements of xs one after the other, in order, to a set holding acc. */
  function AddAll<T(==,!new)>(acc: seq<T>, xs: seq<T>): (r: seq<T>)
    ensures |acc| <= |r| <= |acc| + |xs|
    ensures r[..|acc|] == acc
    ensures forall x :: x in r <==> x in acc || x in xs
    ensures NoDup(acc) ==> NoDup(r)
    decreases |xs|
  {
    if xs == [] then acc
    else
      assert xs == xs[..|xs| - 1] + [xs[|xs| - 1]];
      Add(AddAll(acc, xs[..|xs| - 1]), xs[|xs| - 1])
  }

  /** `Array.from(new Set(xs))`. */
  function Dedup<T(==,!new)>(xs: seq<T>): (r: seq<T>)
    ensures NoDup(r)
    ensures |r| <= |xs|
    ensures forall x :: x in r <==> x in xs
  {
    AddAll([], xs)
  }

  /** Index of the first occurrence of x in xs. */
  function FirstIndex<T(==,!new)>(xs: seq<T>, x: T): (i: nat)
    requires x in xs
    ensures i < |xs| && xs[i] == x && x !in xs[..i]
  {
    if xs[0] == x then 0 else 1 + FirstIndex(xs[1..], x)
  }

  /** Adding one more element is one more `add`. */
  lemma AddAllSnoc<T(!new)>(acc: seq<T>, xs: seq<T>, y: T)
    ensures AddAll(acc, xs + [y]) == Add(AddAll(acc, xs), y)
  {
    var zs := xs + [y];
    assert zs[..|zs| - 1] == xs;
  }

  /** Adding xs and then ys is adding xs + ys. */
  lemma {:induction false} AddAllConcat<T(!new)>(acc: seq<T>, xs: seq<T>, ys: seq<T>)
    ensures AddAll(acc, xs + ys) == AddAll(AddAll(acc, xs), ys)
    decreases |ys|
  {
    if ys == [] {
      assert xs + ys == xs;
    } else {
      var init, y := ys[..|ys| - 1], ys[|ys| - 1];
      assert ys == init + [y];
      assert xs + ys == (xs + init) + [y];
      AddAllConcat(acc, xs, init);
      AddAllSnoc(acc, xs + init, y);
      AddAllSnoc(AddAll(acc, xs), init, y);
    }
  }

  /** Elements none of which is already present are added as a set of their own. */
  lemma {:induction false} AddAllFresh<T(!new)>(acc: seq<T>, xs: seq<T>)
    requires forall x :: x in xs ==> x !in acc
    ensures AddAll(acc, xs) == acc + Dedup(xs)
    decreases |xs|
  {
    if xs != [] {
      var init, y := xs[..|xs| - 1], xs[|xs| - 1];
      assert xs == init + [y];
      assert forall x :: x in init ==> x in xs;
      AddAllFresh(acc, init);
      AddAllSnoc(acc, init, y);
      AddAllSnoc([], init, y);
      AddBehind(acc, Dedup(init), y);
    }
  }

  /** Adding an element the front part lacks only concerns the back part. */
  lemma AddBehind<T(!new)>(front: seq<T>, back: seq<T>, y: T)
    requires y !in front
    ensures Add(front + back, y) == front + Add(back, y)
  {
  }

  /** A duplicate-free sequence is its own set. */
  lemma {:induction false} DedupOfNoDup<T(!new)>(xs: seq<T>)
    requires NoDup(xs)
    ensures Dedup(xs) == xs
    decreases |xs|
  {
    if xs != [] {
      var init, y := xs[..|xs| - 1], xs[|xs| - 1];
      DedupOfNoDup(init);
      assert y !in init;
      assert init + [y] == xs;
    }
  }

  /** Deduplication loses nothing exactly when there was nothing to lose. */
  lemma {:induction false} DedupKeepsLength<T(!new)>(xs: seq<T>)
    ensures |Dedup(xs)| == |xs| <==> NoDup(xs)
    decreases |xs|
  {
    if NoDup(xs) {
      DedupOfNoDup(xs);
    } else if xs != [] {
      var init, y := xs[..|xs| - 1], xs[|xs| - 1];
      DedupKeepsLength(init);
      if NoDup(init) {
        // then y repeats an element of init, which Add skips
        assert y in init by {
          var i, j :| 0 <= i < j < |xs| && xs[i] == xs[j];
          assert j == |xs| - 1 && init[i] == y;
        }
      }
    }
  }

  lemma {:induction false} FirstIndexAppend<T(!new)>(xs: seq<T>, ys: seq<T>, x: T)
    requires x in xs
    ensures FirstIndex(xs + ys, x) == FirstIndex(xs, x)
    decreases |xs|
  {
    if xs[0] != x {
      assert (xs + ys)[1..] == xs[1..] + ys;
      FirstIndexAppend(xs[1..], ys, x);
    }
  }

  /** The set lists its elements in the order of their first occurrence in xs. */
  lemma {:induction false} DedupFirstOccurrenceOrder<T(!new)>(xs: seq<T>)
    ensures forall i, j :: 0 <= i < j < |Dedup(xs)| ==>
      FirstIndex(xs, Dedup(xs)[i]) < FirstIndex(xs, Dedup(xs)[j])
    decreases |xs|
  {
    if xs != [] {
      var init, y := xs[..|xs| - 1], xs[|xs| - 1];
      assert xs == init + [y];
      DedupFirstOccurrenceOrder(init);
      var d, r := Dedup(init), Dedup(xs);
      forall z | z in init
        ensures FirstIndex(xs, z) == FirstIndex(init, z)
      {
        FirstIndexAppend(init, [y], z);
      }
      if y !in init {
        assert FirstIndex(xs, y) == |init|;
      }
      forall i, j | 0 <= i < j < |r|
        ensures FirstIndex(xs, r[i]) < FirstIndex(xs, r[j])
      {
        assert r[i] == d[i];
        if j < |d| {
          assert r[j] == d[j];
        }
      }
    }
  }
}
