/**
 * Order-preserving de-duplication, as the configuration code writes it
 * (`if x not in seen: seen.add(x); out.append(x)`), and flattening of a
 * list of lists.
 */
module Lists {
  predicate Distinct<T(==)>(xs: seq<T>) {
    forall a, b :: 0 <= a < b < |xs| ==> xs[a] != xs[b]
  }

  /** Append to `acc`, in order, each element of `xs` that is not there yet. */
  function AddNew<T(==)>(acc: seq<T>, xs: seq<T>): seq<T>
    decreases |xs|
  {
    if xs == [] then acc
    else AddNew(if xs[0] in acc then acc else acc + [xs[0]], xs[1..])
  }

  /** The elements of `xs` without repeats, each at its first occurrence. */
  function Unique<T(==)>(xs: seq<T>): seq<T> {
    AddNew([], xs)
  }

  /** `[x for xs in xss for x in xs]`. */
  function Flatten<T>(xss: seq<seq<T>>): (r: seq<T>)
    decreases |xss|
  {
    if xss == [] then [] else xss[0] + Flatten(xss[1..])
  }

  /** An element of the flattened list comes from one of the lists, and every element of every list is in it. */
  lemma {:induction false} FlattenMember<T>(xss: seq<seq<T>>, x: T)
    ensures x in Flatten(xss) <==> exists k :: 0 <= k < |xss| && x in xss[k]
    decreases |xss|
  {
    if xss != [] {
      FlattenMember(xss[1..], x);
      if exists k :: 0 <= k < |xss| && x in xss[k] {
        var k :| 0 <= k < |xss| && x in xss[k];
        if k > 0 {
          assert xss[1..][k - 1] == xss[k];
        }
      }
      if exists k :: 0 <= k < |xss| - 1 && x in xss[1..][k] {
        var k :| 0 <= k < |xss| - 1 && x in xss[1..][k];
        assert xss[k + 1] == xss[1..][k];
      }
    }
  }

  /**
   * Collecting keeps what was collected, in place, never repeats an element,
   * and ends with exactly the elements of `acc` and `xs`.
   */
  lemma {:induction false} AddNewSpec<T>(acc: seq<T>, xs: seq<T>)
    requires Distinct(acc)
    ensures Distinct(AddNew(acc, xs))
    ensures acc <= AddNew(acc, xs)
    ensures forall x :: x in AddNew(acc, xs) <==> x in acc || x in xs
    decreases |xs|
  {
    if xs != [] {
      var acc' := if xs[0] in acc then acc else acc + [xs[0]];
      AddNewSpec(acc', xs[1..]);
      assert xs == [xs[0]] + xs[1..];
    }
  }

  /** The de-duplicated list has no repeats and exactly the elements of the input. */
  lemma UniqueSpec<T>(xs: seq<T>)
    ensures Distinct(Unique(xs))
    ensures forall x :: x in Unique(xs) <==> x in xs
  {
    AddNewSpec([], xs);
  }

  lemma {:induction false} AddNewAppend<T>(acc: seq<T>, xs: seq<T>, ys: seq<T>)
    ensures AddNew(acc, xs + ys) == AddNew(AddNew(acc, xs), ys)
    decreases |xs|
  {
    if xs == [] {
      assert xs + ys == ys;
    } else {
      assert (xs + ys)[0] == xs[0];
      assert (xs + ys)[1..] == xs[1..] + ys;
      AddNewAppend(if xs[0] in acc then acc else acc + [xs[0]], xs[1..], ys);
    }
  }

  lemma {:induction false} AddNewGrows<T>(acc: seq<T>, xs: seq<T>)
    ensures acc <= AddNew(acc, xs)
    decreases |xs|
  {
    if xs != [] {
      AddNewGrows(if xs[0] in acc then acc else acc + [xs[0]], xs[1..]);
    }
  }

  /**
   * First-occurrence order: the de-duplication of any prefix of the input
   * stays, unchanged and in place, at the front of the whole result.
   */
  lemma UniquePrefix<T>(xs: seq<T>, k: nat)
    requires k <= |xs|
    ensures Unique(xs[..k]) <= Unique(xs)
  {
    assert xs == xs[..k] + xs[k..];
    AddNewAppend([], xs[..k], xs[k..]);
    AddNewGrows(Unique(xs[..k]), xs[k..]);
  }

  lemma {:induction false} AddNewFresh<T>(acc: seq<T>, xs: seq<T>)
    requires Distinct(acc + xs)
    ensures AddNew(acc, xs) == acc + xs
    decreases |xs|
  {
    if xs != [] {
      assert xs[0] == (acc + xs)[|acc|];
      assert xs[0] !in acc by {
        forall a | 0 <= a < |acc|
          ensures acc[a] != xs[0]
        {
          assert acc[a] == (acc + xs)[a];
        }
      }
      assert acc + xs == (acc + [xs[0]]) + xs[1..];
      AddNewFresh(acc + [xs[0]], xs[1..]);
    }
  }

  /** A list without repeats is its own de-duplication, so de-duplicating twice is de-duplicating once. */
  lemma UniqueOfDistinct<T>(xs: seq<T>)
    ensures Distinct(xs) ==> Unique(xs) == xs
    ensures Unique(Unique(xs)) == Unique(xs)
  {
    if Distinct(xs) {
      assert [] + xs == xs;
      AddNewFresh([], xs);
    }
    UniqueSpec(xs);
    assert [] + Unique(xs) == Unique(xs);
    AddNewFresh([], Unique(xs));
  }

  lemma {:induction false} FlattenAppend<T>(xss: seq<seq<T>>, yss: seq<seq<T>>)
    ensures Flatten(xss + yss) == Flatten(xss) + Flatten(yss)
    decreases |xss|
  {
    if xss == [] {
      assert xss + yss == yss;
    } else {
      assert (xss + yss)[1..] == xss[1..] + yss;
      FlattenAppend(xss[1..], yss);
    }
  }

  /** De-duplicating the first `k` lists gives a prefix of de-duplicating them all. */
  lemma UniqueFlattenPrefix<T>(xss: seq<seq<T>>, k: nat)
    requires k <= |xss|
    ensures Unique(Flatten(xss[..k])) <= Unique(Flatten(xss))
  {
    assert xss == xss[..k] + xss[k..];
    FlattenAppend(xss[..k], xss[k..]);
    var a := Flatten(xss[..k]);
    var all := Flatten(xss);
    assert all[..|a|] == a;
    UniquePrefix(all, |a|);
  }
}
