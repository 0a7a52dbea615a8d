/** Small generic building blocks shared by every screen model: an optional
    value, sums of real-valued measures over sequences, and the list edits the
    screens perform on their collections (update where, update first, remove). */
module Common {

  datatype Option<T> = None | Some(value: T) {
    function GetOr(default: T): T {
      match this
      case Some(v) => v
      case None => default
    }
  }

  /** JavaScript's `a || b` on strings: the empty string is falsy. */
  function OrElse(a: string, b: string): (r: string)
    ensures a != "" ==> r == a
    ensures a == "" ==> r == b
  {
    if a != "" then a else b
  }

  // ---------------------------------------------------------------------------
  // Sums
  // ---------------------------------------------------------------------------

  /** Σ f(x) over the elements of xs, accumulated left to right as `reduce` does. */
  function SumOf<T>(xs: seq<T>, f: T -> real): real
    decreases |xs|
  {
    if |xs| == 0 then 0.0 else SumOf(xs[..|xs| - 1], f) + f(xs[|xs| - 1])
  }

  lemma {:induction false} SumOfAppend<T>(xs: seq<T>, ys: seq<T>, f: T -> real)
    ensures SumOf(xs + ys, f) == SumOf(xs, f) + SumOf(ys, f)
    decreases |ys|
  {
    if |ys| == 0 {
      assert xs + ys == xs;
    } else {
      var ys' := ys[..|ys| - 1];
      assert (xs + ys)[..|xs + ys| - 1] == xs + ys';
      SumOfAppend(xs, ys', f);
    }
  }

  lemma SumOfCons<T>(x: T, xs: seq<T>, f: T -> real)
    ensures SumOf([x] + xs, f) == f(x) + SumOf(xs, f)
  {
    SumOfAppend([x], xs, f);
    assert [x][..0] == [];
  }

  /** Removing the first element of xs and a matching element of ys keeps
      the two multisets equal. */
  lemma MultisetRemove<T>(xs: seq<T>, ys: seq<T>, j: nat)
    requires multiset(xs) == multiset(ys) && |xs| > 0 && j < |ys| && ys[j] == xs[0]
    ensures multiset(xs[1..]) == multiset(ys[..j] + ys[j + 1..])
  {
    var x := xs[0];
    assert ys == ys[..j] + [x] + ys[j + 1..];
    assert xs == [x] + xs[1..];
    calc {
      multiset(xs[1..]);
      multiset(xs) - multiset{x};
      multiset(ys) - multiset{x};
      { assert multiset(ys) == multiset(ys[..j]) + multiset{x} + multiset(ys[j + 1..]); }
      multiset(ys[..j] + ys[j + 1..]);
    }
  }

  /** The sum is the element at j plus the sum of the others. */
  lemma {:induction false} SumOfRemove<T>(ys: seq<T>, j: nat, f: T -> real)
    requires j < |ys|
    ensures SumOf(ys, f) == SumOf(ys[..j] + ys[j + 1..], f) + f(ys[j])
  {
    var a := ys[..j];
    var b := ys[j + 1..];
    assert SumOf(ys, f) == SumOf(a + [ys[j]], f) + SumOf(b, f) by {
      assert ys == (a + [ys[j]]) + b;
      SumOfAppend(a + [ys[j]], b, f);
    }
    assert SumOf(a + [ys[j]], f) == SumOf(a, f) + f(ys[j]) by {
      assert (a + [ys[j]])[..|a + [ys[j]]| - 1] == a;
    }
    SumOfAppend(a, b, f);
  }

  /** The sum does not depend on the order of the elements. */
  lemma {:induction false} SumOfPermutation<T>(xs: seq<T>, ys: seq<T>, f: T -> real)
    requires multiset(xs) == multiset(ys)
    ensures SumOf(xs, f) == SumOf(ys, f)
    decreases |xs|
  {
    if |xs| == 0 {
      assert |ys| == |multiset(ys)| == 0;
    } else {
      var x := xs[0];
      assert x in multiset(ys);
      var j :| 0 <= j < |ys| && ys[j] == x;
      var rest := ys[..j] + ys[j + 1..];
      MultisetRemove(xs, ys, j);
      SumOfPermutation(xs[1..], rest, f);
      assert xs == [x] + xs[1..];
      SumOfCons(x, xs[1..], f);
      SumOfRemove(ys, j, f);
    }
  }

  /** When every element contributes the same amount, the sum is count × amount. */
  lemma {:induction false} SumOfConstant<T>(xs: seq<T>, f: T -> real, c: real)
    requires forall i :: 0 <= i < |xs| ==> f(xs[i]) == c
    ensures SumOf(xs, f) == |xs| as real * c
    decreases |xs|
  {
    if |xs| > 0 {
      SumOfConstant(xs[..|xs| - 1], f, c);
    }
  }

  /** Sums are linear: scaling every term scales the sum. */
  lemma {:induction false} SumOfScale<T>(xs: seq<T>, f: T -> real, g: T -> real, c: real)
    requires forall i :: 0 <= i < |xs| ==> g(xs[i]) == c * f(xs[i])
    ensures SumOf(xs, g) == c * SumOf(xs, f)
    decreases |xs|
  {
    if |xs| > 0 {
      SumOfScale(xs[..|xs| - 1], f, g, c);
    }
  }

  /** Two measures that agree on every element have the same sum. */
  lemma {:induction false} SumOfCongruent<T>(xs: seq<T>, f: T -> real, g: T -> real)
    requires forall i :: 0 <= i < |xs| ==> f(xs[i]) == g(xs[i])
    ensures SumOf(xs, f) == SumOf(xs, g)
    decreases |xs|
  {
    if |xs| > 0 {
      SumOfCongruent(xs[..|xs| - 1], f, g);
    }
  }

  /** `count > 0 ? total / count : 0`, the guarded mean every screen uses. */
  function MeanOf(total: real, count: nat): (m: real)
    ensures count > 0 ==> m * count as real == total
    ensures count == 0 ==> m == 0.0
  {
    if count > 0 then total / count as real else 0.0
  }

  // ---------------------------------------------------------------------------
  // List edits
  // ---------------------------------------------------------------------------

  /** `xs.map(f)`. */
  function Map<T, U>(xs: seq<T>, f: T -> U): (r: seq<U>)
    ensures |r| == |xs|
    ensures forall i :: 0 <= i < |xs| ==> r[i] == f(xs[i])
  {
    seq(|xs|, i requires 0 <= i < |xs| => f(xs[i]))
  }

  /** `xs.map(x => p(x) ? f(x) : x)`. */
  function MapWhere<T>(xs: seq<T>, p: T -> bool, f: T -> T): (r: seq<T>)
    ensures |r| == |xs|
    ensures forall i :: 0 <= i < |xs| && p(xs[i]) ==> r[i] == f(xs[i])
    ensures forall i :: 0 <= i < |xs| && !p(xs[i]) ==> r[i] == xs[i]
  {
    seq(|xs|, i requires 0 <= i < |xs| => if p(xs[i]) then f(xs[i]) else xs[i])
  }

  /** Index of the first element satisfying p, as `find`/`findIndex` return it. */
  function FirstIndex<T>(xs: seq<T>, p: T -> bool): (r: Option<nat>)
    ensures r.None? <==> forall i :: 0 <= i < |xs| ==> !p(xs[i])
    ensures r.Some? ==> r.value < |xs| && p(xs[r.value])
    ensures r.Some? ==> forall i :: 0 <= i < r.value ==> !p(xs[i])
    decreases |xs|
  {
    if |xs| == 0 then None
    else if p(xs[0]) then Some(0)
    else match FirstIndex(xs[1..], p)
      case None => None
      case Some(k) => Some(k + 1)
  }

  /** `xs.filter(p)`. */
  function Filter<T>(xs: seq<T>, p: T -> bool): (r: seq<T>)
    ensures |r| <= |xs|
    ensures forall i :: 0 <= i < |r| ==> r[i] in xs && p(r[i])
    ensures forall i :: 0 <= i < |xs| && p(xs[i]) ==> xs[i] in r
    decreases |xs|
  {
    if |xs| == 0 then []
    else if p(xs[0]) then [xs[0]] + Filter(xs[1..], p)
    else Filter(xs[1..], p)
  }

  lemma {:induction false} FilterAll<T>(xs: seq<T>, p: T -> bool)
    requires forall i :: 0 <= i < |xs| ==> p(xs[i])
    ensures Filter(xs, p) == xs
    decreases |xs|
  {
    if |xs| > 0 {
      FilterAll(xs[1..], p);
    }
  }

  /** Filtering a list with one more element at the end keeps what the
      shorter list kept and adds the element if it passes. */
  lemma {:induction false} FilterSnoc<T>(xs: seq<T>, x: T, p: T -> bool)
    ensures Filter(xs + [x], p) == Filter(xs, p) + (if p(x) then [x] else [])
    decreases |xs|
  {
    if |xs| > 0 {
      assert (xs + [x])[1..] == xs[1..] + [x];
      FilterSnoc(xs[1..], x, p);
    } else {
      assert [x][1..] == [];
    }
  }

  /** A value is among the images of the elements p keeps exactly when some
      element satisfying p maps to it. */
  lemma MapFilterMembers<T, U>(xs: seq<T>, p: T -> bool, f: T -> U, u: U)
    ensures u in Map(Filter(xs, p), f) <==> exists i :: 0 <= i < |xs| && p(xs[i]) && f(xs[i]) == u
  {
    var ys := Filter(xs, p);
    var m := Map(ys, f);
    if u in m {
      var k :| 0 <= k < |m| && m[k] == u;
      assert ys[k] in xs;
      var i :| 0 <= i < |xs| && xs[i] == ys[k];
      assert p(xs[i]) && f(xs[i]) == u;
    }
    if exists i :: 0 <= i < |xs| && p(xs[i]) && f(xs[i]) == u {
      var i :| 0 <= i < |xs| && p(xs[i]) && f(xs[i]) == u;
      assert xs[i] in ys;
      var k :| 0 <= k < |ys| && ys[k] == xs[i];
      assert m[k] == u;
    }
  }

  /** The element at i replaced, the others untouched. */
  function ReplaceAt<T>(xs: seq<T>, i: nat, x: T): (r: seq<T>)
    requires i < |xs|
    ensures |r| == |xs| && r[i] == x
    ensures forall j :: 0 <= j < |xs| && j != i ==> r[j] == xs[j]
  {
    xs[i := x]
  }

  /** Replace the first element satisfying p by x, or append x when there is
      none: the record upsert of the screens. */
  function UpsertFirst<T>(xs: seq<T>, p: T -> bool, x: T): (r: seq<T>)
    ensures FirstIndex(xs, p).Some? ==>
      var k := FirstIndex(xs, p).value;
      |r| == |xs| && r[k] == x && forall j :: 0 <= j < |xs| && j != k ==> r[j] == xs[j]
    ensures FirstIndex(xs, p).None? ==> r == xs + [x]
  {
    match FirstIndex(xs, p)
    case Some(k) => xs[k := x]
    case None => xs + [x]
  }

  /** After an upsert of an element with the key, looking the key up finds
      that element, and upserting it again changes nothing. */
  lemma UpsertFirstFinds<T>(xs: seq<T>, p: T -> bool, x: T)
    requires p(x)
    ensures FirstIndex(UpsertFirst(xs, p, x), p).Some?
    ensures UpsertFirst(xs, p, x)[FirstIndex(UpsertFirst(xs, p, x), p).value] == x
    ensures UpsertFirst(UpsertFirst(xs, p, x), p, x) == UpsertFirst(xs, p, x)
  {
    var r := UpsertFirst(xs, p, x);
    var f := FirstIndex(r, p);
    match FirstIndex(xs, p)
    case Some(k) =>
      assert f.Some?;
      assert f.value == k;
      assert r[k := x] == r;
    case None =>
      assert r[|xs|] == x;
      assert f.value == |xs|;
      assert r[|xs| := x] == r;
  }

  /** `xs.filter((_, j) => j !== i)`. */
  function RemoveAt<T>(xs: seq<T>, i: nat): (r: seq<T>)
    requires i < |xs|
    ensures |r| == |xs| - 1
    ensures forall j :: 0 <= j < i ==> r[j] == xs[j]
    ensures forall j :: i <= j < |r| ==> r[j] == xs[j + 1]
  {
    xs[..i] + xs[i + 1..]
  }

  /** The rows of xs whose id is not in ids, in order. */
  function DropIds<T(!new)>(xs: seq<T>, id: T -> nat, ids: set<nat>): (r: seq<T>)
    ensures |r| <= |xs|
    ensures forall x :: x in r <==> x in xs && id(x) !in ids
    decreases |xs|
  {
    if |xs| == 0 then []
    else if id(xs[0]) in ids then DropIds(xs[1..], id, ids)
    else [xs[0]] + DropIds(xs[1..], id, ids)
  }

  /** The ids of a sequence, as a set. */
  function IdSet(ids: seq<nat>): (r: set<nat>)
    ensures forall i :: i in r <==> i in ids
    decreases |ids|
  {
    if |ids| == 0 then {} else IdSet(ids[..|ids| - 1]) + {ids[|ids| - 1]}
  }

  /** Dropping one set of ids and then another drops their union. */
  lemma {:induction false} DropIdsTwice<T(!new)>(xs: seq<T>, id: T -> nat, a: set<nat>, b: set<nat>)
    ensures DropIds(DropIds(xs, id, a), id, b) == DropIds(xs, id, a + b)
    decreases |xs|
  {
    if |xs| > 0 {
      DropIdsTwice(xs[1..], id, a, b);
      if id(xs[0]) !in a {
        assert DropIds(xs, id, a) == [xs[0]] + DropIds(xs[1..], id, a);
        assert ([xs[0]] + DropIds(xs[1..], id, a))[1..] == DropIds(xs[1..], id, a);
      }
    }
  }

  lemma {:induction false} DropNothing<T(!new)>(xs: seq<T>, id: T -> nat)
    ensures DropIds(xs, id, {}) == xs
    decreases |xs|
  {
    if |xs| > 0 {
      DropNothing(xs[1..], id);
      assert xs == [xs[0]] + xs[1..];
    }
  }
}
