/** The lodash/fp sequence helpers the core composes: `map`, `filter`, `uniq` and
    `without`. */
module Collections {

  predicate NoDuplicates<T(==)>(xs: seq<T>) {
    forall i, j :: 0 <= i < j < |xs| ==> xs[i] != xs[j]
  }

  lemma NoDuplicatesCons<T>(x: T, xs: seq<T>)
    ensures NoDuplicates([x] + xs) <==> x !in xs && NoDuplicates(xs)
  {
    var ys := [x] + xs;
    assert forall i :: 0 <= i < |xs| ==> ys[i + 1] == xs[i];
    if x in xs {
      var i :| 0 <= i < |xs| && xs[i] == x;
      assert ys[0] == ys[i + 1];
    }
  }

  lemma Associative<T>(a: seq<T>, b: seq<T>, c: seq<T>)
    ensures (a + b) + c == a + (b + c)
  {
  }

  /** The head and the tail of a concatenation whose first part is not empty. */
  lemma DropFirst<T>(a: seq<T>, b: seq<T>)
    requires a != []
    ensures (a + b)[0] == a[0] && (a + b)[1..] == a[1..] + b
  {
  }

  lemma HeadTail<T>(xs: seq<T>)
    requires xs != []
    ensures [xs[0]] + xs[1..] == xs
  {
  }

  lemma NoDuplicatesSnoc<T>(xs: seq<T>, x: T)
    requires x !in xs && NoDuplicates(xs)
    ensures NoDuplicates(xs + [x])
  {
  }

  /** The elements of a sequence, as a set. */
  function Elements<T>(xs: seq<T>): set<T> {
    set x | x in xs
  }

  /** The index of the first occurrence of `x` in `xs`. */
  function FirstIndex<T(==)>(xs: seq<T>, x: T): (i: nat)
    requires x in xs
    ensures i < |xs| && xs[i] == x && x !in xs[..i]
  {
    if xs[0] == x then 0 else 1 + FirstIndex(xs[1..], x)
  }

  /** `r` is obtained from `xs` by deleting elements, keeping the order of the rest. */
  predicate IsSubsequence<T(==)>(r: seq<T>, xs: seq<T>)
    decreases |xs|
  {
    r == [] ||
    (xs != [] && ((r[0] == xs[0] && IsSubsequence(r[1..], xs[1..])) || IsSubsequence(r, xs[1..])))
  }

  /** `map(f)`. */
  function Map<A, B>(xs: seq<A>, f: A -> B): (r: seq<B>)
    ensures |r| == |xs|
    ensures forall i :: 0 <= i < |xs| ==> r[i] == f(xs[i])
  {
    seq(|xs|, i requires 0 <= i < |xs| => f(xs[i]))
  }

  lemma MapCons<A, B>(x: A, xs: seq<A>, f: A -> B)
    ensures Map([x] + xs, f) == [f(x)] + Map(xs, f)
  {
    var l, r := Map([x] + xs, f), [f(x)] + Map(xs, f);
    forall i | 0 <= i < |l| ensures l[i] == r[i] {
      if i > 0 {
        assert ([x] + xs)[i] == xs[i - 1];
      }
    }
  }

  /** The set of images of the elements of `xs` under `f`. */
  function Image<A, B>(xs: seq<A>, f: A -> B): set<B> {
    set i | 0 <= i < |xs| :: f(xs[i])
  }

  /** One more element adds its own image. */
  lemma ImageSnoc<A, B>(xs: seq<A>, f: A -> B)
    requires xs != []
    ensures Image(xs, f) == Image(xs[..|xs| - 1], f) + {f(xs[|xs| - 1])}
  {
    var init := xs[..|xs| - 1];
    forall y | y in Image(xs, f) ensures y in Image(init, f) + {f(xs[|xs| - 1])} {
      var i :| 0 <= i < |xs| && y == f(xs[i]);
      if i < |init| {
        assert init[i] == xs[i];
      }
    }
    forall y | y in Image(init, f) ensures y in Image(xs, f) {
      var i :| 0 <= i < |init| && y == f(init[i]);
      assert init[i] == xs[i];
    }
  }

  /** `filter(p)`: the elements satisfying `p`, in their original order. */
  function Filter<T(==, !new)>(xs: seq<T>, p: T -> bool): (r: seq<T>)
    ensures forall x :: x in r <==> x in xs && p(x)
    ensures forall x :: multiset(r)[x] == if p(x) then multiset(xs)[x] else 0
    ensures IsSubsequence(r, xs)
    ensures |r| <= |xs|
  {
    if xs == [] then []
    else
      assert xs == [xs[0]] + xs[1..];
      if p(xs[0]) then
        var r := [xs[0]] + Filter(xs[1..], p);
        assert r[1..] == Filter(xs[1..], p);
        r
      else Filter(xs[1..], p)
  }

  /** One step of the filter: the head when it passes, then the filtered tail. */
  lemma FilterCons<T(!new)>(xs: seq<T>, p: T -> bool)
    requires xs != []
    ensures Filter(xs, p) == if p(xs[0]) then [xs[0]] + Filter(xs[1..], p) else Filter(xs[1..], p)
  {
  }

  /** Filtering what a filter kept keeps all of it. */
  lemma {:induction false} FilterIdempotent<T(!new)>(xs: seq<T>, p: T -> bool)
    ensures Filter(Filter(xs, p), p) == Filter(xs, p)
  {
    if xs != [] {
      FilterIdempotent(xs[1..], p);
      if p(xs[0]) {
        assert ([xs[0]] + Filter(xs[1..], p))[1..] == Filter(xs[1..], p);
      }
    }
  }

  /** A filter whose test every element passes keeps the sequence whole. */
  lemma {:induction false} FilterAll<T(!new)>(xs: seq<T>, p: T -> bool)
    requires forall i :: 0 <= i < |xs| ==> p(xs[i])
    ensures Filter(xs, p) == xs
  {
    if xs != [] {
      FilterAll(xs[1..], p);
      assert xs == [xs[0]] + xs[1..];
    }
  }

  /** Filtering the images of `g` on `p` is mapping `g` over the elements whose image
      passes `p`. */
  lemma {:induction false} FilterMap<A(!new), B(!new)>(xs: seq<A>, g: A -> B, p: B -> bool, q: A -> bool)
    requires forall x :: q(x) == p(g(x))
    ensures Filter(Map(xs, g), p) == Map(Filter(xs, q), g)
  {
    if xs != [] {
      FilterMap(xs[1..], g, p, q);
      var ys := Map(xs, g);
      assert ys != [] && ys[0] == g(xs[0]) && ys[1..] == Map(xs[1..], g);
      FilterCons(ys, p);
      FilterCons(xs, q);
      if q(xs[0]) {
        MapCons(xs[0], Filter(xs[1..], q), g);
      }
    }
  }

  /** The first occurrences, in order, of the elements of `xs` that are not in `seen`.
      `uniq` is `Dedup(xs, {})`. */
  function Dedup<T(==, !new)>(xs: seq<T>, seen: set<T>): (r: seq<T>)
    ensures NoDuplicates(r)
    ensures forall x :: x in r <==> x in xs && x !in seen
    ensures forall i, j :: 0 <= i < j < |r| ==> FirstIndex(xs, r[i]) < FirstIndex(xs, r[j])
    decreases |xs|
  {
    if xs == [] then []
    else if xs[0] in seen then Dedup(xs[1..], seen)
    else
      var rest := Dedup(xs[1..], seen + {xs[0]});
      var r := [xs[0]] + rest;
      assert forall k :: 1 <= k < |r| ==> r[k] == rest[k - 1];
      r
  }

  lemma DedupCons<T(!new)>(x: T, xs: seq<T>, seen: set<T>)
    ensures Dedup([x] + xs, seen)
      == if x in seen then Dedup(xs, seen) else [x] + Dedup(xs, seen + {x})
  {
    assert ([x] + xs)[0] == x && ([x] + xs)[1..] == xs;
  }

  /** `uniq`: every element once, at the position of its first occurrence. */
  function Uniq<T(==, !new)>(xs: seq<T>): (r: seq<T>)
    ensures NoDuplicates(r)
    ensures forall x :: x in r <==> x in xs
    ensures forall i, j :: 0 <= i < j < |r| ==> FirstIndex(xs, r[i]) < FirstIndex(xs, r[j])
  {
    Dedup(xs, {})
  }

  /** `without([x])`: every occurrence of `x` removed. */
  function Without<T(==, !new)>(xs: seq<T>, x: T): (r: seq<T>)
    ensures x !in r
    ensures forall y :: y != x ==> (y in r <==> y in xs)
    ensures forall y :: y != x ==> multiset(r)[y] == multiset(xs)[y]
    ensures IsSubsequence(r, xs)
    ensures x !in xs ==> r == xs
  {
    if xs == [] then []
    else
      assert xs == [xs[0]] + xs[1..];
      if xs[0] == x then Without(xs[1..], x)
      else
        var r := [xs[0]] + Without(xs[1..], x);
        assert r[1..] == Without(xs[1..], x);
        r
  }

  /** Deduplicating a concatenation: the first part's new elements, then those of the
      second part that neither the first part nor `seen` has. */
  lemma {:induction false} DedupAppend<T(!new)>(a: seq<T>, b: seq<T>, seen: set<T>)
    ensures Dedup(a + b, seen) == Dedup(a, seen) + Dedup(b, seen + Elements(a))
    decreases |a|
  {
    if a == [] {
      assert a + b == b;
      assert Dedup(a, seen) == [];
      assert seen + Elements(a) == seen;
    } else {
      var a0, tail := a[0], a[1..];
      assert (a + b)[0] == a0 && (a + b)[1..] == tail + b;
      assert Elements(a) == {a0} + Elements(tail) by {
        assert a == [a0] + tail;
      }
      if a0 in seen {
        DedupAppend(tail, b, seen);
        assert seen + Elements(tail) == seen + Elements(a);
      } else {
        var seen' := seen + {a0};
        var x, y := Dedup(tail, seen'), Dedup(b, seen' + Elements(tail));
        assert Dedup(a + b, seen) == [a0] + (x + y) by {
          DedupAppend(tail, b, seen');
        }
        assert seen' + Elements(tail) == seen + Elements(a);
        assert [a0] + (x + y) == ([a0] + x) + y;
      }
    }
  }

  /** Deduplicating twice is deduplicating once against both `seen` sets. */
  lemma {:induction false} DedupTwice<T(!new)>(xs: seq<T>, inner: set<T>, outer: set<T>)
    ensures Dedup(Dedup(xs, inner), outer) == Dedup(xs, outer + inner)
    decreases |xs|
  {
    if xs != [] {
      var x0 := xs[0];
      if x0 in inner {
        DedupTwice(xs[1..], inner, outer);
      } else {
        var rest := Dedup(xs[1..], inner + {x0});
        assert Dedup(xs, inner) == [x0] + rest;
        assert ([x0] + rest)[0] == x0 && ([x0] + rest)[1..] == rest;
        DedupTwice(xs[1..], inner + {x0}, outer);
        assert outer + (inner + {x0}) == outer + inner + {x0};
        if x0 in outer {
          assert outer + inner + {x0} == outer + inner;
        } else {
          DedupIgnoresAbsent(rest, outer, x0);
        }
      }
    }
  }

  /** Deduplicating `xs` without `x`, then putting `x` in front, deduplicates like
      `xs` itself once `x` has been seen. */
  lemma DedupAfterSeen<T(!new)>(x: T, xs: seq<T>, seen: set<T>)
    requires x in seen
    ensures Dedup([x] + Dedup(xs, {x}), seen) == Dedup(xs, seen)
  {
    DedupCons(x, Dedup(xs, {x}), seen);
    DedupTwice(xs, {x}, seen);
    assert seen + {x} == seen;
  }

  /** The same, for the elements. */
  lemma ElementsAfterSeen<T(!new)>(x: T, xs: seq<T>, seen: set<T>)
    requires x in seen
    ensures seen + Elements([x] + Dedup(xs, {x})) == seen + Elements(xs)
  {
    var inner := Dedup(xs, {x});
    assert Elements([x] + inner) == {x} + Elements(inner);
  }

  /** Adding to `seen` an element the sequence does not contain changes nothing. */
  lemma {:induction false} DedupIgnoresAbsent<T(!new)>(xs: seq<T>, seen: set<T>, x: T)
    requires x !in xs
    ensures Dedup(xs, seen) == Dedup(xs, seen + {x})
    decreases |xs|
  {
    if xs != [] {
      if xs[0] in seen {
        DedupIgnoresAbsent(xs[1..], seen, x);
      } else {
        DedupIgnoresAbsent(xs[1..], seen + {xs[0]}, x);
        assert seen + {xs[0]} + {x} == seen + {x} + {xs[0]};
      }
    }
  }

  /** Removing `x` after deduplicating is deduplicating with `x` already seen. */
  lemma {:induction false} WithoutDedup<T(!new)>(xs: seq<T>, seen: set<T>, x: T)
    ensures Without(Dedup(xs, seen), x) == Dedup(xs, seen + {x})
    decreases |xs|
  {
    if xs != [] {
      var x0 := xs[0];
      if x0 in seen {
        WithoutDedup(xs[1..], seen, x);
      } else {
        var rest := Dedup(xs[1..], seen + {x0});
        assert Dedup(xs, seen) == [x0] + rest;
        assert ([x0] + rest)[0] == x0 && ([x0] + rest)[1..] == rest;
        if x0 == x {
          assert seen + {x} + {x} == seen + {x};
        } else {
          WithoutDedup(xs[1..], seen + {x0}, x);
          assert seen + {x0} + {x} == seen + {x} + {x0};
        }
      }
    }
  }
}
