/**
 * Sequences of distinct element ids and the DOM moves the dashboard makes on
 * them: `appendChild` of a child that is already in the container (move it to
 * the end) and `insertBefore` (move it to just before another child).
 */
module Seqs {
  import opened Wrappers

  function Elems<T(==,!new)>(s: seq<T>): (r: set<T>)
    ensures forall x :: x in r <==> x in s
  {
    set x | x in s
  }

  /** No element occurs twice. */
  ghost predicate Distinct<T(!new)>(s: seq<T>)
  {
    forall x :: multiset(s)[x] <= 1
  }

  /** The elements of `s` that are not in `out`, in their order in `s`. */
  function Keep<T(==,!new)>(s: seq<T>, out: set<T>): (r: seq<T>)
    ensures |r| <= |s|
  {
    if s == [] then [] else (if s[0] in out then [] else [s[0]]) + Keep(s[1..], out)
  }

  lemma {:induction false} KeepMembers<T(!new)>(s: seq<T>, out: set<T>)
    ensures forall x :: x in Keep(s, out) <==> x in s && x !in out
  {
    if s != [] {
      KeepMembers(s[1..], out);
      assert s == [s[0]] + s[1..];
    }
  }

  /** Position of the first occurrence of `x`. */
  function IndexOf<T(==,!new)>(s: seq<T>, x: T): (k: nat)
    requires x in s
    ensures k < |s| && s[k] == x
    ensures forall j :: 0 <= j < k ==> s[j] != x
  {
    if s[0] == x then 0 else 1 + IndexOf(s[1..], x)
  }

  /** The first element of `s` that is in `marked`, as `querySelector` finds it. */
  function FirstIn<T(==,!new)>(s: seq<T>, marked: set<T>): (r: Option<T>)
    ensures r.None? <==> forall x :: x in s ==> x !in marked
    ensures r.Some? ==> r.value in s && r.value in marked
    ensures r.Some? ==> forall j :: 0 <= j < IndexOf(s, r.value) ==> s[j] !in marked
  {
    if s == [] then None
    else if s[0] in marked then Some(s[0])
    else
      var r := FirstIn(s[1..], marked);
      assert r.Some? ==> s[0] != r.value && IndexOf(s, r.value) == 1 + IndexOf(s[1..], r.value);
      r
  }

  /** `container.appendChild(x)` for a child `x` of the container. */
  function MoveToEnd<T(==,!new)>(s: seq<T>, x: T): seq<T>
  {
    Keep(s, {x}) + [x]
  }

  /** `container.insertBefore(x, anchor)` for two different children. */
  function MoveBefore<T(==,!new)>(s: seq<T>, x: T, anchor: T): seq<T>
    requires anchor in s && anchor != x
  {
    var rest := Keep(s, {x});
    KeepMembers(s, {x});
    var k := IndexOf(rest, anchor);
    rest[..k] + [x] + rest[k..]
  }

  /** Moving a child to the end keeps the same set of children. */
  lemma MoveToEndElems<T(!new)>(s: seq<T>, x: T)
    requires x in s
    ensures Elems(MoveToEnd(s, x)) == Elems(s)
  {
    KeepMembers(s, {x});
  }

  lemma DistinctTail<T(!new)>(s: seq<T>)
    requires s != [] && Distinct(s)
    ensures Distinct(s[1..]) && s[0] !in s[1..]
  {
    assert s == [s[0]] + s[1..];
    assert multiset(s) == multiset{s[0]} + multiset(s[1..]);
    forall x ensures multiset(s[1..])[x] <= 1 {
      assert multiset(s)[x] <= 1;
    }
    assert multiset(s)[s[0]] <= 1;
  }

  lemma {:induction false} KeepAppend<T(!new)>(a: seq<T>, b: seq<T>, out: set<T>)
    ensures Keep(a + b, out) == Keep(a, out) + Keep(b, out)
  {
    if a != [] {
      var head := if a[0] in out then [] else [a[0]];
      assert (a + b)[0] == a[0] && (a + b)[1..] == a[1..] + b;
      assert Keep(a + b, out) == head + Keep(a[1..] + b, out);
      KeepAppend(a[1..], b, out);
      assert Keep(a, out) == head + Keep(a[1..], out);
    } else {
      assert a + b == b;
    }
  }

  /** Filtering out exactly the elements of the prefix `a` leaves the suffix `b`. */
  lemma KeepPrefix<T(!new)>(a: seq<T>, b: seq<T>, out: set<T>)
    requires forall x :: x in a ==> x in out
    requires forall x :: x in b ==> x !in out
    ensures Keep(a + b, out) == b
  {
    KeepAppend(a, b, out);
    KeepEverything(a, out);
    KeepNothing(b, out);
  }

  /** Keep only looks at the members of `out` that occur in `s`. */
  lemma {:induction false} KeepSameOn<T(!new)>(s: seq<T>, out1: set<T>, out2: set<T>)
    requires forall x :: x in s ==> (x in out1 <==> x in out2)
    ensures Keep(s, out1) == Keep(s, out2)
  {
    if s != [] {
      KeepSameOn(s[1..], out1, out2);
    }
  }

  lemma KeepNothing<T(!new)>(s: seq<T>, out: set<T>)
    requires forall x :: x in s ==> x !in out
    ensures Keep(s, out) == s
  {
    KeepSameOn(s, out, {});
    KeepEmpty(s);
  }

  lemma {:induction false} KeepEmpty<T(!new)>(s: seq<T>)
    ensures Keep(s, {}) == s
  {
    if s != [] {
      KeepEmpty(s[1..]);
      assert s == [s[0]] + s[1..];
    }
  }

  lemma KeepEverything<T(!new)>(s: seq<T>, out: set<T>)
    requires forall x :: x in s ==> x in out
    ensures Keep(s, out) == []
  {
    KeepMembers(s, out);
  }

  lemma {:induction false} KeepKeep<T(!new)>(s: seq<T>, out1: set<T>, out2: set<T>)
    ensures Keep(Keep(s, out1), out2) == Keep(s, out1 + out2)
  {
    if s != [] {
      var head := if s[0] in out1 then [] else [s[0]];
      KeepAppend(head, Keep(s[1..], out1), out2);
      KeepKeep(s[1..], out1, out2);
    }
  }

  lemma {:induction false} KeepCount<T(!new)>(s: seq<T>, out: set<T>, x: T)
    ensures multiset(Keep(s, out))[x] == if x in out then 0 else multiset(s)[x]
  {
    if s != [] {
      assert s == [s[0]] + s[1..];
      KeepCount(s[1..], out, x);
    }
  }

  /** Filtering after a move to the end is filtering first, with the moved element last. */
  lemma MoveToEndKeep<T(!new)>(s: seq<T>, x: T, out: set<T>)
    ensures Keep(MoveToEnd(s, x), out) == Keep(s, {x} + out) + Keep([x], out)
  {
    KeepAppend(Keep(s, {x}), [x], out);
    KeepKeep(s, {x}, out);
  }

  /** `MoveToEndKeep` followed by a common suffix `tail`. */
  lemma MoveToEndKeepThen<T(!new)>(s: seq<T>, x: T, out: set<T>, tail: seq<T>)
    ensures Keep(MoveToEnd(s, x), out) + tail == Keep(s, {x} + out) + (Keep([x], out) + tail)
  {
    MoveToEndKeep(s, x, out);
  }

  /** Moving `x` to the end of `c` and then to the front of `u` is the same as filtering by both. */
  lemma MoveToEndThenFront<T(!new)>(c: seq<T>, x: T, u: seq<T>)
    requires x !in u
    ensures Keep(MoveToEnd(c, x), Elems(u)) + u == Keep(c, Elems([x] + u)) + ([x] + u)
  {
    var e := Elems(u);
    MoveToEndKeep(c, x, e);
    KeepNothing([x], e);
    assert Elems([x] + u) == {x} + e;
  }

  lemma MoveToEndPermutes<T(!new)>(s: seq<T>, x: T)
    requires Distinct(s) && x in s
    ensures multiset(MoveToEnd(s, x)) == multiset(s)
    ensures Distinct(MoveToEnd(s, x))
  {
    forall y ensures multiset(MoveToEnd(s, x))[y] == multiset(s)[y] {
      KeepCount(s, {x}, y);
      assert multiset(s)[x] == 1 by { assert multiset(s)[x] <= 1; }
    }
    assert multiset(MoveToEnd(s, x)) == multiset(s);
  }

  /** `MoveToEndPermutes` and `MoveToEndElems` together, for one `appendChild` step. */
  lemma MoveToEndStep<T(!new)>(s: seq<T>, x: T)
    requires Distinct(s) && x in s
    ensures Distinct(MoveToEnd(s, x))
    ensures multiset(MoveToEnd(s, x)) == multiset(s)
    ensures Elems(MoveToEnd(s, x)) == Elems(s)
  {
    MoveToEndPermutes(s, x);
    MoveToEndElems(s, x);
  }

  /** Two permutations of each other have the same elements. */
  lemma PermutationElems<T(!new)>(a: seq<T>, b: seq<T>)
    requires multiset(a) == multiset(b)
    ensures Elems(a) == Elems(b)
  {
    forall x ensures x in a <==> x in b {
      assert x in a <==> x in multiset(a);
      assert x in b <==> x in multiset(b);
    }
  }

  /** In a sequence without repeats, different indices hold different elements. */
  lemma DistinctIndex<T(!new)>(s: seq<T>, i: nat, j: nat)
    requires Distinct(s) && i < j < |s|
    ensures s[i] != s[j]
  {
    var x := s[i];
    assert s == s[..i] + [x] + s[i + 1..j] + [s[j]] + s[j + 1..];
    assert multiset(s)[x] <= 1;
  }

  /** After `MoveToEnd` the moved child is last and the others keep their order. */
  lemma MoveToEndPlaces<T(!new)>(s: seq<T>, x: T)
    ensures |MoveToEnd(s, x)| > 0 && MoveToEnd(s, x)[|MoveToEnd(s, x)| - 1] == x
    ensures Keep(MoveToEnd(s, x), {x}) == Keep(s, {x})
  {
    KeepAppend(Keep(s, {x}), [x], {x});
    KeepKeep(s, {x}, {x});
    assert {x} + {x} == {x};
    assert Keep([x], {x}) == [];
  }

  /** `insertBefore` keeps the same children. */
  lemma MoveBeforePermutes<T(!new)>(s: seq<T>, x: T, anchor: T)
    requires Distinct(s) && x in s && anchor in s && anchor != x
    ensures multiset(MoveBefore(s, x, anchor)) == multiset(s)
    ensures Distinct(MoveBefore(s, x, anchor))
  {
    var rest := Keep(s, {x});
    KeepMembers(s, {x});
    var k := IndexOf(rest, anchor);
    assert rest == rest[..k] + rest[k..];
    MoveToEndPermutes(s, x);
    calc {
      multiset(MoveBefore(s, x, anchor));
      multiset(rest[..k]) + multiset{x} + multiset(rest[k..]);
      multiset(rest) + multiset{x};
      multiset(MoveToEnd(s, x));
    }
  }

  /**
   * After `insertBefore` the moved child stands immediately before the anchor
   * and the other children keep their relative order.
   */
  lemma MoveBeforePlaces<T(!new)>(s: seq<T>, x: T, anchor: T)
    requires anchor in s && anchor != x
    ensures anchor in MoveBefore(s, x, anchor)
    ensures var r := MoveBefore(s, x, anchor);
      var k := IndexOf(r, anchor); k > 0 && r[k - 1] == x
    ensures Keep(MoveBefore(s, x, anchor), {x}) == Keep(s, {x})
  {
    var rest := Keep(s, {x});
    KeepMembers(s, {x});
    var k := IndexOf(rest, anchor);
    InsertAt(rest, k, x, anchor);
  }

  lemma InsertAt<T(!new)>(rest: seq<T>, k: nat, x: T, anchor: T)
    requires k < |rest| && rest[k] == anchor && anchor != x && x !in rest
    requires forall j :: 0 <= j < k ==> rest[j] != anchor
    ensures var r := rest[..k] + [x] + rest[k..];
      anchor in r && IndexOf(r, anchor) == k + 1 && r[k] == x && Keep(r, {x}) == rest
  {
    var r := rest[..k] + [x] + rest[k..];
    assert r[k + 1] == anchor;
    forall j | 0 <= j < k + 1 ensures r[j] != anchor {
      if j < k { assert r[j] == rest[j]; }
    }
    IndexOfIs(r, anchor, k + 1);
    KeepInserted(rest[..k], x, rest[k..]);
    assert rest == rest[..k] + rest[k..];
  }

  lemma KeepInserted<T(!new)>(a: seq<T>, x: T, b: seq<T>)
    requires x !in a && x !in b
    ensures Keep(a + [x] + b, {x}) == a + b
  {
    KeepAppend(a + [x], b, {x});
    KeepAppendOne(a, x);
    KeepNothing(b, {x});
  }

  lemma KeepAppendOne<T(!new)>(a: seq<T>, x: T)
    requires x !in a
    ensures Keep(a + [x], {x}) == a
  {
    KeepAppend(a, [x], {x});
    KeepNothing(a, {x});
    assert Keep([x], {x}) == [] by {
      assert [x][0] == x && [x][1..] == [];
    }
  }

  lemma IndexOfIs<T(!new)>(s: seq<T>, x: T, k: nat)
    requires k < |s| && s[k] == x
    requires forall j :: 0 <= j < k ==> s[j] != x
    ensures IndexOf(s, x) == k
  {
    var i := IndexOf(s, x);
    assert !(i < k) && !(k < i);
  }

  /** A prefix of `b` is a prefix of anything `b` is extended to. */
  lemma PrefixExtends<T>(a: seq<T>, b: seq<T>, c: seq<T>)
    requires a <= b
    ensures a <= b + c
  {
    assert (b + c)[..|a|] == b[..|a|];
  }

  lemma PrefixTransitive<T>(a: seq<T>, b: seq<T>, c: seq<T>)
    requires a <= b && b <= c
    ensures a <= c
  {
    assert c[..|a|] == b[..|a|];
  }
}
