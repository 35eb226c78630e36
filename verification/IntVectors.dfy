/**
The enclave's lists of document ids and their set operations.

A list has a fixed capacity, and pushing to a full list is silently ignored. The set
operations count membership in a byte buffer, compute the size of the result before
they allocate it, and then push; they are exact because that size is.
*/
module IntVectors {

  newtype Byte = x: int | 0 <= x < 256

  class VecInt {
    var elems: array<int>
    var maxSize: nat
    var counter: nat

    ghost predicate Valid()
      reads this
    {
      elems.Length == maxSize && counter <= maxSize
    }

    ghost function Contents(): (s: seq<int>)
      requires Valid()
      reads this, elems
    {
      elems[..counter]
    }

    /** vi_init */
    constructor (maxSize: nat)
      ensures Valid() && fresh(elems) && this.maxSize == maxSize && Contents() == []
    {
      this.counter := 0;
      this.maxSize := maxSize;
      this.elems := new int[maxSize];
    }

    /** vi_push_back: a full list drops the element. */
    method PushBack(e: int)
      requires Valid()
      modifies this`counter, elems
      ensures Valid()
      ensures Contents() == if old(counter) < maxSize then old(Contents()) + [e] else old(Contents())
    {
      if counter < maxSize {
        elems[counter] := e;
        counter := counter + 1;
      }
    }
  }

  // ------------------------------------------------------------------ specification

  predicate Distinct(s: seq<int>) {
    forall i, j :: 0 <= i < j < |s| ==> s[i] != s[j]
  }

  predicate InRange(s: seq<int>, n: nat) {
    forall i :: 0 <= i < |s| ==> 0 <= s[i] < n
  }

  predicate Increasing(s: seq<int>) {
    forall i, j :: 0 <= i < j < |s| ==> s[i] < s[j]
  }

  function ToSet(s: seq<int>): set<int> {
    set x | x in s
  }

  /** The ids 0 to n - 1. */
  function Range(n: nat): set<int> {
    if n == 0 then {} else Range(n - 1) + {n - 1}
  }

  lemma {:induction false} RangeIs(n: nat)
    ensures |Range(n)| == n && forall x :: x in Range(n) <==> 0 <= x < n
  {
    if n == 0 {
    } else {
      RangeIs(n - 1);
    }
  }

  /** The elements of s below n in increasing order. */
  function Select(s: set<int>, n: nat): seq<int> {
    if n == 0 then [] else Select(s, n - 1) + if n - 1 in s then [n - 1] else []
  }

  function Below(s: set<int>, n: nat): set<int> {
    set x | x in s && 0 <= x < n
  }

  lemma BelowStep(s: set<int>, n: nat)
    requires n > 0
    ensures Below(s, n) == if n - 1 in s then Below(s, n - 1) + {n - 1} else Below(s, n - 1)
  {
  }

  lemma AppendGreater(s: seq<int>, x: nat)
    requires Increasing(s) && InRange(s, x)
    ensures Increasing(s + [x]) && InRange(s + [x], x + 1) && InRange(s, x + 1)
    ensures ToSet(s + [x]) == ToSet(s) + {x}
  {
  }

  /** Select lists exactly the elements in range, in strictly increasing order. */
  lemma {:induction false} SelectIs(s: set<int>, n: nat)
    ensures Increasing(Select(s, n)) && InRange(Select(s, n), n) && ToSet(Select(s, n)) == Below(s, n)
    decreases n
  {
    hide Below, Increasing, InRange, ToSet;
    if n == 0 {
      BelowZero(s);
    } else {
      SelectIs(s, n - 1);
      BelowStep(s, n);
      AppendGreater(Select(s, n - 1), n - 1);
      assert Select(s, n - 1) + [] == Select(s, n - 1);
    }
  }

  lemma BelowZero(s: set<int>)
    ensures Below(s, 0) == {} && Increasing([]) && InRange([], 0) && ToSet([]) == {}
  {
  }

  lemma LastIsGreatest(s: seq<int>)
    requires Increasing(s) && |s| > 0
    ensures var m := |s| - 1;
            && s[m] in ToSet(s) && (forall x :: x in ToSet(s) ==> x <= s[m])
            && ToSet(s[..m]) == ToSet(s) - {s[m]} && Increasing(s[..m]) && s == s[..m] + [s[m]]
  {
  }

  /** There is only one increasing list with given elements. */
  lemma {:induction false} IncreasingUnique(s: seq<int>, t: seq<int>)
    requires Increasing(s) && Increasing(t) && ToSet(s) == ToSet(t)
    ensures s == t
    decreases |s|
  {
    hide ToSet, Increasing;
    if |s| == 0 || |t| == 0 {
      EmptySet(s);
      EmptySet(t);
    } else {
      LastIsGreatest(s);
      LastIsGreatest(t);
      var x, y := s[|s| - 1], t[|t| - 1];
      assert x in ToSet(t) && x <= y;
      assert y in ToSet(s) && y <= x;
      IncreasingUnique(s[..|s| - 1], t[..|t| - 1]);
    }
  }

  lemma EmptySet(s: seq<int>)
    ensures ToSet(s) == {} <==> |s| == 0
  {
    if |s| > 0 {
      assert s[0] in ToSet(s);
    }
  }

  lemma {:induction false} DistinctSize(s: seq<int>)
    requires Distinct(s)
    ensures |ToSet(s)| == |s|
    decreases |s|
  {
    if |s| == 0 {
      assert ToSet(s) == {};
    } else {
      var n := |s| - 1;
      DistinctSize(s[..n]);
      assert s == s[..n] + [s[n]];
      assert ToSet(s) == ToSet(s[..n]) + {s[n]};
    }
  }

  lemma IncreasingIsDistinct(s: seq<int>)
    requires Increasing(s)
    ensures Distinct(s)
  {
  }

  lemma {:induction false} SelectSize(s: set<int>, n: nat)
    ensures |Select(s, n)| <= |s|
    ensures (forall x :: x in s ==> 0 <= x < n) ==> |Select(s, n)| == |s|
  {
    SelectIs(s, n);
    IncreasingIsDistinct(Select(s, n));
    DistinctSize(Select(s, n));
    var chosen := ToSet(Select(s, n));
    assert chosen <= s;
    SubsetSize(chosen, s);
    if forall x :: x in s ==> 0 <= x < n {
      assert chosen == s;
    }
  }

  lemma SubsetSize(a: set<int>, b: set<int>)
    requires a <= b
    ensures |a| <= |b|
  {
    assert b == a + (b - a);
  }

  lemma ToSetSnoc(s: seq<int>, i: nat)
    requires i < |s|
    ensures ToSet(s[..i + 1]) == ToSet(s[..i]) + {s[i]}
  {
    assert s[..i + 1] == s[..i] + [s[i]];
  }

  // ------------------------------------------------------------- the byte buffer

  /** The buffer counts 1 for every member of `ones`, 2 for every member of `twos`, 0 elsewhere below n. */
  ghost predicate Counts(count: array<Byte>, n: nat, ones: set<int>, twos: set<int>)
    requires n <= count.Length
    reads count
  {
    forall x :: 0 <= x < n ==> count[x] == if x in twos then 2 else if x in ones then 1 else 0
  }

  /** memset(count, 0, n) */
  method Clear(count: array<Byte>, n: nat)
    requires n <= count.Length
    modifies count
    ensures Counts(count, n, {}, {})
  {
    for i := 0 to n
      invariant forall x :: 0 <= x < i ==> count[x] == 0
    {
      count[i] := 0;
    }
  }

  /** count[x] = 1 */
  method SetOne(count: array<Byte>, n: nat, x: int, ghost ones: set<int>)
    requires n <= count.Length && 0 <= x < n && Counts(count, n, ones, {})
    modifies count
    ensures Counts(count, n, ones + {x}, {})
  {
    count[x] := 1;
  }

  /** Marks the elements of a with 1. */
  method Mark(a: seq<int>, count: array<Byte>, n: nat)
    requires n <= count.Length && InRange(a, n) && Counts(count, n, {}, {})
    modifies count
    ensures Counts(count, n, ToSet(a), {})
  {
    hide ToSet, Counts;
    StartCounting(a);
    for i := 0 to |a|
      invariant Counts(count, n, ToSet(a[..i]), {})
    {
      ToSetSnoc(a, i);
      SetOne(count, n, a[i], ToSet(a[..i]));
    }
    assert a[..|a|] == a;
  }

  lemma GrowSet(s: set<int>, x: int)
    ensures |s + {x}| == |s| + if x in s then 0 else 1
  {
    if x in s {
      assert s + {x} == s;
    }
  }

  lemma RoomFor(s: set<int>, i: nat, capacity: nat)
    requires |s| <= capacity && i in s
    ensures |Select(s, i)| < capacity
  {
    SelectSize(s, i + 1);
    assert Select(s, i + 1) == Select(s, i) + [i];
  }

  lemma AllInRange(a: seq<int>, n: nat)
    requires InRange(a, n)
    ensures forall x :: x in ToSet(a) ==> 0 <= x < n
  {
  }

  // -------------------------------------------------------------- the operations

  /** Counts the elements of b on top of those of a; `ops` is how often a count becomes 1. */
  method CountUnion(a: seq<int>, b: seq<int>, count: array<Byte>, n: nat) returns (ops: nat)
    requires n <= count.Length && InRange(a, n) && InRange(b, n) && Distinct(a) && Distinct(b)
    modifies count
    ensures Counts(count, n, ToSet(a) + ToSet(b), ToSet(a) * ToSet(b))
    ensures ops == |ToSet(a) + ToSet(b)|
  {
    Clear(count, n);
    ops := |a|;
    Mark(a, count, n);
    DistinctSize(a);
    hide ToSet, Distinct, Counts;
    ghost var A := ToSet(a);
    StartCounting(b);
    assert A + ToSet(b[..0]) == A && A * ToSet(b[..0]) == {};
    for i := 0 to |b|
      invariant Counts(count, n, A + ToSet(b[..i]), A * ToSet(b[..i]))
      invariant ops == |A + ToSet(b[..i])|
    {
      ghost var seen := ToSet(b[..i]);
      ToSetSnoc(b, i);
      NotSeen(b, i);
      GrowSet(A + seen, b[i]);
      CountStep(A, seen, b[i]);
      var c := Increment(count, n, b[i], A + seen, A * seen);
      if c == 1 {
        ops := ops + 1;
      }
    }
    assert b[..|b|] == b;
  }

  /** The same for the intersection; `ops` is how often a count becomes 2. */
  method CountIntersection(a: seq<int>, b: seq<int>, count: array<Byte>, n: nat) returns (ops: nat)
    requires n <= count.Length && InRange(a, n) && InRange(b, n) && Distinct(a) && Distinct(b)
    modifies count
    ensures Counts(count, n, ToSet(a) + ToSet(b), ToSet(a) * ToSet(b))
    ensures ops == |ToSet(a) * ToSet(b)|
  {
    Clear(count, n);
    ops := 0;
    Mark(a, count, n);
    hide ToSet, Distinct, Counts;
    ghost var A := ToSet(a);
    StartCounting(b);
    assert A + ToSet(b[..0]) == A && A * ToSet(b[..0]) == {};
    for i := 0 to |b|
      invariant Counts(count, n, A + ToSet(b[..i]), A * ToSet(b[..i]))
      invariant ops == |A * ToSet(b[..i])|
    {
      ghost var seen := ToSet(b[..i]);
      ToSetSnoc(b, i);
      NotSeen(b, i);
      GrowSet(A * seen, b[i]);
      CountStep(A, seen, b[i]);
      var c := Increment(count, n, b[i], A + seen, A * seen);
      if c == 2 {
        ops := ops + 1;
      }
    }
    assert b[..|b|] == b;
  }

  /** count[x]++ for an id that was counted at most once, and the new count. */
  method Increment(count: array<Byte>, n: nat, x: int, ghost ones: set<int>, ghost twos: set<int>) returns (c: Byte)
    requires n <= count.Length && 0 <= x < n && Counts(count, n, ones, twos) && x !in twos
    modifies count
    ensures Counts(count, n, ones + {x}, if x in ones then twos + {x} else twos)
    ensures c == if x in ones then 2 else 1
  {
    count[x] := count[x] + 1;
    c := count[x];
  }

  lemma CountStep(a: set<int>, seen: set<int>, x: int)
    requires x !in seen
    ensures a + (seen + {x}) == a + seen + {x}
    ensures a * (seen + {x}) == if x in a then a * seen + {x} else a * seen
    ensures x in a + seen <==> x in a
  {
  }

  lemma StartCounting(b: seq<int>)
    ensures ToSet(b[..0]) == {}
  {
  }

  /** Pushes the ids whose count passes the test into a list made for `capacity` of them. */
  method Collect(count: array<Byte>, n: nat, capacity: nat, test: Byte -> bool, ghost s: set<int>) returns (v: VecInt)
    requires n <= count.Length && capacity == |s|
    requires forall x :: 0 <= x < n ==> (test(count[x]) <==> x in s)
    requires forall x :: x in s ==> 0 <= x < n
    ensures fresh(v) && fresh(v.elems) && v.Valid()
    ensures v.Contents() == Select(s, n) && v.counter == v.maxSize
  {
    v := new VecInt(capacity);
    for i := 0 to n
      invariant fresh(v) && fresh(v.elems) && v.Valid() && v.maxSize == capacity
      invariant v.Contents() == Select(s, i)
    {
      if test(count[i]) {
        RoomFor(s, i, capacity);
        v.PushBack(i);
      }
    }
    SelectSize(s, n);
  }

  /** vi_vec_union */
  method VecUnion(a: seq<int>, b: seq<int>, count: array<Byte>, n: nat) returns (v: VecInt)
    requires n <= count.Length && InRange(a, n) && InRange(b, n) && Distinct(a) && Distinct(b)
    modifies count
    ensures fresh(v) && fresh(v.elems) && v.Valid()
    ensures v.Contents() == Select(ToSet(a) + ToSet(b), n)
    ensures v.counter == v.maxSize
  {
    var ops := CountUnion(a, b, count, n);
    AllInRange(a, n);
    AllInRange(b, n);
    v := Collect(count, n, ops, (c: Byte) => c > 0, ToSet(a) + ToSet(b));
  }

  /** vi_vec_intersection */
  method VecIntersection(a: seq<int>, b: seq<int>, count: array<Byte>, n: nat) returns (v: VecInt)
    requires n <= count.Length && InRange(a, n) && InRange(b, n) && Distinct(a) && Distinct(b)
    modifies count
    ensures fresh(v) && fresh(v.elems) && v.Valid()
    ensures v.Contents() == Select(ToSet(a) * ToSet(b), n)
    ensures v.counter == v.maxSize
  {
    var ops := CountIntersection(a, b, count, n);
    AllInRange(a, n);
    v := Collect(count, n, ops, (c: Byte) => c == 2, ToSet(a) * ToSet(b));
  }

  /** get_not_docs: all ids below n except those of `negate`. */
  method NotDocs(n: nat, negate: seq<int>, count: array<Byte>) returns (v: VecInt)
    requires n <= count.Length && InRange(negate, n) && Distinct(negate)
    modifies count
    ensures fresh(v) && fresh(v.elems) && v.Valid()
    ensures v.Contents() == Select(Range(n) - ToSet(negate), n)
    ensures v.counter == v.maxSize
  {
    hide ToSet, Distinct, Range, Counts;
    var nops := 0;
    Clear(count, n);
    StartCounting(negate);
    for i := 0 to |negate|
      invariant Counts(count, n, ToSet(negate[..i]), {})
      invariant nops == i
    {
      ToSetSnoc(negate, i);
      SetOne(count, n, negate[i], ToSet(negate[..i]));
      nops := nops + 1;
    }
    assert negate[..|negate|] == negate;
    ComplementSize(negate, n);
    ComplementCounts(negate, count, n);
    v := Collect(count, n, n - nops, (c: Byte) => c == 0, Range(n) - ToSet(negate));
  }

  lemma {:induction false} DuplicatesShrink(s: seq<int>)
    requires !Distinct(s)
    ensures |ToSet(s)| < |s|
    decreases |s|
  {
    var n := |s| - 1;
    var init := s[..n];
    assert s == init + [s[n]];
    assert ToSet(s) == ToSet(init) + {s[n]};
    GrowSet(ToSet(init), s[n]);
    if Distinct(init) {
      DistinctSize(init);
      assert s[n] in ToSet(init);
    } else {
      DuplicatesShrink(init);
    }
  }

  /** The size get_not_docs computes for its result is enough exactly for duplicate-free lists. */
  lemma ComplementFitsExactly(negate: seq<int>, n: nat)
    requires InRange(negate, n)
    ensures |Range(n) - ToSet(negate)| <= n - |negate| <==> Distinct(negate)
  {
    RangeIs(n);
    if Distinct(negate) {
      ComplementSize(negate, n);
    } else {
      DuplicatesShrink(negate);
      var all, out := Range(n), ToSet(negate);
      assert all == (all - out) + out;
    }
  }

  lemma ComplementCounts(negate: seq<int>, count: array<Byte>, n: nat)
    requires n <= count.Length && Counts(count, n, ToSet(negate), {})
    ensures forall x :: 0 <= x < n ==> (count[x] == 0 <==> x in Range(n) - ToSet(negate))
    ensures forall x :: x in Range(n) - ToSet(negate) ==> 0 <= x < n
  {
    RangeIs(n);
  }

  lemma NotSeen(b: seq<int>, i: nat)
    requires Distinct(b) && i < |b|
    ensures b[i] !in ToSet(b[..i])
  {
  }

  lemma ComplementSize(negate: seq<int>, n: nat)
    requires InRange(negate, n) && Distinct(negate)
    ensures |Range(n) - ToSet(negate)| == n - |negate|
  {
    RangeIs(n);
    DistinctSize(negate);
    var all, out := Range(n), ToSet(negate);
    assert all == (all - out) + out;
  }

  /** vi_index_of */
  method IndexOf(v: seq<int>, e: int) returns (index: int)
    ensures -1 <= index < |v|
    ensures index >= 0 ==> v[index] == e && e !in v[..index]
    ensures index == -1 ==> e !in v
  {
    for i := 0 to |v|
      invariant e !in v[..i]
    {
      if v[i] == e {
        return i;
      }
    }
    return -1;
  }
}
