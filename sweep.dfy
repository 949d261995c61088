/** The removal pattern of the projectile loop in src/main.js: a for-of loop over
    an array that splices the current element out when it is doomed. The array
    iterator keeps a numeric index and moves it on after every element, so the
    element that slides into the removed one's place is not visited. */
module Sweep {

  predicate Distinct<T(==)>(s: seq<T>) {
    forall a, b :: 0 <= a < b < |s| ==> s[a] != s[b]
  }

  /** Array.prototype.indexOf: the first position of x in s, or -1. */
  function IndexOf<T(==)>(s: seq<T>, x: T): (r: int)
    ensures -1 <= r < |s|
    ensures r == -1 <==> x !in s
    ensures 0 <= r ==> s[r] == x && forall j :: 0 <= j < r ==> s[j] != x
  {
    if |s| == 0 then -1
    else if s[0] == x then 0
    else var r := IndexOf(s[1..], x); if r == -1 then -1 else r + 1
  }

  /** In a sequence without repeats, the position of an element is where it
      was found. */
  lemma IndexOfDistinct<T>(s: seq<T>, k: nat)
    requires Distinct(s) && k < |s|
    ensures IndexOf(s, s[k]) == k
  {
  }

  /** What the loop leaves in the array when it continues at index i of the
      current array a; doomed is the set of elements that end up with destroy
      set once visited. */
  function Swept<T(==)>(a: seq<T>, i: nat, doomed: set<T>): seq<T>
    decreases |a| - i
  {
    if i >= |a| then a
    else if a[i] in doomed then Swept(a[..i] + a[i + 1..], i + 1, doomed)
    else Swept(a, i + 1, doomed)
  }

  /** The elements that loop visits from index i of a on. */
  function Visited<T(==)>(a: seq<T>, i: nat, doomed: set<T>): set<T>
    decreases |a| - i
  {
    if i >= |a| then {}
    else if a[i] in doomed then {a[i]} + Visited(a[..i] + a[i + 1..], i + 1, doomed)
    else {a[i]} + Visited(a, i + 1, doomed)
  }

  /** The same outcome described on the original array: a doomed element is
      removed and the one after it is passed over. */
  function Survivors<T(==)>(s: seq<T>, doomed: set<T>): (r: seq<T>)
    ensures |r| <= |s|
  {
    if |s| == 0 then []
    else if s[0] in doomed then (if |s| == 1 then [] else [s[1]] + Survivors(s[2..], doomed))
    else [s[0]] + Survivors(s[1..], doomed)
  }

  /** The elements of the original array the loop visits. */
  function Touched<T(==)>(s: seq<T>, doomed: set<T>): set<T>
  {
    if |s| == 0 then {}
    else if s[0] in doomed then {s[0]} + (if |s| == 1 then {} else Touched(s[2..], doomed))
    else {s[0]} + Touched(s[1..], doomed)
  }

  /** The state of the loop over the original array s0 when the current array
      is a, the next index i, and seen the elements visited so far: what the
      loop goes on to do from here ends where the whole loop ends. */
  ghost predicate Midway<T>(a: seq<T>, i: nat, s0: seq<T>, doomed: set<T>, seen: set<T>) {
    && i <= |a| + 1
    && Distinct(a)
    && (forall k :: 0 <= k < |a| ==> a[k] in s0)
    && (forall k :: i <= k < |a| ==> a[k] !in seen)
    && Swept(a, i, doomed) == Swept(s0, 0, doomed)
    && seen + Visited(a, i, doomed) == Visited(s0, 0, doomed)
  }

  /** A loop over a distinct array starts midway at index 0 with nothing seen. */
  lemma MidwayStart<T>(s0: seq<T>, doomed: set<T>)
    requires Distinct(s0)
    ensures Midway(s0, 0, s0, doomed, {})
  {
  }

  /** One step of the loop: the element at i is visited, and removed when it
      is doomed; indexOf finds it at i. */
  lemma MidwayStep<T>(a: seq<T>, i: nat, s0: seq<T>, doomed: set<T>, seen: set<T>)
    requires Midway(a, i, s0, doomed, seen) && i < |a|
    ensures a[i] in s0 && a[i] !in seen && IndexOf(a, a[i]) == i
    ensures a[i] in doomed ==> Midway(a[..i] + a[i + 1..], i + 1, s0, doomed, seen + {a[i]})
    ensures a[i] !in doomed ==> Midway(a, i + 1, s0, doomed, seen + {a[i]})
  {
    IndexOfDistinct(a, i);
    if a[i] in doomed {
      MidwayRemove(a, i, s0, doomed, seen);
    }
  }

  /** The step on an element the loop splices out. */
  lemma MidwayRemove<T>(a: seq<T>, i: nat, s0: seq<T>, doomed: set<T>, seen: set<T>)
    requires Midway(a, i, s0, doomed, seen) && i < |a| && a[i] in doomed
    ensures Midway(a[..i] + a[i + 1..], i + 1, s0, doomed, seen + {a[i]})
  {
    var b := a[..i] + a[i + 1..];
    assert forall k :: 0 <= k < i ==> b[k] == a[k];
    assert forall k :: i <= k < |b| ==> b[k] == a[k + 1];
    DistinctRemove(a, i);
    assert forall k :: i + 1 <= k < |b| ==> b[k] !in seen + {a[i]} by {
      forall k | i + 1 <= k < |b| ensures b[k] !in seen + {a[i]} {
        assert b[k] == a[k + 1];
      }
    }
  }

  /** Splicing one element out of a sequence without repeats leaves one. */
  lemma DistinctRemove<T>(a: seq<T>, i: nat)
    requires Distinct(a) && i < |a|
    ensures Distinct(a[..i] + a[i + 1..])
  {
    var b := a[..i] + a[i + 1..];
    forall x, y | 0 <= x < y < |b| ensures b[x] != b[y] {
      var x', y' := if x < i then x else x + 1, if y < i then y else y + 1;
      assert b[x] == a[x'] && b[y] == a[y'];
    }
  }

  /** When the loop ends, the array is what the whole loop leaves and seen is
      every element it visited. */
  lemma MidwayEnd<T>(a: seq<T>, i: nat, s0: seq<T>, doomed: set<T>, seen: set<T>)
    requires Midway(a, i, s0, doomed, seen) && |a| <= i
    ensures a == Survivors(s0, doomed) && seen == Touched(s0, doomed)
  {
    SweptIsSurvivors([], s0, doomed);
    VisitedIsTouched([], s0, doomed);
    assert [] + s0 == s0;
  }

  /** The loop, continued after an untouched prefix p, leaves what Survivors
      says of the rest s. */
  lemma {:induction false} SweptIsSurvivors<T>(p: seq<T>, s: seq<T>, doomed: set<T>)
    ensures Swept(p + s, |p|, doomed) == p + Survivors(s, doomed)
    decreases |s|
  {
    if |s| == 0 {
      assert p + s == p;
    } else if s[0] !in doomed {
      var p' := p + [s[0]];
      KeepStep(p, s, doomed);
      SweptIsSurvivors(p', s[1..], doomed);
      assert p' + Survivors(s[1..], doomed) == p + ([s[0]] + Survivors(s[1..], doomed));
    } else if |s| == 1 {
      RemoveStep(p, s, doomed);
      assert p + s[1..] == p;
    } else {
      var p' := p + [s[1]];
      RemoveStep(p, s, doomed);
      assert p + s[1..] == p' + s[2..];
      SweptIsSurvivors(p', s[2..], doomed);
      assert p' + Survivors(s[2..], doomed) == p + ([s[1]] + Survivors(s[2..], doomed));
    }
  }

  /** One step of the loop on an element it keeps. */
  lemma KeepStep<T>(p: seq<T>, s: seq<T>, doomed: set<T>)
    requires 0 < |s| && s[0] !in doomed
    ensures Swept(p + s, |p|, doomed) == Swept((p + [s[0]]) + s[1..], |p| + 1, doomed)
  {
    assert (p + s)[|p|] == s[0];
    SweptKeeps(p + s, |p|, doomed);
    ConsSplit(p, s);
  }

  lemma ConsSplit<T>(p: seq<T>, s: seq<T>)
    requires 0 < |s|
    ensures p + s == (p + [s[0]]) + s[1..]
  {
  }

  lemma SweptKeeps<T>(a: seq<T>, i: nat, doomed: set<T>)
    requires i < |a| && a[i] !in doomed
    ensures Swept(a, i, doomed) == Swept(a, i + 1, doomed)
  {
  }

  /** One step of the loop on an element it removes. */
  lemma RemoveStep<T>(p: seq<T>, s: seq<T>, doomed: set<T>)
    requires 0 < |s| && s[0] in doomed
    ensures Swept(p + s, |p|, doomed) == Swept(p + s[1..], |p| + 1, doomed)
  {
    var a := p + s;
    assert a[|p|] == s[0];
    assert a[..|p|] + a[|p| + 1..] == p + s[1..];
  }

  /** The loop, continued after a prefix p, visits what Touched says of the
      rest s. */
  lemma {:induction false} VisitedIsTouched<T>(p: seq<T>, s: seq<T>, doomed: set<T>)
    ensures Visited(p + s, |p|, doomed) == Touched(s, doomed)
    decreases |s|
  {
    var a := p + s;
    if |s| == 0 {
    } else {
      assert a[|p|] == s[0];
      if s[0] in doomed {
        var b := a[..|p|] + a[|p| + 1..];
        assert b == p + s[1..];
        assert Visited(a, |p|, doomed) == {s[0]} + Visited(b, |p| + 1, doomed);
        if |s| == 1 {
          assert b == p;
        } else {
          var p' := p + [s[1]];
          assert b == p' + s[2..];
          VisitedIsTouched(p', s[2..], doomed);
        }
      } else {
        var p' := p + [s[0]];
        assert a == p' + s[1..];
        assert Visited(a, |p|, doomed) == {s[0]} + Visited(a, |p'|, doomed);
        VisitedIsTouched(p', s[1..], doomed);
      }
    }
  }

  /** Only elements of s are visited. */
  lemma {:induction false} TouchedWithin<T>(s: seq<T>, doomed: set<T>, x: T)
    ensures x in Touched(s, doomed) ==> x in s
  {
    if |s| > 1 {
      var skip := if s[0] in doomed then 2 else 1;
      TouchedWithin(s[skip..], doomed, x);
      assert Touched(s, doomed) == {s[0]} + Touched(s[skip..], doomed);
      if x == s[0] {
        assert s[0] in s;
      } else if x in s[skip..] {
        var j :| 0 <= j < |s| - skip && s[skip..][j] == x;
        assert s[j + skip] == x;
      }
    } else if |s| == 1 {
      assert |s[1..]| == 0;
      assert Touched(s, doomed) == {s[0]};
    }
  }

  /** An element of a distinct sequence does not occur after its position. */
  lemma NotLater<T>(s: seq<T>, k: nat, from: nat)
    requires Distinct(s) && k < from <= |s|
    ensures s[k] !in s[from..]
  {
    forall j | 0 <= j < |s| - from ensures s[from..][j] != s[k] {
      assert s[from..][j] == s[j + from];
    }
  }

  /** The elements of s that are not in out, in their original order. */
  function Without<T(==)>(s: seq<T>, out: set<T>): (r: seq<T>)
    ensures forall j :: 0 <= j < |r| ==> r[j] in s && r[j] !in out
    ensures forall j :: 0 <= j < |s| && s[j] !in out ==> s[j] in r
  {
    if |s| == 0 then [] else (if s[0] in out then [] else [s[0]]) + Without(s[1..], out)
  }

  /** Without depends only on which elements of s are left out. */
  lemma {:induction false} WithoutAgrees<T>(s: seq<T>, a: set<T>, b: set<T>)
    requires forall x :: x in s ==> (x in a <==> x in b)
    ensures Without(s, a) == Without(s, b)
  {
    if |s| > 0 {
      WithoutAgrees(s[1..], a, b);
    }
  }

  /** The survivors keep their relative order: they are the original array with
      exactly the visited doomed elements taken out. */
  lemma {:induction false} SurvivorsKeepOrder<T>(s: seq<T>, doomed: set<T>)
    requires Distinct(s)
    ensures Survivors(s, doomed) == Without(s, Touched(s, doomed) * doomed)
  {
    if |s| == 0 {
    } else if s[0] in doomed {
      if |s| == 1 {
      } else {
        var rest := s[2..];
        var t := Touched(rest, doomed);
        assert Distinct(rest);
        SurvivorsKeepOrder(rest, doomed);
        NotLater(s, 0, 2);
        NotLater(s, 1, 2);
        TouchedWithin(rest, doomed, s[1]);
        var out := ({s[0]} + t) * doomed;
        WithoutAgrees(rest, out, t * doomed);
        assert s[1] !in out;
        assert s == [s[0]] + ([s[1]] + rest);
        assert Without(s, out) == [s[1]] + Without(rest, out) by {
          assert s[1..] == [s[1]] + rest;
          assert Without(s, out) == Without(s[1..], out);
          assert (s[1..])[1..] == rest;
        }
      }
    } else {
      var rest := s[1..];
      var t := Touched(rest, doomed);
      assert Distinct(rest);
      SurvivorsKeepOrder(rest, doomed);
      NotLater(s, 0, 1);
      var out := ({s[0]} + t) * doomed;
      WithoutAgrees(rest, out, t * doomed);
    }
  }

  /** Whatever is taken out was visited and doomed, and every visited doomed
      element is taken out. */
  lemma RemovedExactly<T>(s: seq<T>, doomed: set<T>, x: T)
    requires Distinct(s) && x in s
    ensures x in Survivors(s, doomed) <==> !(x in Touched(s, doomed) && x in doomed)
  {
    SurvivorsKeepOrder(s, doomed);
  }

  /** The element just after a removed one is not visited in that pass. */
  lemma {:induction false} SkipsNextAfterRemoval<T>(s: seq<T>, doomed: set<T>, k: nat)
    requires Distinct(s) && k + 1 < |s|
    requires s[k] in Touched(s, doomed) && s[k] in doomed
    ensures s[k + 1] !in Touched(s, doomed)
  {
    var rest := if s[0] in doomed then s[2..] else s[1..];
    var skip := if s[0] in doomed then 2 else 1;
    assert s[skip..] == rest;
    assert Distinct(rest);
    NotLater(s, k, k + 1);
    if k + 1 < skip {
      NotLater(s, k + 1, skip);
      TouchedWithin(rest, doomed, s[k + 1]);
    } else if k < skip {
      NotLater(s, k, skip);
      TouchedWithin(rest, doomed, s[k]);
      assert false;
    } else {
      assert s[k] != s[0];
      assert rest[k - skip] == s[k] && rest[k - skip + 1] == s[k + 1];
      SkipsNextAfterRemoval(rest, doomed, k - skip);
      assert s[k + 1] != s[0];
    }
  }

  /** When no two neighbours are both doomed the skip does no harm: every
      doomed element is removed. */
  lemma {:induction false} NoAdjacentDoomed<T>(s: seq<T>, doomed: set<T>)
    requires forall k :: 0 <= k < |s| - 1 ==> !(s[k] in doomed && s[k + 1] in doomed)
    ensures Survivors(s, doomed) == Without(s, doomed)
  {
    if |s| == 0 {
    } else if s[0] in doomed {
      if |s| > 1 {
        assert s[1] !in doomed;
        var rest := s[2..];
        forall k | 0 <= k < |rest| - 1 ensures !(rest[k] in doomed && rest[k + 1] in doomed) {
          assert rest[k] == s[k + 2] && rest[k + 1] == s[k + 3];
        }
        NoAdjacentDoomed(rest, doomed);
        assert s[1..][1..] == rest;
      }
    } else {
      var rest := s[1..];
      forall k | 0 <= k < |rest| - 1 ensures !(rest[k] in doomed && rest[k + 1] in doomed) {
        assert rest[k] == s[k + 1] && rest[k + 1] == s[k + 2];
      }
      NoAdjacentDoomed(rest, doomed);
    }
  }

  /** Two doomed neighbours: the second survives the pass. */
  lemma SecondOfTwoDoomedSurvives<T>(a: T, b: T)
    requires a != b
    ensures Survivors([a, b], {a, b}) == [b]
    ensures Touched([a, b], {a, b}) == {a}
  {
    assert [a, b][2..] == [];
  }

  /** Nothing doomed: all elements are visited and kept. */
  lemma {:induction false} NothingDoomed<T>(s: seq<T>)
    ensures Survivors(s, {}) == s
    ensures Touched(s, {}) == set x | x in s
  {
    if |s| > 0 {
      NothingDoomed(s[1..]);
      assert s == [s[0]] + s[1..];
    }
  }
}
