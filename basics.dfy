/** Option and outcome types, opaque timestamps and coordinates, and the
    sequence operations that the collections of the application rely on. */
module Basics {

  /** A nullable reference or value (`null` is `None`). */
  datatype Option<+T> = None | Some(value: T)

  /** The result of an operation that can throw: `Pass` or the error it threw. */
  datatype Outcome<+E> = Pass | Fail(error: E)

  /** A result that carries a value when no exception was thrown. */
  datatype Result<+T, +E> = Ok(value: T) | Err(error: E)

  /** A `DateTime`, as its count of 100-nanosecond ticks; the clock itself is
      a parameter of every operation that reads it. */
  type Timestamp = nat

  const TicksPerSecond: nat := 10_000_000

  /** What survives writing a `DateTime` as "yyyy-MM-dd HH:mm:ss" and parsing
      it back: the fraction of a second is lost. */
  function ToWholeSecond(t: Timestamp): (r: Timestamp)
    ensures r <= t < r + TicksPerSecond
    ensures r % TicksPerSecond == 0
  {
    t - t % TicksPerSecond
  }

  /** Writing a date a second time loses nothing more. */
  lemma ToWholeSecondIdempotent(t: Timestamp)
    ensures ToWholeSecond(ToWholeSecond(t)) == ToWholeSecond(t)
  {
  }

  /** A canvas coordinate or size: a `double` in the application, kept opaque
      here, because the model never computes with it. */
  type Coord = int

  /** No element occurs twice (reference identity for objects). */
  ghost predicate Distinct<T>(s: seq<T>)
  {
    forall i, j :: 0 <= i < j < |s| ==> s[i] != s[j]
  }

  /** `s` with every element of `drop` left out, order kept. */
  function Without<T(==)>(s: seq<T>, drop: set<T>): (r: seq<T>)
    ensures forall i :: 0 <= i < |r| ==> r[i] in s && r[i] !in drop
    ensures forall i :: 0 <= i < |s| && s[i] !in drop ==> s[i] in r
    ensures |r| <= |s|
  {
    if s == [] then []
    else (if s[0] in drop then [] else [s[0]]) + Without(s[1..], drop)
  }

  /** The position of the first occurrence of `x` in `s`. */
  function IndexOf<T(==)>(s: seq<T>, x: T): (k: nat)
    requires x in s
    ensures k < |s| && s[k] == x && x !in s[..k]
  {
    if s[0] == x then 0
    else
      var k := IndexOf(s[1..], x);
      assert s[..k + 1] == [s[0]] + s[1..][..k];
      k + 1
  }

  /** `Collection<T>.Remove`: drop the first occurrence of `x`, if any, and
      keep the order of the rest. */
  function RemoveFirst<T(==)>(s: seq<T>, x: T): (r: seq<T>)
    ensures x in s ==> r == s[..IndexOf(s, x)] + s[IndexOf(s, x) + 1..]
    ensures x !in s ==> r == s
    ensures x in s ==> |r| == |s| - 1
  {
    if s == [] then []
    else if s[0] == x then s[1..]
    else
      var rest := RemoveFirst(s[1..], x);
      if x in s[1..] then
        RemoveFirstStep(s, x, rest);
        [s[0]] + rest
      else
        [s[0]] + rest
  }

  /** One step of `RemoveFirst` past a head that is not `x`: cutting the
      first `x` out of the tail and putting the head back cuts the first
      `x` out of the whole. */
  lemma RemoveFirstStep<T>(s: seq<T>, x: T, rest: seq<T>)
    requires s != [] && s[0] != x && x in s[1..]
    requires rest == s[1..][..IndexOf(s[1..], x)] + s[1..][IndexOf(s[1..], x) + 1..]
    ensures [s[0]] + rest == s[..IndexOf(s, x)] + s[IndexOf(s, x) + 1..]
  {
    var k := IndexOf(s[1..], x);
    assert IndexOf(s, x) == k + 1;
    assert s[..k + 1] == [s[0]] + s[1..][..k];
    assert s[k + 2..] == s[1..][k + 1..];
  }

  /** Dropping elements that do not occur changes nothing. */
  lemma {:induction false} WithoutAbsent<T>(s: seq<T>, drop: set<T>, x: T)
    requires x !in s
    ensures Without(s, drop + {x}) == Without(s, drop)
  {
    if s != [] {
      WithoutAbsent(s[1..], drop, x);
    }
  }

  /** The tail of a duplicate-free sequence is duplicate-free and lacks the head. */
  lemma DistinctTail<T>(s: seq<T>)
    requires Distinct(s) && s != []
    ensures Distinct(s[1..]) && s[0] !in s[1..]
  {
    forall i, j | 0 <= i < j < |s[1..]| ensures s[1..][i] != s[1..][j] {
      assert s[1..][i] == s[i + 1] && s[1..][j] == s[j + 1];
    }
  }

  /** Leaving out elements keeps a duplicate-free sequence duplicate-free. */
  lemma {:induction false} WithoutDistinct<T>(s: seq<T>, drop: set<T>)
    requires Distinct(s)
    ensures Distinct(Without(s, drop))
  {
    if s != [] {
      DistinctTail(s);
      WithoutDistinct(s[1..], drop);
      var rest := Without(s[1..], drop);
      assert s[0] !in rest;
      var r := (if s[0] in drop then [] else [s[0]]) + rest;
      assert r == Without(s, drop);
      forall i, j | 0 <= i < j < |r| ensures r[i] != r[j] {
        if s[0] !in drop && i == 0 {
          assert r[j] == rest[j - 1];
        } else if s[0] !in drop {
          assert r[i] == rest[i - 1] && r[j] == rest[j - 1];
        }
      }
    }
  }

  /** Dropping nothing keeps everything. */
  lemma {:induction false} WithoutNothing<T>(s: seq<T>)
    ensures Without(s, {}) == s
  {
    if s != [] {
      WithoutNothing(s[1..]);
      assert s == [s[0]] + s[1..];
    }
  }

  /** In a duplicate-free sequence, removing the first occurrence of `x`
      removes every occurrence and keeps the sequence duplicate-free. */
  lemma RemoveFirstDistinct<T>(s: seq<T>, x: T)
    requires Distinct(s)
    ensures RemoveFirst(s, x) == Without(s, {x})
    ensures Distinct(RemoveFirst(s, x)) && x !in RemoveFirst(s, x)
  {
    var none: set<T> := {};
    RemoveFirstWithout(s, none, x);
    WithoutNothing(s);
    assert none + {x} == {x};
    WithoutDistinct(s, {x});
  }

  /** In a duplicate-free sequence, removing the first occurrence of `x` from
      what is left after dropping `drop` is the same as dropping `x` too. */
  lemma {:induction false} RemoveFirstWithout<T>(s: seq<T>, drop: set<T>, x: T)
    requires Distinct(s)
    ensures RemoveFirst(Without(s, drop), x) == Without(s, drop + {x})
  {
    if s != [] {
      DistinctTail(s);
      var t := Without(s[1..], drop);
      if s[0] in drop {
        assert Without(s, drop) == t;
        assert Without(s, drop + {x}) == Without(s[1..], drop + {x});
        RemoveFirstWithout(s[1..], drop, x);
      } else if s[0] == x {
        assert Without(s, drop) == [x] + t;
        assert RemoveFirst([x] + t, x) == t;
        assert Without(s, drop + {x}) == Without(s[1..], drop + {x});
        WithoutAbsent(s[1..], drop, x);
      } else {
        assert Without(s, drop) == [s[0]] + t;
        assert ([s[0]] + t)[0] == s[0] && ([s[0]] + t)[1..] == t;
        assert RemoveFirst([s[0]] + t, x) == [s[0]] + RemoveFirst(t, x);
        assert Without(s, drop + {x}) == [s[0]] + Without(s[1..], drop + {x});
        RemoveFirstWithout(s[1..], drop, x);
      }
    }
  }
}
