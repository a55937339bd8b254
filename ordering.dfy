/**
 * Sorting and filtering sequences of strings under Python's string order:
 * `sorted(keys)` and the list comprehensions that cut a sorted list at a bound.
 */
module Ordering {
  import opened Text

  predicate StrictlyIncreasing(s: seq<string>)
  {
    forall i, j :: 0 <= i < j < |s| ==> StrLess(s[i], s[j])
  }

  function Elems(s: seq<string>): set<string>
  {
    set x | x in s
  }

  predicate IsLeast(m: string, s: set<string>)
  {
    m in s && forall x :: x in s ==> !StrLess(x, m)
  }

  lemma {:induction false} LeastExists(s: set<string>)
    requires s != {}
    ensures exists m :: IsLeast(m, s)
    decreases |s|
  {
    var x :| x in s;
    if s != {x} {
      LeastExists(s - {x});
      var m :| IsLeast(m, s - {x});
      StrLessTotal(x, m);
      if StrLess(x, m) {
        forall y | y in s
          ensures !StrLess(y, x)
        {
          if y != x && StrLess(y, x) {
            StrLessTransitive(y, x, m);
          }
          if y == x {
            StrLessIrreflexive(x);
          }
        }
        assert IsLeast(x, s);
      } else {
        if StrLess(m, x) {
          StrLessAsymmetric(m, x);
        }
        assert IsLeast(m, s);
      }
    } else {
      StrLessIrreflexive(x);
      assert IsLeast(x, s);
    }
  }

  /** The least element of a set comes strictly before every other element. */
  lemma LeastBeforeRest(m: string, s: set<string>, x: string)
    requires IsLeast(m, s) && x in s && x != m
    ensures StrLess(m, x)
  {
    StrLessTotal(m, x);
  }

  /** Putting the least element of a set before an ascending listing of the rest lists the whole set in ascending order. */
  lemma PrependLeast(m: string, rest: seq<string>, s: set<string>)
    requires IsLeast(m, s) && StrictlyIncreasing(rest) && Elems(rest) == s - {m}
    ensures StrictlyIncreasing([m] + rest) && Elems([m] + rest) == s
  {
    var r := [m] + rest;
    forall i, j | 0 <= i < j < |r|
      ensures StrLess(r[i], r[j])
    {
      assert r[j] == rest[j - 1];
      if i == 0 {
        assert rest[j - 1] in Elems(rest);
        LeastBeforeRest(m, s, r[j]);
      } else {
        assert r[i] == rest[i - 1];
      }
    }
    assert Elems(r) == {m} + Elems(rest);
  }

  /** Appending an element greater than all others keeps a sequence strictly increasing. */
  lemma AppendGreatest(r: seq<string>, m: string)
    requires StrictlyIncreasing(r) && forall x :: x in r ==> StrLess(x, m)
    ensures StrictlyIncreasing(r + [m]) && Elems(r + [m]) == Elems(r) + {m}
  {
    var r' := r + [m];
    forall i, j | 0 <= i < j < |r'|
      ensures StrLess(r'[i], r'[j])
    {
      assert r'[i] == r[i];
      if j == |r| {
        assert r[i] in r;
      } else {
        assert r'[j] == r[j];
      }
    }
    assert Elems(r') == Elems(r) + {m};
  }

  /** The elements of a finite set of strings in ascending order: the reference for `sorted(set)`. */
  ghost function SortedSeq(s: set<string>): (r: seq<string>)
    ensures StrictlyIncreasing(r) && Elems(r) == s
    decreases |s|
  {
    if s == {} then []
    else
      LeastExists(s);
      var m :| IsLeast(m, s);
      var rest := SortedSeq(s - {m});
      PrependLeast(m, rest, s);
      [m] + rest
  }

  /** A strictly increasing sequence is determined by its elements. */
  lemma {:induction false} SortedUnique(a: seq<string>, b: seq<string>)
    requires StrictlyIncreasing(a) && StrictlyIncreasing(b)
    requires Elems(a) == Elems(b)
    ensures a == b
    decreases |a|
  {
    if |a| != 0 {
      assert a[0] in Elems(b);
    }
    if |b| != 0 {
      assert b[0] in Elems(a);
    }
    if |a| != 0 && |b| != 0 {
      if a[0] != b[0] {
        assert b[0] in Elems(a);
        var i :| 0 <= i < |a| && a[i] == b[0];
        assert a[0] in Elems(b);
        var j :| 0 <= j < |b| && b[j] == a[0];
        assert StrLess(a[0], b[0]);
        assert StrLess(b[0], a[0]);
        StrLessAsymmetric(a[0], b[0]);
      }
      forall x | x in Elems(a[1..])
        ensures x in Elems(b[1..])
      {
        var i :| 1 <= i < |a| && a[i] == x;
        assert x in Elems(b);
        StrLessIrreflexive(x);
      }
      forall x | x in Elems(b[1..])
        ensures x in Elems(a[1..])
      {
        var i :| 1 <= i < |b| && b[i] == x;
        assert x in Elems(a);
        StrLessIrreflexive(x);
      }
      SortedUnique(a[1..], b[1..]);
      assert a == [a[0]] + a[1..] && b == [b[0]] + b[1..];
    }
  }

  /** `sorted(keys)` for a set of strings: repeatedly move the least remaining key to the end. */
  method SortKeys(keys: set<string>) returns (r: seq<string>)
    ensures r == SortedSeq(keys)
  {
    r := [];
    var rest := keys;
    while rest != {}
      invariant StrictlyIncreasing(r)
      invariant Elems(r) + rest == keys && Elems(r) !! rest
      invariant forall x, y :: x in r && y in rest ==> StrLess(x, y)
      decreases |rest|
    {
      LeastExists(rest);
      var m :| IsLeast(m, rest);
      forall y | y in rest - {m}
        ensures StrLess(m, y)
      {
        LeastBeforeRest(m, rest, y);
      }
      AppendGreatest(r, m);
      r := r + [m];
      rest := rest - {m};
    }
    SortedUnique(r, SortedSeq(keys));
  }

  /** `[d for d in s if d >= lo]`. */
  function KeepFrom(s: seq<string>, lo: string): (r: seq<string>)
    ensures forall x :: x in r <==> x in s && !StrLess(x, lo)
    ensures StrictlyIncreasing(s) ==> StrictlyIncreasing(r)
  {
    if |s| == 0 then []
    else
      var rest := KeepFrom(s[1..], lo);
      assert forall x :: x in s <==> x == s[0] || x in s[1..];
      assert StrictlyIncreasing(s) ==> forall x :: x in rest ==> StrLess(s[0], x);
      if !StrLess(s[0], lo) then [s[0]] + rest else rest
  }

  /** `[d for d in s if d <= hi]`. */
  function KeepUpTo(s: seq<string>, hi: string): (r: seq<string>)
    ensures forall x :: x in r <==> x in s && !StrLess(hi, x)
    ensures StrictlyIncreasing(s) ==> StrictlyIncreasing(r)
  {
    if |s| == 0 then []
    else
      var rest := KeepUpTo(s[1..], hi);
      assert forall x :: x in s <==> x == s[0] || x in s[1..];
      assert StrictlyIncreasing(s) ==> forall x :: x in rest ==> StrLess(s[0], x);
      if !StrLess(hi, s[0]) then [s[0]] + rest else rest
  }
}
