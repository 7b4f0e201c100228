/** Sequence vocabulary shared by the models. */
module Seqs {
  datatype Option<+T> = None | Some(value: T)

  function Filter<T>(s: seq<T>, p: T -> bool): (r: seq<T>) {
    if s == [] then [] else (if p(s[0]) then [s[0]] else []) + Filter(s[1..], p)
  }

  function Map<T, U>(s: seq<T>, f: T -> U): (r: seq<U>) {
    if s == [] then [] else [f(s[0])] + Map(s[1..], f)
  }

  function Reverse<T>(s: seq<T>): (r: seq<T>) {
    if s == [] then [] else Reverse(s[1..]) + [s[0]]
  }

  function Flatten<T>(s: seq<seq<T>>): (r: seq<T>) {
    if s == [] then [] else s[0] + Flatten(s[1..])
  }

  function RemoveAt<T>(s: seq<T>, i: nat): seq<T>
    requires i < |s|
  {
    s[..i] + s[i+1..]
  }

  function RemoveFirst<T>(s: seq<T>, p: T -> bool): seq<T> {
    if s == [] then [] else if p(s[0]) then s[1..] else [s[0]] + RemoveFirst(s[1..], p)
  }

  /** The first `n`, or all there are. */
  function Cut<T>(s: seq<T>, n: nat): seq<T> { if n < |s| then s[..n] else s }

  function Not<T>(p: T -> bool): T -> bool { x => !p(x) }

  lemma Assoc<T>(a: seq<T>, b: seq<T>, c: seq<T>)
    ensures a + (b + c) == a + b + c
  {
  }

  lemma {:induction false} FilterAppend<T>(a: seq<T>, b: seq<T>, p: T -> bool)
    ensures Filter(a + b, p) == Filter(a, p) + Filter(b, p)
  {
    if a == [] {
      assert a + b == b;
    } else {
      FilterAppend(a[1..], b, p);
      assert (a + b)[1..] == a[1..] + b;
      var h := if p(a[0]) then [a[0]] else [];
      assert h + (Filter(a[1..], p) + Filter(b, p)) == h + Filter(a[1..], p) + Filter(b, p);
    }
  }

  lemma FilterSnoc<T>(s: seq<T>, x: T, p: T -> bool)
    ensures Filter(s + [x], p) == if p(x) then Filter(s, p) + [x] else Filter(s, p)
  {
    FilterAppend(s, [x], p);
    assert Filter([x], p) == if p(x) then [x] else [];
  }

  lemma {:induction false} MapAppend<T, U>(a: seq<T>, b: seq<T>, f: T -> U)
    ensures Map(a + b, f) == Map(a, f) + Map(b, f)
  {
    if a == [] {
      assert a + b == b;
    } else {
      MapAppend(a[1..], b, f);
      assert (a + b)[1..] == a[1..] + b && (a + b)[0] == a[0];
      Assoc([f(a[0])], Map(a[1..], f), Map(b, f));
    }
  }

  lemma {:induction false} MapIndex<T, U>(s: seq<T>, f: T -> U)
    ensures |Map(s, f)| == |s| && forall i | 0 <= i < |s| :: Map(s, f)[i] == f(s[i])
  {
    if s == [] {
    } else {
      MapIndex(s[1..], f);
    }
  }

  lemma {:induction false} FilterIn<T>(s: seq<T>, p: T -> bool, x: T)
    ensures x in Filter(s, p) <==> x in s && p(x)
  {
    if s == [] {
    } else {
      FilterIn(s[1..], p, x);
    }
  }

  /** A filter that keeps all, or none. */
  lemma {:induction false} FilterTrivial<T>(s: seq<T>, p: T -> bool)
    ensures (forall x | x in s :: p(x)) ==> Filter(s, p) == s
    ensures (forall x | x in s :: !p(x)) ==> Filter(s, p) == []
  {
    if s == [] {
    } else {
      FilterTrivial(s[1..], p);
    }
  }

  /** What satisfies `p` comes after everything that does not. */
  ghost predicate ComeLast<T>(s: seq<T>, p: T -> bool) {
    forall i, j | 0 <= i < j < |s| && p(s[i]) :: p(s[j])
  }

  /** How many come before the first that satisfies `p`. */
  function Before<T>(s: seq<T>, p: T -> bool): (k: nat)
    ensures k <= |s| && (k < |s| ==> p(s[k])) && forall x | x in s[..k] :: !p(x)
  {
    if s == [] || p(s[0]) then 0
    else
      var k := Before(s[1..], p);
      assert s[..k+1] == [s[0]] + s[1..][..k];
      k + 1
  }

  /** Leaving out all that satisfies `p` is stopping at the first exactly when they come last. */
  lemma {:induction false} FilterBefore<T>(s: seq<T>, p: T -> bool)
    ensures Filter(s, Not(p)) == s[..Before(s, p)] <==> ComeLast(s, p)
    ensures ComeLast(s, p) ==> forall x | x in s[Before(s, p)..] :: p(x)
  {
    if s == [] {
    } else if p(s[0]) {
      if ComeLast(s, p) {
        FilterTrivial(s, Not(p));
      } else {
        var i, j :| 0 <= i < j < |s| && p(s[i]) && !p(s[j]);
        FilterIn(s, Not(p), s[j]);
      }
    } else {
      FilterBefore(s[1..], p);
      ComeLastOn(s, p);
      var k := Before(s[1..], p);
      assert s[..k+1] == [s[0]] + s[1..][..k] && s[k+1..] == s[1..][k..];
      assert ([s[0]] + Filter(s[1..], Not(p)))[1..] == Filter(s[1..], Not(p));
      assert ([s[0]] + s[1..][..k])[1..] == s[1..][..k];
    }
  }

  lemma ComeLastOn<T>(s: seq<T>, p: T -> bool)
    requires s != [] && !p(s[0])
    ensures ComeLast(s, p) <==> ComeLast(s[1..], p)
  {
    var t := s[1..];
    if ComeLast(s, p) {
      forall i, j | 0 <= i < j < |t| && p(t[i]) ensures p(t[j]) { assert s[i+1] == t[i] && s[j+1] == t[j]; }
    }
    if ComeLast(t, p) {
      forall i, j | 0 <= i < j < |s| && p(s[i]) ensures p(s[j]) { assert s[i] == t[i-1] && s[j] == t[j-1]; }
    }
  }

  lemma {:induction false} FilterSame<T>(s: seq<T>, p: T -> bool, q: T -> bool)
    requires forall x | x in s :: p(x) == q(x)
    ensures Filter(s, p) == Filter(s, q)
  {
    if s == [] {
    } else {
      FilterSame(s[1..], p, q);
    }
  }

  lemma {:induction false} FilterTwice<T>(s: seq<T>, p: T -> bool, q: T -> bool)
    ensures Filter(Filter(s, p), q) == Filter(Filter(s, q), p)
  {
    if s == [] {
    } else {
      FilterTwice(s[1..], p, q);
      var a := if p(s[0]) then [s[0]] else [];
      var b := if q(s[0]) then [s[0]] else [];
      FilterAppend(a, Filter(s[1..], p), q);
      FilterAppend(b, Filter(s[1..], q), p);
      assert s[..1] == [s[0]];
    }
  }

  lemma {:induction false} FilterLength<T>(s: seq<T>, p: T -> bool)
    ensures |Filter(s, p)| + |Filter(s, Not(p))| == |s|
  {
    if s == [] {
    } else {
      FilterLength(s[1..], p);
    }
  }

  lemma {:induction false} ReverseAppend<T>(a: seq<T>, b: seq<T>)
    ensures Reverse(a + b) == Reverse(b) + Reverse(a)
  {
    if a == [] {
      assert a + b == b;
    } else {
      ReverseAppend(a[1..], b);
      assert (a + b)[1..] == a[1..] + b;
    }
  }

  lemma {:induction false} ReverseLength<T>(s: seq<T>)
    ensures |Reverse(s)| == |s|
  {
    if s == [] {
    } else {
      ReverseLength(s[1..]);
    }
  }

  lemma {:induction false} ReverseIn<T>(s: seq<T>, x: T)
    ensures x in Reverse(s) <==> x in s
  {
    if s == [] {
    } else {
      ReverseIn(s[1..], x);
    }
  }

  lemma {:induction false} RemoveFirstAt<T>(s: seq<T>, p: T -> bool, i: nat)
    requires i <= |s| && (forall j | 0 <= j < i :: !p(s[j])) && (i < |s| ==> p(s[i]))
    ensures RemoveFirst(s, p) == if i < |s| then RemoveAt(s, i) else s
  {
    if i == 0 {
    } else {
      RemoveFirstAt(s[1..], p, i - 1);
      if i < |s| {
        assert s[..i] == [s[0]] + s[1..][..i-1] && s[1..][i..] == s[i+1..];
        assert RemoveFirst(s, p) == [s[0]] + (s[1..][..i-1] + s[i+1..]);
      }
    }
  }

  /** Removing the first match is removing all matches exactly when there is at most one. */
  lemma {:induction false} RemoveFirstIsAll<T>(s: seq<T>, p: T -> bool)
    ensures |Filter(s, p)| <= 1 <==> RemoveFirst(s, p) == Filter(s, Not(p))
  {
    if s == [] {
    } else {
      if p(s[0]) {
        FilterLength(s[1..], p);
        if |Filter(s[1..], p)| == 0 {
          forall x | x in s[1..] ensures Not(p)(x) { FilterIn(s[1..], p, x); }
          FilterTrivial(s[1..], Not(p));
        }
      } else {
        RemoveFirstIsAll(s[1..], p);
        assert Filter(s, p) == Filter(s[1..], p);
        assert Filter(s, Not(p)) == [s[0]] + Filter(s[1..], Not(p));
        assert ([s[0]] + RemoveFirst(s[1..], p))[1..] == RemoveFirst(s[1..], p);
        assert ([s[0]] + Filter(s[1..], Not(p)))[1..] == Filter(s[1..], Not(p));
      }
    }
  }

  /** What is left of the matches when the first one is removed. */
  lemma {:induction false} RemoveFirstMatches<T>(s: seq<T>, p: T -> bool)
    ensures Filter(RemoveFirst(s, p), p) == if Filter(s, p) == [] then [] else Filter(s, p)[1..]
  {
    if s == [] {
    } else {
      if !p(s[0]) {
        RemoveFirstMatches(s[1..], p);
        FilterAppend([s[0]], RemoveFirst(s[1..], p), p);
        assert Filter([s[0]], p) == [];
      }
    }
  }

  /** Removing one match leaves everything that does not match alone. */
  lemma {:induction false} RemoveFirstOthers<T>(s: seq<T>, p: T -> bool, q: T -> bool)
    requires forall x | p(x) :: !q(x)
    ensures Filter(RemoveFirst(s, p), q) == Filter(s, q)
  {
    if s == [] {
    } else {
      if !p(s[0]) {
        RemoveFirstOthers(s[1..], p, q);
        FilterAppend([s[0]], RemoveFirst(s[1..], p), q);
        FilterAppend([s[0]], s[1..], q);
        assert [s[0]] + s[1..] == s;
      }
    }
  }
}
