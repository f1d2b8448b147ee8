/** Filtering sequences. */
module Lists {

  /** The elements that satisfy p, in order. */
  function Keep<T>(s: seq<T>, p: T -> bool): seq<T>
  {
    if s == [] then []
    else
      var rest := Keep(s[..|s| - 1], p);
      if p(s[|s| - 1]) then rest + [s[|s| - 1]] else rest
  }

  lemma {:induction false} KeepSnoc<T>(s: seq<T>, x: T, p: T -> bool)
    ensures Keep(s + [x], p) == if p(x) then Keep(s, p) + [x] else Keep(s, p)
  {
    assert (s + [x])[..|s|] == s;
  }

  lemma {:induction false} KeepMembers<T>(s: seq<T>, p: T -> bool)
    ensures |Keep(s, p)| <= |s|
    ensures forall x :: x in Keep(s, p) <==> x in s && p(x)
  {
    if s != [] {
      var t, x := s[..|s| - 1], s[|s| - 1];
      KeepMembers(t, p);
      assert s == t + [x];
    }
  }

  lemma {:induction false} KeepNone<T>(s: seq<T>, p: T -> bool)
    requires forall x :: x in s ==> !p(x)
    ensures Keep(s, p) == []
  {
    if s != [] {
      KeepNone(s[..|s| - 1], p);
    }
  }

  lemma {:induction false} KeepAll<T>(s: seq<T>, p: T -> bool)
    requires forall x :: x in s ==> p(x)
    ensures Keep(s, p) == s
  {
    if s != [] {
      KeepAll(s[..|s| - 1], p);
    }
  }

  lemma {:induction false} KeepConcat<T>(a: seq<T>, b: seq<T>, p: T -> bool)
    ensures Keep(a + b, p) == Keep(a, p) + Keep(b, p)
  {
    if b == [] {
      assert a + b == a;
    } else {
      var t, x := b[..|b| - 1], b[|b| - 1];
      KeepConcat(a, t, p);
      KeepSnoc(a + t, x, p);
      assert a + b == a + t + [x];
    }
  }

  lemma {:induction false} KeepCons<T>(x: T, s: seq<T>, p: T -> bool)
    ensures Keep([x] + s, p) == (if p(x) then [x] else []) + Keep(s, p)
  {
    KeepConcat([x], s, p);
    KeepSnoc([], x, p);
    assert [] + [x] == [x];
  }

  /** Two filters one after the other are a filter by q exactly when they agree on every element. */
  lemma {:induction false} KeepKeep<T>(s: seq<T>, p: T -> bool, q: T -> bool, r: T -> bool)
    requires forall x :: x in s ==> (r(x) <==> p(x) && q(x))
    ensures Keep(Keep(s, p), q) == Keep(s, r)
  {
    if s != [] {
      var t, x := s[..|s| - 1], s[|s| - 1];
      KeepKeep(t, p, q, r);
      KeepSnoc(Keep(t, p), x, q);
    }
  }

  lemma {:induction false} KeptFrom<T>(s: seq<T>, p: T -> bool, k: nat)
    requires k < |Keep(s, p)|
    ensures exists i :: 0 <= i < |s| && s[i] == Keep(s, p)[k]
  {
    var t := s[..|s| - 1];
    if k < |Keep(t, p)| {
      KeptFrom(t, p, k);
      var i :| 0 <= i < |t| && t[i] == Keep(t, p)[k];
      assert s[i] == Keep(s, p)[k];
    } else {
      assert s[|s| - 1] == Keep(s, p)[k];
    }
  }

  /** What holds between every element and every later one still does. */
  lemma {:induction false} KeepPairwise<T>(s: seq<T>, p: T -> bool, rel: (T, T) -> bool)
    requires forall i, j :: 0 <= i < j < |s| ==> rel(s[i], s[j])
    ensures forall i, j :: 0 <= i < j < |Keep(s, p)| ==> rel(Keep(s, p)[i], Keep(s, p)[j])
  {
    if s != [] {
      var t, x := s[..|s| - 1], s[|s| - 1];
      KeepPairwise(t, p, rel);
      var kept := Keep(t, p);
      forall k | 0 <= k < |kept|
        ensures rel(kept[k], x)
      {
        KeptFrom(t, p, k);
        var i :| 0 <= i < |t| && t[i] == kept[k];
        assert s[i] == kept[k] && s[|s| - 1] == x;
      }
    }
  }
}
