/**
  Configuration trees and the recursive merge that layers one over another.

  A Python dict is modelled by a map, so tree equality is dict equality and no
  statement below depends on the insertion order of keys.
*/
module ConfigTree {
  import opened Options

  /** Everything a configuration may hold that is not a mapping. */
  datatype Scalar = Null | Bool(b: bool) | Num(n: real) | Str(s: string) | Items(xs: seq<Tree>)

  datatype Tree = Leaf(v: Scalar) | Dict(m: map<string, Tree>)

  type Path = seq<string>

  const EMPTY: Tree := Dict(map[])

  /** The subtree at a key path, if every step of the path is a present key. */
  function Get(t: Tree, p: Path): (r: Option<Tree>)
  {
    if p == [] then Some(t)
    else if t.Dict? && p[0] in t.m then Get(t.m[p[0]], p[1..])
    else None
  }

  /** Non-dict values and the empty dict carry no further keys. */
  predicate Terminal(t: Tree)
  {
    t.Leaf? || t.m == map[]
  }

  /** p leads from the root of t to the terminal value v. */
  ghost predicate LeafIs(t: Tree, p: Path, v: Tree)
  {
    p != [] && Get(t, p) == Some(v) && Terminal(v)
  }

  ghost predicate HasLeaf(t: Tree, p: Path)
  {
    p != [] && Get(t, p).Some? && Terminal(Get(t, p).value)
  }

  /** What _deep_merge computes, on arbitrary values: dicts merge key by key, anything else is replaced. */
  function Overlay(base: Tree, over: Tree): Tree
    decreases over
  {
    if base.Dict? && over.Dict? then
      Dict(map k | k in base.m.Keys + over.m.Keys ::
             if k in over.m then
               (if k in base.m then Overlay(base.m[k], over.m[k]) else over.m[k])
             else base.m[k])
    else over
  }

  /** _deep_merge itself: copy the base, then visit the override's items in some order. */
  method DeepMerge(base: Tree, over: Tree) returns (merged: Tree)
    requires base.Dict? && over.Dict?
    ensures merged == Overlay(base, over)
    decreases over
  {
    var copy := base.m;
    var todo := over.m.Keys;
    while todo != {}
      invariant todo <= over.m.Keys
      invariant copy.Keys == base.m.Keys + (over.m.Keys - todo)
      invariant forall k :: k in copy.Keys ==>
                              copy[k] == if k in over.m && k !in todo then Overlay(base, over).m[k] else base.m[k]
      decreases todo
    {
      var key :| key in todo;
      var value := over.m[key];
      if value.Dict? && key in copy && copy[key].Dict? {
        var inner := DeepMerge(copy[key], value);
        copy := copy[key := inner];
      } else {
        copy := copy[key := value];
      }
      todo := todo - {key};
    }
    merged := Dict(copy);
    assert copy.Keys == Overlay(base, over).m.Keys;
  }

  // ---- Looking up a path after a merge ----

  /** t has dicts along p as far as it goes, and then lacks the next key: merging t over a tree leaves p alone. */
  ghost predicate Untouched(t: Tree, p: Path)
  {
    p != [] && t.Dict? && (p[0] in t.m ==> Untouched(t.m[p[0]], p[1..]))
  }

  /** The value at every path after a merge, from the two values before it. */
  lemma {:induction false} GetOverlay(base: Tree, over: Tree, p: Path)
    ensures Get(Overlay(base, over), p) ==
            match Get(over, p)
            case Some(o) => if Get(base, p).Some? then Some(Overlay(Get(base, p).value, o)) else Some(o)
            case None => if Untouched(over, p) then Get(base, p) else None
  {
    if p != [] && over.Dict? && p[0] in over.m && base.Dict? && p[0] in base.m {
      GetOverlay(base.m[p[0]], over.m[p[0]], p[1..]);
    }
    if p != [] && over.Dict? && p[0] in over.m && !(base.Dict? && p[0] in base.m) {
      GetPresentOrCut(over.m[p[0]], p[1..]);
    }
  }

  /** A path that is present in a tree is not untouched by it. */
  lemma {:induction false} GetPresentOrCut(t: Tree, p: Path)
    ensures Get(t, p).Some? ==> !Untouched(t, p)
  {
    if p != [] && t.Dict? && p[0] in t.m {
      GetPresentOrCut(t.m[p[0]], p[1..]);
    }
  }

  lemma {:induction false} GetAppend(t: Tree, p: Path, q: Path)
    ensures Get(t, p + q) == if Get(t, p).Some? then Get(Get(t, p).value, q) else None
  {
    if p == [] {
      assert p + q == q;
    } else {
      assert (p + q)[1..] == p[1..] + q;
      if t.Dict? && p[0] in t.m {
        GetAppend(t.m[p[0]], p[1..], q);
      }
    }
  }

  // ---- Laws of the merge ----

  /** The empty configuration is a two-sided identity on configurations. */
  lemma {:induction false} OverlayIdentity(t: Tree)
    requires t.Dict?
    ensures Overlay(EMPTY, t) == t
    ensures Overlay(t, EMPTY) == t
  {
    assert Overlay(EMPTY, t).m == t.m;
    assert Overlay(t, EMPTY).m == t.m;
  }

  /** x already sits inside y, so that merging y over x leaves nothing of x that y lacks. */
  ghost predicate Absorbed(x: Tree, y: Tree)
  {
    x.Leaf? || y.Leaf? || forall k :: k in x.m ==> k in y.m && Absorbed(x.m[k], y.m[k])
  }

  /** Merging y over x gives exactly y if and only if y absorbs x. */
  lemma {:induction false} OverlayAbsorbs(x: Tree, y: Tree)
    ensures Overlay(x, y) == y <==> Absorbed(x, y)
  {
    if x.Dict? && y.Dict? {
      forall k | k in x.m && k in y.m
        ensures Overlay(x.m[k], y.m[k]) == y.m[k] <==> Absorbed(x.m[k], y.m[k])
      {
        OverlayAbsorbs(x.m[k], y.m[k]);
      }
      var z := Overlay(x, y).m;
      if z == y.m {
        forall k | k in x.m
          ensures k in y.m && Absorbed(x.m[k], y.m[k])
        {
          assert k in z;
          assert z[k] == Overlay(x.m[k], y.m[k]);
        }
      }
      if Absorbed(x, y) {
        assert z == y.m;
      }
    }
  }

  lemma {:induction false} AbsorbedBySelf(t: Tree)
    ensures Absorbed(t, t)
  {
    if t.Dict? {
      forall k | k in t.m {
        AbsorbedBySelf(t.m[k]);
      }
    }
  }

  /** Merging the same override a second time changes nothing. */
  lemma {:induction false} OverlayTwice(base: Tree, over: Tree)
    ensures Overlay(Overlay(base, over), over) == Overlay(base, over)
  {
    if base.Dict? && over.Dict? {
      var once := Overlay(base, over);
      var twice := Overlay(once, over);
      forall k | k in once.m
        ensures twice.m[k] == once.m[k]
      {
        if k in over.m {
          if k in base.m {
            OverlayTwice(base.m[k], over.m[k]);
          } else {
            OverlaySelf(over.m[k]);
          }
        }
      }
      assert twice.m.Keys == once.m.Keys;
    } else {
      OverlaySelf(over);
    }
  }

  lemma {:induction false} OverlaySelf(t: Tree)
    ensures Overlay(t, t) == t
  {
    AbsorbedBySelf(t);
    OverlayAbsorbs(t, t);
  }

  /** At p the first tree has a dict that the second replaces by a non-dict, over which the third lays a dict. */
  ghost predicate Clash(a: Tree, b: Tree, c: Tree, p: Path)
  {
    && Get(a, p).Some? && Get(a, p).value.Dict?
    && Get(b, p).Some? && Get(b, p).value.Leaf?
    && Get(c, p).Some? && Get(c, p).value.Dict?
  }

  /** Every clash is harmless: what the first tree held there is absorbed by the third. */
  ghost predicate ClashesAbsorbed(a: Tree, b: Tree, c: Tree)
  {
    forall p :: Clash(a, b, c, p) ==> Absorbed(Get(a, p).value, Get(c, p).value)
  }

  /**
    The merge may be regrouped exactly when every clash is absorbed; in particular
    whenever there is no clash at all.
  */
  lemma {:induction false} OverlayAssociative(a: Tree, b: Tree, c: Tree)
    ensures Overlay(Overlay(a, b), c) == Overlay(a, Overlay(b, c)) <==> ClashesAbsorbed(a, b, c)
    decreases c, 1
  {
    if c.Leaf? || (b.Dict? && a.Leaf?) {
      forall p
        ensures !Clash(a, b, c, p)
      {
      }
    } else if b.Leaf? {
      OverlayAbsorbs(a, c);
      if a.Dict? {
        assert Clash(a, b, c, []);
      }
      forall p | Clash(a, b, c, p)
        ensures p == []
      {
      }
      assert ClashesAbsorbed(a, b, c) <==> (a.Leaf? || Absorbed(a, c));
    } else {
      AssociativeOnDicts(a, b, c);
    }
  }

  lemma {:induction false} AssociativeOnDicts(a: Tree, b: Tree, c: Tree)
    requires a.Dict? && b.Dict? && c.Dict?
    ensures Overlay(Overlay(a, b), c) == Overlay(a, Overlay(b, c)) <==> ClashesAbsorbed(a, b, c)
    decreases c, 0
  {
    var l, r := Overlay(Overlay(a, b), c).m, Overlay(a, Overlay(b, c)).m;
    assert l.Keys == r.Keys == a.m.Keys + b.m.Keys + c.m.Keys;
    forall k | k in l
      ensures InAll(a, b, c, k) ==> (l[k] == r[k] <==> ClashesAbsorbed(a.m[k], b.m[k], c.m[k]))
      ensures !InAll(a, b, c, k) ==> l[k] == r[k]
    {
      if InAll(a, b, c, k) {
        OverlayAssociative(a.m[k], b.m[k], c.m[k]);
      }
    }
    ClashesByKey(a, b, c);
    assert l == r <==> forall k :: k in l ==> l[k] == r[k];
  }

  ghost predicate InAll(a: Tree, b: Tree, c: Tree, k: string)
  {
    a.Dict? && b.Dict? && c.Dict? && k in a.m && k in b.m && k in c.m
  }

  lemma {:induction false} ClashesByKey(a: Tree, b: Tree, c: Tree)
    requires a.Dict? && b.Dict? && c.Dict?
    ensures ClashesAbsorbed(a, b, c) <==>
            forall k :: InAll(a, b, c, k) ==> ClashesAbsorbed(a.m[k], b.m[k], c.m[k])
  {
    if ClashesAbsorbed(a, b, c) {
      forall k, p | InAll(a, b, c, k) && Clash(a.m[k], b.m[k], c.m[k], p)
        ensures Absorbed(Get(a.m[k], p).value, Get(c.m[k], p).value)
      {
        assert ([k] + p)[1..] == p;
        assert Clash(a, b, c, [k] + p);
      }
    }
    if forall k :: InAll(a, b, c, k) ==> ClashesAbsorbed(a.m[k], b.m[k], c.m[k]) {
      forall p | Clash(a, b, c, p)
        ensures Absorbed(Get(a, p).value, Get(c, p).value)
      {
        assert InAll(a, b, c, p[0]);
        assert Clash(a.m[p[0]], b.m[p[0]], c.m[p[0]], p[1..]);
      }
    }
  }

  /** The condition is needed: a scalar in the middle makes the grouping visible. */
  lemma {:induction false} OverlayNotAssociative()
    ensures var a := Dict(map["k" := Dict(map["x" := Leaf(Null)])]);
            var b := Dict(map["k" := Leaf(Null)]);
            var c := Dict(map["k" := EMPTY]);
            Overlay(Overlay(a, b), c) != Overlay(a, Overlay(b, c))
  {
    var a := Dict(map["k" := Dict(map["x" := Leaf(Null)])]);
    var b := Dict(map["k" := Leaf(Null)]);
    var c := Dict(map["k" := EMPTY]);
    assert Clash(a, b, c, ["k"]);
    assert "x" in a.m["k"].m;
    OverlayAssociative(a, b, c);
  }
}
