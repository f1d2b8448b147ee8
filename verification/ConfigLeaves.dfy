/**
  Flattening a configuration to dotted leaves and rebuilding it from them:
  dotted_leaves, _set_dotted and _env_overrides of the layered resolver.
*/
module ConfigLeaves {
  import opened ConfigTree
  import opened Options
  import opened Text

  const DOT: char := '.'

  function Dotted(p: Path): string
  {
    Join(p, DOT)
  }

  /** No key anywhere in t holds the separator, so that dotted names determine key paths. */
  ghost predicate DotFree(t: Tree)
  {
    t.Dict? ==> forall k :: k in t.m ==> Free(k, DOT) && DotFree(t.m[k])
  }

  lemma {:induction false} DotFreePath(t: Tree, p: Path)
    requires DotFree(t) && Get(t, p).Some?
    ensures AllFree(p, DOT)
  {
    if p != [] {
      DotFreePath(t.m[p[0]], p[1..]);
    }
  }

  /** In a tree with dot-free keys two leaves with the same dotted name are the same leaf. */
  lemma {:induction false} DottedInjective(t: Tree, p: Path, u: Tree, q: Path)
    requires DotFree(t) && HasLeaf(t, p) && DotFree(u) && HasLeaf(u, q)
    requires Dotted(p) == Dotted(q)
    ensures p == q
  {
    DotFreePath(t, p);
    DotFreePath(u, q);
    JoinInjective(p, q, DOT);
  }

  // ---- Flattening ----

  ghost predicate Distinct<T>(s: seq<T>)
  {
    forall i, j :: 0 <= i < j < |s| ==> s[i] != s[j]
  }

  ghost function Under(key: string, ps: seq<Path>): seq<Path>
  {
    seq(|ps|, i requires 0 <= i < |ps| => [key] + ps[i])
  }

  lemma {:induction false} UnderMembers(key: string, ps: seq<Path>, p: Path)
    ensures p in Under(key, ps) <==> p != [] && p[0] == key && p[1..] in ps
  {
    if p != [] && p[0] == key && p[1..] in ps {
      var i :| 0 <= i < |ps| && ps[i] == p[1..];
      assert Under(key, ps)[i] == p;
    }
    if p in Under(key, ps) {
      var i :| 0 <= i < |ps| && Under(key, ps)[i] == p;
      assert p[1..] == ps[i];
    }
  }

  lemma {:induction false} UnderDistinct(key: string, ps: seq<Path>)
    requires Distinct(ps)
    ensures Distinct(Under(key, ps))
  {
    var us := Under(key, ps);
    forall i, j | 0 <= i < j < |us|
      ensures us[i] != us[j]
    {
      assert us[i][1..] == ps[i] && us[j][1..] == ps[j];
    }
  }

  /** The leaves under one key of a dict. */
  lemma {:induction false} LeavesUnderKey(t: Tree, key: string, p: Path)
    requires t.Dict? && key in t.m
    ensures Terminal(t.m[key]) ==> (HasLeaf(t, p) && p[0] == key <==> p == [key])
    ensures !Terminal(t.m[key]) ==>
              (HasLeaf(t, p) && p[0] == key <==> p != [] && p[0] == key && HasLeaf(t.m[key], p[1..]))
  {
    if p != [] && p[0] == key {
      assert Get(t, p) == Get(t.m[key], p[1..]);
      if Terminal(t.m[key]) && p[1..] != [] {
        assert Get(t.m[key], p[1..]) == None;
      }
      if p[1..] == [] {
        assert p == [key];
      }
    }
  }

  /** leaves lists, under dotted names, the leaves of data outside the keys still to visit, once each. */
  ghost predicate Listed(data: Tree, prefix: string, todo: set<string>, leaves: seq<(string, Tree)>, paths: seq<Path>)
  {
    Distinct(paths) && Covers(data, todo, paths) && Entries(data, prefix, leaves, paths)
  }

  ghost predicate Entries(data: Tree, prefix: string, leaves: seq<(string, Tree)>, paths: seq<Path>)
  {
    |leaves| == |paths| && forall i :: 0 <= i < |paths| ==> Entry(data, prefix, leaves[i], paths[i])
  }

  ghost predicate Covers(data: Tree, todo: set<string>, paths: seq<Path>)
  {
    forall p :: p in paths <==> HasLeaf(data, p) && p[0] !in todo
  }

  ghost predicate Entry(data: Tree, prefix: string, leaf: (string, Tree), p: Path)
  {
    leaf.0 == prefix + Dotted(p) && LeafIs(data, p, leaf.1)
  }

  lemma {:induction false} ListedLeaf(data: Tree, prefix: string, todo: set<string>, leaves: seq<(string, Tree)>,
                                      paths: seq<Path>,
                   key: string)
    requires data.Dict? && key in data.m && key in todo && Terminal(data.m[key])
    requires Listed(data, prefix, todo, leaves, paths)
    ensures Listed(data, prefix, todo - {key}, leaves + [(prefix + key, data.m[key])], paths + [[key]])
  {
    var longer := paths + [[key]];
    forall p
      ensures p in longer <==> HasLeaf(data, p) && p[0] !in todo - {key}
    {
      LeavesUnderKey(data, key, p);
      assert p in longer <==> p in paths || p == [key];
    }
    assert [key] !in paths;
    assert Get(data, [key]) == Some(data.m[key]);
  }

  lemma {:induction false} ListedInner(data: Tree, prefix: string, todo: set<string>, leaves: seq<(string, Tree)>,
                                       paths: seq<Path>,
                    key: string, inner: seq<(string, Tree)>, innerPaths: seq<Path>)
    requires data.Dict? && key in data.m && key in todo && !Terminal(data.m[key])
    requires Listed(data, prefix, todo, leaves, paths)
    requires Listed(data.m[key], prefix + key + [DOT], {}, inner, innerPaths)
    ensures Listed(data, prefix, todo - {key}, leaves + inner, paths + Under(key, innerPaths))
  {
    var added := Under(key, innerPaths);
    CoversInner(data, todo, paths, key, innerPaths);
    UnderDistinct(key, innerPaths);
    DistinctConcat(paths, added);
    EntriesUnder(data, prefix, key, inner, innerPaths);
    EntriesConcat(data, prefix, leaves, paths, inner, added);
  }

  lemma {:induction false} EntriesConcat(data: Tree, prefix: string, leaves: seq<(string, Tree)>, paths: seq<Path>,
                      more: seq<(string, Tree)>, morePaths: seq<Path>)
    requires Entries(data, prefix, leaves, paths) && Entries(data, prefix, more, morePaths)
    ensures Entries(data, prefix, leaves + more, paths + morePaths)
  {
  }

  lemma {:induction false} EntriesUnder(data: Tree, prefix: string, key: string, leaves: seq<(string, Tree)>,
                                        paths: seq<Path>)
    requires data.Dict? && key in data.m && Entries(data.m[key], prefix + key + [DOT], leaves, paths)
    ensures Entries(data, prefix, leaves, Under(key, paths))
  {
    var under := Under(key, paths);
    forall i | 0 <= i < |under|
      ensures Entry(data, prefix, leaves[i], under[i])
    {
      EntryUnder(data, prefix, key, leaves[i], paths[i]);
    }
  }

  lemma {:induction false} CoversInner(data: Tree, todo: set<string>, paths: seq<Path>, key: string,
                                       innerPaths: seq<Path>)
    requires data.Dict? && key in data.m && key in todo && !Terminal(data.m[key])
    requires Covers(data, todo, paths) && Covers(data.m[key], {}, innerPaths)
    ensures Covers(data, todo - {key}, paths + Under(key, innerPaths))
    ensures forall p :: p in Under(key, innerPaths) ==> p !in paths
  {
    var added := Under(key, innerPaths);
    forall p
      ensures p in paths + added <==> HasLeaf(data, p) && p[0] !in todo - {key}
      ensures p in added ==> p !in paths
    {
      LeavesUnderKey(data, key, p);
      UnderMembers(key, innerPaths, p);
      assert p in paths + added <==> p in paths || p in added;
    }
  }

  lemma {:induction false} DistinctConcat<T>(a: seq<T>, b: seq<T>)
    requires Distinct(a) && Distinct(b) && forall x :: x in b ==> x !in a
    ensures Distinct(a + b)
  {
    forall i, j | 0 <= i < |a| && 0 <= j < |b|
      ensures a[i] != b[j]
    {
      assert a[i] in a && b[j] in b;
    }
  }

  lemma {:induction false} EntryUnder(data: Tree, prefix: string, key: string, leaf: (string, Tree), p: Path)
    requires data.Dict? && key in data.m && Entry(data.m[key], prefix + key + [DOT], leaf, p)
    ensures Entry(data, prefix, leaf, [key] + p)
  {
    assert ([key] + p)[1..] == p;
    assert prefix + key + [DOT] + Dotted(p) == prefix + Dotted([key] + p);
  }

  ghost predicate NamesLeaf(data: Tree, prefix: string, leaf: (string, Tree))
  {
    exists p :: Entry(data, prefix, leaf, p)
  }

  lemma {:induction false} ListedNamesLeaves(data: Tree, prefix: string, leaves: seq<(string, Tree)>, paths: seq<Path>)
    requires Listed(data, prefix, {}, leaves, paths)
    ensures forall leaf :: leaf in leaves <==> NamesLeaf(data, prefix, leaf)
  {
    forall leaf
      ensures leaf in leaves <==> NamesLeaf(data, prefix, leaf)
    {
      if leaf in leaves {
        var i :| 0 <= i < |leaves| && leaves[i] == leaf;
        assert Entry(data, prefix, leaf, paths[i]);
      }
      if NamesLeaf(data, prefix, leaf) {
        var p :| Entry(data, prefix, leaf, p);
        assert p in paths;
        var i :| 0 <= i < |paths| && paths[i] == p;
        assert Entry(data, prefix, leaves[i], p);
      }
    }
  }

  /**
    dotted_leaves: every leaf once, under its dotted name, whatever order the items are
    visited in. The ghost result lists the key path of each entry.
  */
  method DottedLeaves(data: Tree, prefix: string) returns (leaves: seq<(string, Tree)>, ghost paths: seq<Path>)
    requires data.Dict?
    ensures forall leaf :: leaf in leaves <==> NamesLeaf(data, prefix, leaf)
    ensures Listed(data, prefix, {}, leaves, paths)
    decreases data
  {
    leaves, paths := [], [];
    var todo := data.m.Keys;
    while todo != {}
      invariant todo <= data.m.Keys
      invariant Listed(data, prefix, todo, leaves, paths)
      decreases todo
    {
      var key :| key in todo;
      var value := data.m[key];
      var dotted := prefix + key;
      if value.Dict? && value.m != map[] {
        var inner; ghost var innerPaths;
        inner, innerPaths := DottedLeaves(value, dotted + [DOT]);
        ListedInner(data, prefix, todo, leaves, paths, key, inner, innerPaths);
        leaves, paths := leaves + inner, paths + Under(key, innerPaths);
      } else {
        ListedLeaf(data, prefix, todo, leaves, paths, key);
        leaves, paths := leaves + [(dotted, value)], paths + [[key]];
      }
      todo := todo - {key};
    }
    ListedNamesLeaves(data, prefix, leaves, paths);
  }

  // ---- Writing one path ----

  function ChildDict(t: Tree, key: string): (child: Tree)
    requires t.Dict?
    ensures child.Dict?
  {
    if key in t.m && t.m[key].Dict? then t.m[key] else EMPTY
  }

  /** t with v at p; every step before the last becomes a dict if it was not one. */
  function SetPath(t: Tree, p: Path, v: Tree): (r: Tree)
    requires t.Dict? && p != []
    ensures r.Dict? && p[0] in r.m
    decreases p
  {
    if |p| == 1 then Dict(t.m[p[0] := v])
    else Dict(t.m[p[0] := SetPath(ChildDict(t, p[0]), p[1..], v)])
  }

  /** The walk both writers share: step down the keys before the last, standing in a fresh dict where there is none. */
  method Descend(target: Tree, parts: Path) returns (node: Tree, spine: seq<Hook>)
    requires target.Dict? && parts != []
    ensures node.Dict?
    ensures var last := parts[|parts| - 1];
            && (forall v :: SetPath(target, parts, v) == Hang(spine, Dict(node.m[last := v])))
            && (last in node.m <==> Get(target, parts).Some?)
  {
    node := target;
    spine := [];
    for i := 0 to |parts| - 1
      invariant node.Dict?
      invariant forall v :: SetPath(target, parts, v) == Hang(spine, SetPath(node, parts[i..], v))
      invariant Get(node, parts[i..]).Some? <==> Get(target, parts).Some?
    {
      var part := parts[i];
      assert parts[i..][1..] == parts[i + 1..];
      var longer := spine + [(node.m, part)];
      assert longer[..|spine|] == spine;
      node := if part in node.m && node.m[part].Dict? then node.m[part] else EMPTY;
      spine := longer;
    }
    GetKey(node, parts[|parts| - 1]);
    assert parts[|parts| - 1..] == [parts[|parts| - 1]];
  }

  /** The dicts passed on the way down, each with its changed child back in place. */
  method HangUp(spine: seq<Hook>, inner: Tree) returns (result: Tree)
    ensures result == Hang(spine, inner)
  {
    result := inner;
    var left := spine;
    while left != []
      invariant Hang(spine, inner) == Hang(left, result)
      decreases |left|
    {
      var (dict, part) := left[|left| - 1];
      result := Dict(dict[part := result]);
      left := left[..|left| - 1];
    }
  }

  /** _set_dotted: walk down creating dicts and store the value in the last one. */
  method SetDotted(target: Tree, dotted: string, value: Tree) returns (result: Tree)
    requires target.Dict?
    ensures result == SetPath(target, Split(dotted, DOT), value)
  {
    var parts := Split(dotted, DOT);
    var node, spine := Descend(target, parts);
    result := HangUp(spine, Dict(node.m[parts[|parts| - 1] := value]));
  }

  /** A dict on the way down and the key under which its child hangs. */
  type Hook = (map<string, Tree>, string)

  /** The dicts on the way down, innermost last, each with its child replaced. */
  ghost function Hang(spine: seq<Hook>, inner: Tree): Tree
  {
    if spine == [] then inner
    else
      var (dict, key) := spine[|spine| - 1];
      Hang(spine[..|spine| - 1], Dict(dict[key := inner]))
  }

  ghost predicate Comparable(p: Path, q: Path)
  {
    p <= q || q <= p
  }

  lemma {:induction false} GetAtOrBelow(t: Tree, q: Path, v: Tree, p: Path)
    requires t.Dict? && q != [] && q <= p
    ensures Get(SetPath(t, q, v), p) == Get(v, p[|q|..])
    decreases q
  {
    if |q| > 1 {
      assert p[1..][|q| - 1..] == p[|q|..];
      GetAtOrBelow(ChildDict(t, q[0]), q[1..], v, p[1..]);
    }
  }

  lemma {:induction false} GetAbove(t: Tree, q: Path, v: Tree, p: Path)
    requires t.Dict? && p < q
    ensures var r := Get(SetPath(t, q, v), p); r.Some? && !Terminal(r.value)
    decreases q
  {
    if p != [] {
      GetAbove(ChildDict(t, q[0]), q[1..], v, p[1..]);
    }
  }

  /** Writing at q leaves every path alone that is neither above nor below it. */
  lemma {:induction false} GetAside(t: Tree, q: Path, v: Tree, p: Path)
    requires t.Dict? && q != [] && !Comparable(p, q)
    ensures Get(SetPath(t, q, v), p) == Get(t, p)
    decreases q
  {
    if p[0] == q[0] {
      assert |q| > 1 && |p| > 1;
      assert !Comparable(p[1..], q[1..]) by {
        assert p == [p[0]] + p[1..] && q == [q[0]] + q[1..];
      }
      GetAside(ChildDict(t, q[0]), q[1..], v, p[1..]);
    }
  }

  // ---- Rebuilding ----

  type Pair = (Path, Tree)

  /** Folding the writes of a list of path/value pairs into an empty configuration. */
  function Rebuild(pairs: seq<Pair>): (t: Tree)
    requires forall i :: 0 <= i < |pairs| ==> pairs[i].0 != []
    ensures t.Dict?
  {
    if pairs == [] then EMPTY
    else
      var last := pairs[|pairs| - 1];
      SetPath(Rebuild(pairs[..|pairs| - 1]), last.0, last.1)
  }

  /** Terminal values at paths none of which leads through another. */
  ghost predicate PrefixFree(pairs: seq<Pair>)
  {
    && (forall i :: 0 <= i < |pairs| ==> pairs[i].0 != [] && Terminal(pairs[i].1))
    && (forall i, j :: 0 <= i < |pairs| && 0 <= j < |pairs| && Comparable(pairs[i].0, pairs[j].0) ==>
        pairs[i] == pairs[j])
  }

  /** A prefix-free list of writes yields a tree with exactly those leaves. */
  lemma {:induction false} RebuildLeaves(pairs: seq<Pair>)
    requires PrefixFree(pairs)
    ensures forall p, v :: LeafIs(Rebuild(pairs), p, v) <==> (p, v) in pairs
  {
    if pairs != [] {
      var n := |pairs| - 1;
      var init := pairs[..n];
      var (q, w) := pairs[n];
      RebuildLeaves(init);
      var t := Rebuild(init);
      assert pairs[n] == (q, w);
      forall p, v
        ensures LeafIs(SetPath(t, q, w), p, v) <==> (p, v) in pairs
      {
        assert (p, v) in pairs <==> (p, v) in init || (p, v) == (q, w);
        if (p, v) in init {
          var i :| 0 <= i < n && pairs[i] == (p, v);
          assert Comparable(pairs[i].0, pairs[n].0) ==> pairs[i] == pairs[n];
        }
        if q <= p {
          GetAtOrBelow(t, q, w, p);
          assert p[|q|..] != [] ==> Get(w, p[|q|..]) == None;
          assert p[|q|..] == [] ==> p == q;
        } else if p < q {
          GetAbove(t, q, w, p);
        } else {
          GetAside(t, q, w, p);
        }
      }
    }
  }

  lemma {:induction false} SomeLeafBelow(t: Tree) returns (p: Path)
    requires t.Dict? && t.m != map[]
    ensures HasLeaf(t, p)
  {
    var k :| k in t.m;
    if Terminal(t.m[k]) {
      p := [k];
    } else {
      var q := SomeLeafBelow(t.m[k]);
      p := [k] + q;
    }
  }

  lemma {:induction false} GetKey(t: Tree, k: string)
    requires t.Dict?
    ensures Get(t, [k]) == if k in t.m then Some(t.m[k]) else None
  {
    assert [k][1..] == [];
  }

  lemma {:induction false} LeavesDetermineOneWay(t: Tree, u: Tree, k: string)
    requires t.Dict? && u.Dict? && k in t.m
    requires forall p, v :: LeafIs(t, p, v) <==> LeafIs(u, p, v)
    ensures k in u.m && t.m[k] == u.m[k]
    decreases t, 0
  {
    GetKey(t, k);
    GetKey(u, k);
    if Terminal(t.m[k]) {
      assert LeafIs(t, [k], t.m[k]);
    } else {
      var p := SomeLeafBelow(t.m[k]);
      assert ([k] + p)[1..] == p;
      assert LeafIs(t, [k] + p, Get(t.m[k], p).value);
      assert LeafIs(u, [k] + p, Get(t.m[k], p).value);
      assert Get(u.m[k], p).Some? && u.m[k].Dict?;
      forall q, v
        ensures LeafIs(t.m[k], q, v) <==> LeafIs(u.m[k], q, v)
      {
        if q != [] {
          assert ([k] + q)[1..] == q;
          assert LeafIs(t, [k] + q, v) <==> LeafIs(t.m[k], q, v);
          assert LeafIs(u, [k] + q, v) <==> LeafIs(u.m[k], q, v);
        }
      }
      LeavesDetermine(t.m[k], u.m[k]);
    }
  }

  /** A configuration is determined by its leaves. */
  lemma {:induction false} LeavesDetermine(t: Tree, u: Tree)
    requires t.Dict? && u.Dict?
    requires forall p, v :: LeafIs(t, p, v) <==> LeafIs(u, p, v)
    ensures t == u
    decreases t, 1
  {
    forall k | k in t.m
      ensures k in u.m && t.m[k] == u.m[k]
    {
      LeavesDetermineOneWay(t, u, k);
    }
    forall k | k in u.m
      ensures k in t.m
    {
      GetKey(t, k);
      GetKey(u, k);
      if Terminal(u.m[k]) {
        assert LeafIs(u, [k], u.m[k]);
      } else {
        var p := SomeLeafBelow(u.m[k]);
        assert ([k] + p)[1..] == p;
        assert LeafIs(u, [k] + p, Get(u.m[k], p).value);
        assert LeafIs(t, [k] + p, Get(u.m[k], p).value);
      }
    }
    assert t.m == u.m;
  }

  /** The leaves of a tree never lead through one another. */
  lemma {:induction false} LeavesPrefixFree(t: Tree, p: Path, v: Tree, q: Path, w: Tree)
    requires LeafIs(t, p, v) && LeafIs(t, q, w) && p <= q
    ensures p == q && v == w
  {
    GetAppend(t, p, q[|p|..]);
    assert p + q[|p|..] == q;
  }

  /** Rebuilding from the leaves, listed in any order and with any repetition, gives the tree back. */
  lemma {:induction false} FlattenRebuild(t: Tree, pairs: seq<Pair>)
    requires t.Dict?
    requires forall p, v :: (p, v) in pairs <==> LeafIs(t, p, v)
    ensures (forall i :: 0 <= i < |pairs| ==> pairs[i].0 != []) && Rebuild(pairs) == t
  {
    forall i | 0 <= i < |pairs|
      ensures LeafIs(t, pairs[i].0, pairs[i].1)
    {
      assert (pairs[i].0, pairs[i].1) in pairs;
    }
    forall i, j | 0 <= i < |pairs| && 0 <= j < |pairs| && Comparable(pairs[i].0, pairs[j].0)
      ensures pairs[i] == pairs[j]
    {
      if pairs[i].0 <= pairs[j].0 {
        LeavesPrefixFree(t, pairs[i].0, pairs[i].1, pairs[j].0, pairs[j].1);
      } else {
        LeavesPrefixFree(t, pairs[j].0, pairs[j].1, pairs[i].0, pairs[i].1);
      }
    }
    RebuildLeaves(pairs);
    LeavesDetermine(Rebuild(pairs), t);
  }

  /** The writes that folding _set_dotted over a list of dotted leaves performs. */
  function AtPaths(leaves: seq<(string, Tree)>): (pairs: seq<Pair>)
    ensures |pairs| == |leaves| && forall i :: 0 <= i < |pairs| ==> pairs[i].0 != []
  {
    seq(|leaves|, i requires 0 <= i < |leaves| => (Split(leaves[i].0, DOT), leaves[i].1))
  }

  /** The same over dotted names: any listing of the dotted leaves rebuilds a tree whose keys hold no dot. */
  lemma {:induction false} FlattenRebuildDotted(t: Tree, leaves: seq<(string, Tree)>)
    requires t.Dict? && DotFree(t)
    requires forall d, v :: (d, v) in leaves <==> exists p :: LeafIs(t, p, v) && Dotted(p) == d
    ensures Rebuild(AtPaths(leaves)) == t
  {
    var pairs := AtPaths(leaves);
    forall p, v
      ensures (p, v) in pairs <==> LeafIs(t, p, v)
    {
      if LeafIs(t, p, v) {
        DotFreePath(t, p);
        SplitOfJoin(p, DOT);
        assert (Dotted(p), v) in leaves;
        var i :| 0 <= i < |leaves| && leaves[i] == (Dotted(p), v);
        assert pairs[i] == (p, v);
      }
      if (p, v) in pairs {
        var i :| 0 <= i < |pairs| && pairs[i] == (p, v);
        assert (leaves[i].0, leaves[i].1) in leaves;
        var q :| LeafIs(t, q, v) && Dotted(q) == leaves[i].0;
        DotFreePath(t, q);
        SplitOfJoin(q, DOT);
      }
    }
    FlattenRebuild(t, pairs);
  }

  // ---- The environment layer ----

  /** Each variable the resolver reads, with the key path it sets. */
  const ENV_MAP: seq<(string, Path)> := [
    ("OPENCONTEXT_PROFILE", ["profile"]),
    ("OPENCONTEXT_SECURITY_MODE", ["security", "mode"]),
    ("OPENCONTEXT_PROVIDER_STRATEGY", ["providers", "strategy"]),
    ("OPENCONTEXT_UI_LANGUAGE", ["ui_language"]),
    ("OPENCONTEXT_TDD_MODE", ["harness", "tdd_mode"]),
    ("OPENCONTEXT_STORAGE_MODE", ["storage", "mode"])
  ]

  ghost predicate TablePrefixFree(table: seq<(string, Path)>)
  {
    && (forall i :: 0 <= i < |table| ==> table[i].1 != [] && AllFree(table[i].1, DOT))
    && (forall i, j :: 0 <= i < |table| && 0 <= j < |table| && Comparable(table[i].1, table[j].1) ==> i == j)
  }

  /** Entry i of the table puts v at p. */
  ghost predicate Sets(table: seq<(string, Path)>, env: map<string, string>, i: int, p: Path, v: Tree)
  {
    && 0 <= i < |table| && table[i].0 in env && env[table[i].0] != ""
    && p == table[i].1 && v == Leaf(Str(env[table[i].0]))
  }

  /** The loop of _env_overrides, over any such table. */
  method Overrides(table: seq<(string, Path)>, env: map<string, string>) returns (out: Tree)
    requires TablePrefixFree(table)
    ensures out.Dict?
    ensures forall p, v :: LeafIs(out, p, v) <==> exists i :: Sets(table, env, i, p, v)
  {
    out := EMPTY;
    ghost var pairs: seq<Pair> := [];
    for i := 0 to |table|
      invariant forall k :: 0 <= k < |pairs| ==> pairs[k].0 != [] && Terminal(pairs[k].1)
      invariant out == Rebuild(pairs)
      invariant forall p, v :: (p, v) in pairs <==> exists k :: k < i && Sets(table, env, k, p, v)
    {
      var (name, path) := table[i];
      if name in env && env[name] != "" {
        var value := Leaf(Str(env[name]));
        SplitOfJoin(path, DOT);
        out := SetDotted(out, Dotted(path), value);
        ghost var longer := pairs + [(path, value)];
        assert longer[..|pairs|] == pairs;
        assert forall p, v :: (p, v) in longer <==> (p, v) in pairs || (p == path && v == value);
        pairs := longer;
        assert Sets(table, env, i, path, value);
      }
    }
    forall i, j | 0 <= i < |pairs| && 0 <= j < |pairs| && Comparable(pairs[i].0, pairs[j].0)
      ensures pairs[i] == pairs[j]
    {
      assert (pairs[i].0, pairs[i].1) in pairs && (pairs[j].0, pairs[j].1) in pairs;
    }
    RebuildLeaves(pairs);
  }

  /** _env_overrides: the layer's leaves are exactly the variables that are set and not empty. */
  method EnvOverrides(env: map<string, string>) returns (out: Tree)
    ensures out.Dict?
    ensures forall p, v :: LeafIs(out, p, v) <==> exists i :: Sets(ENV_MAP, env, i, p, v)
  {
    EnvMapPrefixFree();
    out := Overrides(ENV_MAP, env);
  }

  /** No mapped key path leads through another, and no key holds a dot. */
  lemma {:induction false} EnvMapPrefixFree()
    ensures TablePrefixFree(ENV_MAP)
  {
    EnvKeysFree();
    var firsts := ["profile", "security", "providers", "ui_language", "harness", "storage"];
    assert forall i :: 0 <= i < 6 ==> ENV_MAP[i].1[0] == firsts[i] && |firsts[i]| > 0;
    assert forall i, j :: 0 <= i < j < 6 ==> |firsts[i]| != |firsts[j]| || firsts[i][0] != firsts[j][0];
    forall i, j | 0 <= i < 6 && 0 <= j < 6 && Comparable(ENV_MAP[i].1, ENV_MAP[j].1)
      ensures i == j
    {
      assert ENV_MAP[i].1[0] == ENV_MAP[j].1[0];
    }
  }

  /** The variables and the dotted keys they set, in full. */
  lemma {:induction false} EnvMapInFull()
    ensures |ENV_MAP| == 6
    ensures ENV_MAP[0].0 == "OPENCONTEXT_PROFILE" && Dotted(ENV_MAP[0].1) == "profile"
    ensures ENV_MAP[1].0 == "OPENCONTEXT_SECURITY_MODE" && Dotted(ENV_MAP[1].1) == "security.mode"
    ensures ENV_MAP[2].0 == "OPENCONTEXT_PROVIDER_STRATEGY" && Dotted(ENV_MAP[2].1) == "providers.strategy"
    ensures ENV_MAP[3].0 == "OPENCONTEXT_UI_LANGUAGE" && Dotted(ENV_MAP[3].1) == "ui_language"
    ensures ENV_MAP[4].0 == "OPENCONTEXT_TDD_MODE" && Dotted(ENV_MAP[4].1) == "harness.tdd_mode"
    ensures ENV_MAP[5].0 == "OPENCONTEXT_STORAGE_MODE" && Dotted(ENV_MAP[5].1) == "storage.mode"
  {
    DottedTwo("security", "mode");
    DottedTwo("providers", "strategy");
    DottedTwo("harness", "tdd_mode");
    DottedTwo("storage", "mode");
  }

  lemma {:induction false} DottedTwo(a: string, b: string)
    ensures Dotted([a, b]) == a + "." + b
  {
    assert [a, b][1..] == [b] && Join([b], DOT) == b;
    assert a + [DOT] + b == a + "." + b;
  }

  lemma {:induction false} EnvKeysFree()
    ensures forall i :: 0 <= i < |ENV_MAP| ==> ENV_MAP[i].1 != [] && AllFree(ENV_MAP[i].1, DOT)
  {
    assert Free("profile", DOT) && Free("security", DOT) && Free("mode", DOT) && Free("providers", DOT);
    assert Free("strategy", DOT) && Free("ui_language", DOT) && Free("harness", DOT) && Free("tdd_mode", DOT);
    assert Free("storage", DOT);
  }
}
