/**
  Writing along a key path in a parsed document whose dicts may be shared, as YAML aliases
  make them: what the walk of set_yaml_key changes, and when that is the write at one path
  of the tree that the other modules speak of.
*/
module SharedDicts {
  import opened ConfigLeaves
  import opened ConfigTree
  import opened Options

  /** What stands under a key: a value of its own, or one of the document's dicts. */
  datatype Slot = Own(value: Tree) | Link(node: nat)

  /** The dicts of a document by number; the document itself is number 0. */
  type Store = seq<map<string, Slot>>

  /** Links lead to dicts with higher numbers only, so that there is no cycle; other values are scalars. */
  predicate Sound(s: Store)
  {
    forall n, k :: 0 <= n < |s| && k in s[n] ==> SlotSound(s, n, s[n][k])
  }

  predicate SlotSound(s: Store, n: int, slot: Slot)
  {
    slot.Link? ==> n < slot.node < |s|
  }

  /** No dict hides in a value. */
  ghost predicate Plain(s: Store)
  {
    forall n, k :: 0 <= n < |s| && k in s[n] && s[n][k].Own? ==> s[n][k].value.Leaf?
  }

  /** The tree that dict n stands for. */
  function Unfold(s: Store, n: nat): (t: Tree)
    requires Sound(s) && n < |s|
    ensures t.Dict? && t.m.Keys == s[n].Keys
    decreases |s| - n
  {
    Dict(map k | k in s[n] :: assert SlotSound(s, n, s[n][k]);
                              match s[n][k] case Own(v) => v case Link(m) => Unfold(s, m))
  }

  /** Following links, path q leads from dict n to dict m. */
  ghost predicate Leads(s: Store, n: int, q: Path, m: int)
    decreases q
  {
    if q == [] then n == m
    else 0 <= n < |s| && q[0] in s[n] && s[n][q[0]].Link? && Leads(s, s[n][q[0]].node, q[1..], m)
  }

  /** Going on, the numbers rise. */
  lemma {:induction false} LeadsUp(s: Store, n: nat, q: Path, m: int)
    requires Sound(s) && n < |s| && Leads(s, n, q, m)
    ensures n <= m < |s| && (q != [] ==> n < m)
    decreases q
  {
    if q != [] {
      assert SlotSound(s, n, s[n][q[0]]);
      LeadsUp(s, s[n][q[0]].node, q[1..], m);
    }
  }

  // ---- The walk ----

  /** The last dict on the way that is there already, and the part of the path that is left. */
  function StopAt(s: Store, n: nat, p: Path): (r: (nat, Path))
    requires p != []
    ensures r.1 != [] && |r.1| <= |p|
    decreases p
  {
    if |p| > 1 && n < |s| && p[0] in s[n] && s[n][p[0]].Link? then
      StopAt(s, s[n][p[0]].node, p[1..])
    else (n, p)
  }

  /** The walk with its write, from dict n on. */
  function Written(s: Store, n: nat, p: Path, v: Tree): Store
    requires p != []
    decreases p
  {
    if n >= |s| then s
    else if |p| == 1 then s[n := s[n][p[0] := Own(v)]]
    else if p[0] in s[n] && s[n][p[0]].Link? then Written(s, s[n][p[0]].node, p[1..], v)
    else Written(s[n := s[n][p[0] := Link(|s|)]] + [map[]], |s|, p[1..], v)
  }

  class Document {
    var store: Store

    constructor (store: Store)
      ensures this.store == store
    {
      this.store := store;
    }

    /**
      The loop of set_yaml_key: cursor walks down, putting an empty dict where there is none,
      and the value is stored.
    */
    method Write(parts: Path, value: Tree)
      requires Sound(store) && store != [] && parts != []
      modifies this
      ensures store == Written(old(store), 0, parts, value)
    {
      var cursor: nat := 0;
      for i := 0 to |parts| - 1
        invariant cursor < |store| && Sound(store)
        invariant Written(store, cursor, parts[i..], value) == Written(old(store), 0, parts, value)
      {
        var part := parts[i];
        assert parts[i..][1..] == parts[i + 1..];
        if part in store[cursor] && store[cursor][part].Link? {
          assert SlotSound(store, cursor, store[cursor][part]);
          cursor := store[cursor][part].node;
        } else {
          SoundGrown(store, cursor, part);
          store := store[cursor := store[cursor][part := Link(|store|)]] + [map[]];
          cursor := |store| - 1;
        }
      }
      assert parts[|parts| - 1..] == [parts[|parts| - 1]];
      store := store[cursor := store[cursor][parts[|parts| - 1] := Own(value)]];
    }
  }

  lemma {:induction false} SoundGrown(s: Store, n: nat, key: string)
    requires Sound(s) && n < |s|
    ensures Sound(s[n := s[n][key := Link(|s|)]] + [map[]])
  {
    var t := s[n := s[n][key := Link(|s|)]] + [map[]];
    forall i, k | 0 <= i < |t| && k in t[i]
      ensures SlotSound(t, i, t[i][k])
    {
      assert i < |s| && ((i == n && k == key) || SlotSound(s, i, s[i][k]));
    }
  }

  // ---- What it changes ----

  /** The tree of dict n with w put under a key of dict m wherever that dict shows. */
  ghost function Rewritten(s: Store, n: nat, m: nat, key: string, w: Tree): (t: Tree)
    requires Sound(s) && n < |s|
    ensures t.Dict? && t.m.Keys == s[n].Keys + if n == m then {key} else {}
    decreases |s| - n
  {
    var keys := s[n].Keys + if n == m then {key} else {};
    Dict(map k | k in keys :: if n == m && k == key then w else
                                assert SlotSound(s, n, s[n][k]);
                                match s[n][k] case Own(v) => v case Link(c) => Rewritten(s, c, m, key, w))
  }

  /** t is s with one slot changed, and possibly more dicts after the old ones. */
  ghost predicate OneSlot(s: Store, t: Store, m: nat, key: string)
  {
    && m < |s| <= |t| && key in t[m]
    && t[m] == s[m][key := t[m][key]]
    && forall n :: 0 <= n < |s| && n != m ==> t[n] == s[n]
  }

  ghost function SlotTree(s: Store, slot: Slot): Tree
    requires Sound(s) && (slot.Link? ==> slot.node < |s|)
  {
    match slot case Own(v) => v case Link(c) => Unfold(s, c)
  }

  lemma {:induction false} UnfoldChanged(s: Store, t: Store, n: nat, m: nat, key: string)
    requires Sound(s) && Sound(t) && n < |s| && OneSlot(s, t, m, key)
    ensures SlotSound(t, m, t[m][key])
    ensures Unfold(t, n) == Rewritten(s, n, m, key, SlotTree(t, t[m][key]))
    decreases |s| - n
  {
    assert SlotSound(t, m, t[m][key]);
    var w := SlotTree(t, t[m][key]);
    var a, b := Unfold(t, n), Rewritten(s, n, m, key, w);
    forall k | k in a.m
      ensures a.m[k] == b.m[k]
    {
      assert SlotSound(t, n, t[n][k]);
      if !(n == m && k == key) {
        assert SlotSound(s, n, s[n][k]);
        if s[n][k].Link? {
          UnfoldChanged(s, t, s[n][k].node, m, key);
        }
      }
    }
    assert a.m.Keys == b.m.Keys;
    assert a.m == b.m;
  }

  /** Writing into a fresh dict at the end of the store. */
  lemma {:induction false} WriteFresh(s: Store, p: Path, v: Tree)
    requires Sound(s) && s != [] && s[|s| - 1] == map[] && p != []
    ensures var t := Written(s, |s| - 1, p, v);
            && Sound(t) && |t| >= |s| && t[..|s| - 1] == s[..|s| - 1]
            && Unfold(t, |s| - 1) == SetPath(EMPTY, p, v)
    decreases p
  {
    var n := |s| - 1;
    var t := Written(s, n, p, v);
    if |p| == 1 {
      OwnSound(s, n, p[0], v);
    } else {
      var u := s[n := s[n][p[0] := Link(|s|)]] + [map[]];
      SoundGrown(s, n, p[0]);
      WriteFresh(u, p[1..], v);
      assert t[n] == t[..|s|][n] == u[n];
      assert t[..n] == t[..|s|][..n] == u[..n];
      assert SetPath(EMPTY, p, v) == Dict(map[p[0] := SetPath(EMPTY, p[1..], v)]);
      assert Unfold(t, n).m == map[p[0] := Unfold(t, |s|)];
    }
  }

  lemma {:induction false} OwnSound(s: Store, n: nat, key: string, v: Tree)
    requires Sound(s) && n < |s|
    ensures Sound(s[n := s[n][key := Own(v)]])
  {
    var t := s[n := s[n][key := Own(v)]];
    forall i, k | 0 <= i < |t| && k in t[i]
      ensures SlotSound(t, i, t[i][k])
    {
      assert (i == n && k == key) || SlotSound(s, i, s[i][k]);
    }
  }

  /** What a walk that stops with this much of the path left puts under the next key. */
  function Put(left: Path, v: Tree): Tree
    requires left != []
  {
    if |left| == 1 then v else SetPath(EMPTY, left[1..], v)
  }

  lemma {:induction false} StopInside(s: Store, n: nat, p: Path)
    requires Sound(s) && n < |s| && p != []
    ensures StopAt(s, n, p).0 < |s|
    ensures Leads(s, n, p[..|p| - |StopAt(s, n, p).1|], StopAt(s, n, p).0)
    decreases p
  {
    if |p| > 1 && p[0] in s[n] && s[n][p[0]].Link? {
      assert SlotSound(s, n, s[n][p[0]]);
      StopInside(s, s[n][p[0]].node, p[1..]);
      var d := |p| - |StopAt(s, n, p).1|;
      assert p[..d][1..] == p[1..][..d - 1];
    } else {
      assert p[..0] == [];
    }
  }

  /** From s to t one slot of dict m has changed, and shows Put. */
  ghost predicate Shows(s: Store, t: Store, m: nat, left: Path, v: Tree)
    requires left != []
  {
    && Sound(t) && OneSlot(s, t, m, left[0])
    && SlotSound(t, m, t[m][left[0]]) && SlotTree(t, t[m][left[0]]) == Put(left, v)
  }

  lemma {:induction false} OwnShows(s: Store, n: nat, key: string, v: Tree)
    requires Sound(s) && n < |s|
    ensures Shows(s, s[n := s[n][key := Own(v)]], n, [key], v)
  {
    OwnSound(s, n, key, v);
    var t := s[n := s[n][key := Own(v)]];
    assert SlotSound(t, n, t[n][key]);
  }

  /** The walk changes one slot of one dict that was there before, and shows Put under that key. */
  lemma {:induction false} WrittenShows(s: Store, n: nat, p: Path, v: Tree)
    requires Sound(s) && n < |s| && p != []
    ensures Shows(s, Written(s, n, p, v), StopAt(s, n, p).0, StopAt(s, n, p).1, v)
    decreases p
  {
    hide Shows;
    if |p| == 1 {
      OwnShows(s, n, p[0], v);
      assert p == [p[0]];
    } else if p[0] in s[n] && s[n][p[0]].Link? {
      assert SlotSound(s, n, s[n][p[0]]);
      WrittenShows(s, s[n][p[0]].node, p[1..], v);
    } else {
      StepsOff(s, n, p, v);
    }
  }

  /** The walk finds no dict to step into and makes one. */
  lemma {:induction false} StepsOff(s: Store, n: nat, p: Path, v: Tree)
    requires Sound(s) && n < |s| && |p| > 1
    ensures var t := Written(s[n := s[n][p[0] := Link(|s|)]] + [map[]], |s|, p[1..], v);
            Shows(s, t, n, p, v)
  {
    var u := s[n := s[n][p[0] := Link(|s|)]] + [map[]];
    SoundGrown(s, n, p[0]);
    WriteFresh(u, p[1..], v);
    hide Written, Unfold;
    var t := Written(u, |s|, p[1..], v);
    forall i | 0 <= i < |s|
      ensures t[i] == u[i]
    {
      assert t[i] == t[..|s|][i] == u[..|s|][i];
    }
    assert u[n] == s[n][p[0] := Link(|s|)];
    assert SlotSound(t, n, t[n][p[0]]);
  }

  /** The document after the walk: Put shows under the next key wherever the dict it stopped at shows. */
  lemma {:induction false} WriteEffect(s: Store, p: Path, v: Tree)
    requires Sound(s) && s != [] && p != []
    ensures Sound(Written(s, 0, p, v)) && Written(s, 0, p, v) != []
    ensures var (m, left) := StopAt(s, 0, p);
            Unfold(Written(s, 0, p, v), 0) == Rewritten(s, 0, m, left[0], Put(left, v))
  {
    var (m, left) := StopAt(s, 0, p);
    WrittenShows(s, 0, p, v);
    UnfoldChanged(s, Written(s, 0, p, v), 0, m, left[0]);
  }

  // ---- When it is the write at one path ----

  /** Path q leads to dict m, and w does not show there under the key yet. */
  ghost predicate Alters(s: Store, n: nat, q: Path, m: int, key: string, w: Tree)
    requires Sound(s) && n < |s|
  {
    Leads(s, n, q, m) && Get(Unfold(s, n), q + [key]) != Some(w)
  }

  lemma {:induction false} AltersBelow(s: Store, n: nat, k: string, q: Path, m: int, key: string, w: Tree)
    requires Sound(s) && n < |s| && k in s[n] && s[n][k].Link?
    ensures SlotSound(s, n, s[n][k])
    ensures Alters(s, n, [k] + q, m, key, w) <==> Alters(s, s[n][k].node, q, m, key, w)
  {
    assert SlotSound(s, n, s[n][k]);
    var p := [k] + q;
    assert p[0] == k && p[1..] == q && (p + [key])[1..] == q + [key];
  }

  /** Rewriting a dict changes the tree exactly if some path to it did not show the value. */
  lemma {:induction false} SameUnlessAltered(s: Store, n: nat, m: nat, key: string, w: Tree)
    requires Sound(s) && n < |s|
    ensures Rewritten(s, n, m, key, w) == Unfold(s, n) <==> forall q :: !Alters(s, n, q, m, key, w)
    decreases |s| - n
  {
    var a, b := Rewritten(s, n, m, key, w), Unfold(s, n);
    forall k | k in s[n] && s[n][k].Link?
      ensures SlotSound(s, n, s[n][k])
      ensures Rewritten(s, s[n][k].node, m, key, w) == Unfold(s, s[n][k].node)
              <==> forall q :: !Alters(s, s[n][k].node, q, m, key, w)
    {
      assert SlotSound(s, n, s[n][k]);
      SameUnlessAltered(s, s[n][k].node, m, key, w);
    }
    if n == m {
      SameAtStop(s, n, key, w);
    } else {
      SameAbove(s, n, m, key, w);
    }
  }

  /** From the dict itself no path leads back to it. */
  lemma {:induction false} SameAtStop(s: Store, n: nat, key: string, w: Tree)
    requires Sound(s) && n < |s|
    ensures Rewritten(s, n, n, key, w) == Dict(Unfold(s, n).m[key := w])
    ensures forall q :: Alters(s, n, q, n, key, w) ==> q == []
    ensures Rewritten(s, n, n, key, w) == Unfold(s, n) <==> forall q :: !Alters(s, n, q, n, key, w)
  {
    var a, b := Rewritten(s, n, n, key, w), Unfold(s, n);
    forall k | k in s[n] && k != key
      ensures a.m[k] == b.m[k]
    {
      assert SlotSound(s, n, s[n][k]);
      if s[n][k].Link? {
        NotReached(s, s[n][k].node, n, key, w);
      }
    }
    assert a.m == b.m[key := w];
    forall q | Alters(s, n, q, n, key, w)
      ensures q == []
    {
      LeadsUp(s, n, q, n);
    }
    GetKey(b, key);
    assert [] + [key] == [key];
    assert Alters(s, n, [], n, key, w) <==> !(key in b.m && b.m[key] == w);
    assert key in b.m && b.m[key] == w ==> b.m[key := w] == b.m;
  }

  /** Dicts with higher numbers do not show it. */
  lemma {:induction false} NotReached(s: Store, n: nat, m: nat, key: string, w: Tree)
    requires Sound(s) && m < n < |s|
    ensures Rewritten(s, n, m, key, w) == Unfold(s, n)
    decreases |s| - n
  {
    var a, b := Rewritten(s, n, m, key, w), Unfold(s, n);
    forall k | k in s[n]
      ensures a.m[k] == b.m[k]
    {
      assert SlotSound(s, n, s[n][k]);
      if s[n][k].Link? {
        NotReached(s, s[n][k].node, m, key, w);
      }
    }
    assert a.m == b.m;
  }

  /** Every link whose dict is rewritten to itself. */
  ghost predicate LinkSame(s: Store, n: nat, k: string, m: nat, key: string, w: Tree)
    requires Sound(s) && n < |s| && k in s[n]
  {
    s[n][k].Link? ==> SlotSound(s, n, s[n][k]) && Rewritten(s, s[n][k].node, m, key, w) == Unfold(s, s[n][k].node)
  }

  lemma {:induction false} SameAbove(s: Store, n: nat, m: nat, key: string, w: Tree)
    requires Sound(s) && n < |s| && n != m
    requires forall k :: k in s[n] && s[n][k].Link? ==>
                           SlotSound(s, n, s[n][k])
                           && (Rewritten(s, s[n][k].node, m, key, w) == Unfold(s, s[n][k].node)
                               <==> forall q :: !Alters(s, s[n][k].node, q, m, key, w))
    ensures Rewritten(s, n, m, key, w) == Unfold(s, n) <==> forall q :: !Alters(s, n, q, m, key, w)
  {
    SameByLinks(s, n, m, key, w);
    AltersByLinks(s, n, m, key, w);
    forall k | k in s[n]
      ensures LinkSame(s, n, k, m, key, w) <==> LinkQuiet(s, n, k, m, key, w)
    {
    }
  }

  /** No path through the link alters anything. */
  ghost predicate LinkQuiet(s: Store, n: nat, k: string, m: nat, key: string, w: Tree)
    requires Sound(s) && n < |s| && k in s[n]
  {
    s[n][k].Link? ==> SlotSound(s, n, s[n][k]) && forall q :: !Alters(s, s[n][k].node, q, m, key, w)
  }

  lemma {:induction false} SameByLinks(s: Store, n: nat, m: nat, key: string, w: Tree)
    requires Sound(s) && n < |s| && n != m
    ensures Rewritten(s, n, m, key, w) == Unfold(s, n) <==> forall k :: k in s[n] ==> LinkSame(s, n, k, m, key, w)
  {
    var a, b := Rewritten(s, n, m, key, w), Unfold(s, n);
    forall k | k in s[n]
      ensures a.m[k] == b.m[k] <==> LinkSame(s, n, k, m, key, w)
    {
      assert SlotSound(s, n, s[n][k]);
    }
    if forall k :: k in s[n] ==> LinkSame(s, n, k, m, key, w) {
      assert a.m == b.m;
    }
  }

  lemma {:induction false} AltersByLinks(s: Store, n: nat, m: nat, key: string, w: Tree)
    requires Sound(s) && n < |s| && n != m
    ensures (forall q :: !Alters(s, n, q, m, key, w)) <==> forall k :: k in s[n] ==> LinkQuiet(s, n, k, m, key, w)
  {
    forall q | Alters(s, n, q, m, key, w)
      ensures q != [] && q[0] in s[n] && !LinkQuiet(s, n, q[0], m, key, w)
    {
      AltersBelow(s, n, q[0], q[1..], m, key, w);
      assert q == [q[0]] + q[1..];
    }
    forall k | k in s[n] && !LinkQuiet(s, n, k, m, key, w)
      ensures exists q :: Alters(s, n, q, m, key, w)
    {
      assert SlotSound(s, n, s[n][k]);
      var q :| Alters(s, s[n][k].node, q, m, key, w);
      AltersBelow(s, n, k, q, m, key, w);
    }
  }

  /** Only the path at, if any, is altered. */
  ghost predicate OnlyAt(s: Store, n: nat, at: Path, m: nat, key: string, w: Tree)
    requires Sound(s) && n < |s|
  {
    forall q :: Alters(s, n, q, m, key, w) ==> q == at
  }

  lemma {:induction false} OnlyAtByLinks(s: Store, n: nat, at: Path, m: nat, key: string, w: Tree)
    requires Sound(s) && n < |s| && n != m && at != [] && at[0] in s[n] && s[n][at[0]].Link?
    ensures SlotSound(s, n, s[n][at[0]])
    ensures OnlyAt(s, n, at, m, key, w) <==>
            OnlyAt(s, s[n][at[0]].node, at[1..], m, key, w)
            && forall k :: k in s[n] && k != at[0] ==> LinkQuiet(s, n, k, m, key, w)
  {
    assert SlotSound(s, n, s[n][at[0]]);
    assert at == [at[0]] + at[1..];
    if OnlyAt(s, n, at, m, key, w) {
      forall q | Alters(s, s[n][at[0]].node, q, m, key, w)
        ensures q == at[1..]
      {
        AltersBelow(s, n, at[0], q, m, key, w);
        assert ([at[0]] + q)[1..] == q;
      }
      forall k | k in s[n] && k != at[0]
        ensures LinkQuiet(s, n, k, m, key, w)
      {
        assert SlotSound(s, n, s[n][k]);
        if s[n][k].Link? {
          forall q
            ensures !Alters(s, s[n][k].node, q, m, key, w)
          {
            AltersBelow(s, n, k, q, m, key, w);
            assert ([k] + q)[0] == k;
          }
        }
      }
    }
    if OnlyAt(s, s[n][at[0]].node, at[1..], m, key, w)
       && forall k :: k in s[n] && k != at[0] ==> LinkQuiet(s, n, k, m, key, w) {
      forall q | Alters(s, n, q, m, key, w)
        ensures q == at
      {
        assert q[0] in s[n] && (q[0] != at[0] ==> LinkQuiet(s, n, q[0], m, key, w));
        assert q == [q[0]] + q[1..];
        AltersBelow(s, n, q[0], q[1..], m, key, w);
      }
    }
  }

  /** The stopping dict put right is the write at the rest of the path. */
  lemma {:induction false} WriteAtStop(s: Store, n: nat, p: Path, v: Tree)
    requires Sound(s) && Plain(s) && n < |s| && p != [] && (|p| > 1 ==> !(p[0] in s[n] && s[n][p[0]].Link?))
    ensures Rewritten(s, n, n, p[0], Put(p, v)) == SetPath(Unfold(s, n), p, v)
    ensures OnlyAt(s, n, [], n, p[0], Put(p, v))
  {
    SameAtStop(s, n, p[0], Put(p, v));
    if |p| > 1 {
      assert p[0] in s[n] ==> SlotSound(s, n, s[n][p[0]]);
      assert ChildDict(Unfold(s, n), p[0]) == EMPTY;
    }
  }

  /** The walk is the write at the path exactly when only that path to the dict it stopped at is altered. */
  ghost predicate Exact(s: Store, n: nat, p: Path, v: Tree)
    requires Sound(s) && n < |s| && p != []
  {
    var (m, left) := StopAt(s, n, p);
    && m < |s|
    && (Rewritten(s, n, m, left[0], Put(left, v)) == SetPath(Unfold(s, n), p, v)
        <==> OnlyAt(s, n, p[..|p| - |left|], m, left[0], Put(left, v)))
  }

  lemma {:induction false} WalkIsWrite(s: Store, n: nat, p: Path, v: Tree)
    requires Sound(s) && Plain(s) && n < |s| && p != []
    ensures Exact(s, n, p, v)
    decreases p
  {
    if |p| > 1 && p[0] in s[n] && s[n][p[0]].Link? {
      assert SlotSound(s, n, s[n][p[0]]);
      WalkIsWrite(s, s[n][p[0]].node, p[1..], v);
      WalkStep(s, n, p, v);
    } else {
      WriteAtStop(s, n, p, v);
      assert p[..0] == [];
    }
  }

  lemma {:induction false} QuietIsSame(s: Store, n: nat, m: nat, key: string, w: Tree)
    requires Sound(s) && n < |s|
    ensures forall k :: k in s[n] ==> (LinkSame(s, n, k, m, key, w) <==> LinkQuiet(s, n, k, m, key, w))
  {
    forall k | k in s[n]
      ensures LinkSame(s, n, k, m, key, w) <==> LinkQuiet(s, n, k, m, key, w)
    {
      assert SlotSound(s, n, s[n][k]);
      if s[n][k].Link? {
        SameUnlessAltered(s, s[n][k].node, m, key, w);
      }
    }
  }

  lemma {:induction false} WalkStep(s: Store, n: nat, p: Path, v: Tree)
    requires Sound(s) && Plain(s) && n < |s| && |p| > 1 && p[0] in s[n] && s[n][p[0]].Link?
    requires s[n][p[0]].node < |s| && Exact(s, s[n][p[0]].node, p[1..], v)
    ensures Exact(s, n, p, v)
  {
    hide StopAt, Unfold, Rewritten, SetPath, Leads, Put, OnlyAt;
    StepsBelow(s, n, p);
    var (m, left) := StopAt(s, n, p);
    LinkStep(s, n, p, v, p[..|p| - |left|], m, left[0], Put(left, v));
  }

  lemma {:induction false} LinkStep(s: Store, n: nat, p: Path, v: Tree, at: Path, m: nat, key: string, w: Tree)
    requires Sound(s) && n < |s| && n != m && |p| > 1 && p[0] in s[n] && s[n][p[0]].Link? && s[n][p[0]].node < |s|
    requires at != [] && at[0] == p[0]
    requires Rewritten(s, s[n][p[0]].node, m, key, w) == SetPath(Unfold(s, s[n][p[0]].node), p[1..], v)
             <==> OnlyAt(s, s[n][p[0]].node, at[1..], m, key, w)
    ensures Rewritten(s, n, m, key, w) == SetPath(Unfold(s, n), p, v) <==> OnlyAt(s, n, at, m, key, w)
  {
    hide Unfold, Rewritten, SetPath, Leads, OnlyAt, LinkSame, LinkQuiet;
    OnlyAtByLinks(s, n, at, m, key, w);
    QuietIsSame(s, n, m, key, w);
    EqualByLinks(s, n, p, v, m, key, w);
  }

  /** Having taken a link, the walk stops at a dict with a higher number. */
  lemma {:induction false} StepsBelow(s: Store, n: nat, p: Path)
    requires Sound(s) && n < |s| && |p| > 1 && p[0] in s[n] && s[n][p[0]].Link?
    ensures s[n][p[0]].node < |s| && StopAt(s, n, p) == StopAt(s, s[n][p[0]].node, p[1..])
    ensures n < StopAt(s, n, p).0 && |StopAt(s, n, p).1| < |p|
    ensures p[..|p| - |StopAt(s, n, p).1|][1..] == p[1..][..|p[1..]| - |StopAt(s, n, p).1|]
  {
    var c := s[n][p[0]].node;
    assert SlotSound(s, n, s[n][p[0]]);
    StopInside(s, c, p[1..]);
    LeadsUp(s, c, p[1..][..|p[1..]| - |StopAt(s, c, p[1..]).1|], StopAt(s, c, p[1..]).0);
  }

  lemma {:induction false} EqualByLinks(s: Store, n: nat, p: Path, v: Tree, m: nat, key: string, w: Tree)
    requires Sound(s) && n < |s| && n != m && |p| > 1 && p[0] in s[n] && s[n][p[0]].Link? && s[n][p[0]].node < |s|
    ensures Rewritten(s, n, m, key, w) == SetPath(Unfold(s, n), p, v) <==>
            Rewritten(s, s[n][p[0]].node, m, key, w) == SetPath(Unfold(s, s[n][p[0]].node), p[1..], v)
            && forall k :: k in s[n] && k != p[0] ==> LinkSame(s, n, k, m, key, w)
  {
    var c := s[n][p[0]].node;
    var child := SetPath(Unfold(s, c), p[1..], v);
    assert SlotSound(s, n, s[n][p[0]]);
    assert ChildDict(Unfold(s, n), p[0]) == Unfold(s, c);
    assert SetPath(Unfold(s, n), p, v) == Dict(Unfold(s, n).m[p[0] := child]);
    hide SetPath;
    UpdatedByLinks(s, n, p[0], child, m, key, w);
  }

  lemma {:induction false} SameAtKey(s: Store, n: nat, k: string, m: nat, key: string, w: Tree)
    requires Sound(s) && n < |s| && n != m && k in s[n]
    ensures Rewritten(s, n, m, key, w).m[k] == Unfold(s, n).m[k] <==> LinkSame(s, n, k, m, key, w)
  {
    assert SlotSound(s, n, s[n][k]);
  }

  lemma {:induction false} UpdatedByLinks(s: Store, n: nat, at: string, child: Tree, m: nat, key: string, w: Tree)
    requires Sound(s) && n < |s| && n != m && at in s[n] && s[n][at].Link? && s[n][at].node < |s|
    ensures Rewritten(s, n, m, key, w) == Dict(Unfold(s, n).m[at := child]) <==>
            Rewritten(s, s[n][at].node, m, key, w) == child
            && forall k :: k in s[n] && k != at ==> LinkSame(s, n, k, m, key, w)
  {
    var a, b := Rewritten(s, n, m, key, w).m, Unfold(s, n).m[at := child];
    assert SlotSound(s, n, s[n][at]);
    forall k | k in s[n] && k != at
      ensures a[k] == b[k] <==> LinkSame(s, n, k, m, key, w)
    {
      SameAtKey(s, n, k, m, key, w);
    }
    hide LinkSame;
    assert a[at] == Rewritten(s, s[n][at].node, m, key, w) && b[at] == child;
    hide Rewritten, Unfold;
    if a[at] == b[at] && forall k :: k in s[n] && k != at ==> a[k] == b[k] {
      assert a == b;
    }
  }

  /**
    Hence for the whole document: after the loop of set_yaml_key its tree is the old one
    with that one path written, exactly when every other path to the dict it stopped at
    shows the new value already.
  */
  lemma {:induction false} DocumentWrite(s: Store, p: Path, v: Tree)
    requires Sound(s) && Plain(s) && s != [] && p != []
    ensures Sound(Written(s, 0, p, v)) && Written(s, 0, p, v) != []
    ensures var (m, left) := StopAt(s, 0, p);
            && p == p[..|p| - |left|] + left
            && (Unfold(Written(s, 0, p, v), 0) == SetPath(Unfold(s, 0), p, v)
                <==> OnlyAt(s, 0, p[..|p| - |left|], m, left[0], Put(left, v)))
  {
    StopRest(s, 0, p);
    WriteEffect(s, p, v);
    WalkIsWrite(s, 0, p, v);
  }

  /** What is left at the stop is the end of the path. */
  lemma {:induction false} StopRest(s: Store, n: nat, p: Path)
    requires p != []
    ensures p == p[..|p| - |StopAt(s, n, p).1|] + StopAt(s, n, p).1
    decreases p
  {
    if |p| > 1 && n < |s| && p[0] in s[n] && s[n][p[0]].Link? {
      var left := StopAt(s, s[n][p[0]].node, p[1..]).1;
      StopRest(s, s[n][p[0]].node, p[1..]);
      assert p == [p[0]] + p[1..];
      assert p[..|p| - |left|] == [p[0]] + p[1..][..|p[1..]| - |left|];
    } else {
      assert p[..0] + p == p;
    }
  }

  /** In particular when no other path leads to that dict. */
  lemma {:induction false} UnsharedWrite(s: Store, p: Path, v: Tree)
    requires Sound(s) && Plain(s) && s != [] && p != []
    requires forall q :: Leads(s, 0, q, StopAt(s, 0, p).0) ==> q == p[..|p| - |StopAt(s, 0, p).1|]
    ensures Sound(Written(s, 0, p, v)) && Written(s, 0, p, v) != []
    ensures Unfold(Written(s, 0, p, v), 0) == SetPath(Unfold(s, 0), p, v)
  {
    DocumentWrite(s, p, v);
  }

  predicate LinksTo(s: Store, n: nat, key: string, m: nat)
  {
    n < |s| && key in s[n] && s[n][key] == Link(m)
  }

  /** models: {default: &m {...}, roles: {generate: *m}} */
  predicate Aliased(s: Store, models: nat, roles: nat, m: nat)
  {
    && LinksTo(s, 0, "models", models) && LinksTo(s, models, "default", m)
    && LinksTo(s, models, "roles", roles) && LinksTo(s, roles, "generate", m) && m < |s|
  }

  lemma {:induction false} Tail(a: string, b: string, c: string)
    ensures [a, b, c][1..] == [b, c] && [b, c][1..] == [c] && [c][1..] == []
  {
  }

  lemma {:induction false} TwoStepsStop(s: Store, a: string, n: nat, b: string, m: nat, last: string)
    requires LinksTo(s, 0, a, n) && LinksTo(s, n, b, m)
    ensures StopAt(s, 0, [a, b, last]) == (m, [last])
  {
    Tail(a, b, last);
    var p, q, r := [a, b, last], [b, last], [last];
    assert |p| == 3 && |q| == 2 && |r| == 1 && p[0] == a && q[0] == b;
    assert StopAt(s, m, r) == (m, r);
    assert StopAt(s, n, q) == (m, r);
  }

  lemma {:induction false} ThreeStepsLead(s: Store, a: string, n: nat, b: string, r: nat, c: string, m: nat)
    requires LinksTo(s, 0, a, n) && LinksTo(s, n, b, r) && LinksTo(s, r, c, m)
    ensures Leads(s, 0, [a, b, c], m)
  {
    Tail(a, b, c);
    assert Leads(s, m, [c][1..], m);
    assert Leads(s, r, [b, c][1..], m);
    assert Leads(s, n, [a, b, c][1..], m);
  }

  /** With such an alias, setting the default provider to something new is not the write at that path alone. */
  lemma {:induction false} AliasedProvider(s: Store, models: nat, roles: nat, m: nat, v: Tree)
    requires Sound(s) && Plain(s) && Aliased(s, models, roles, m)
    requires Get(Unfold(s, 0), ["models", "roles", "generate"] + ["provider"]) != Some(v)
    ensures Sound(Written(s, 0, ["models", "default", "provider"], v))
    ensures Written(s, 0, ["models", "default", "provider"], v) != []
    ensures Unfold(Written(s, 0, ["models", "default", "provider"], v), 0)
            != SetPath(Unfold(s, 0), ["models", "default", "provider"], v)
  {
    var p, q := ["models", "default", "provider"], ["models", "roles", "generate"];
    TwoStepsStop(s, "models", models, "default", m, "provider");
    ThreeStepsLead(s, "models", models, "roles", roles, "generate", m);
    DocumentWrite(s, p, v);
    hide StopAt, Leads, Unfold, Get, Written, SetPath;
    assert Alters(s, 0, q, m, "provider", v);
    assert p[..2][1] != q[1];
  }

  /** Such a document, with nothing else in it. */
  lemma {:induction false} AliasedExists() returns (s: Store)
    ensures Sound(s) && Plain(s) && Aliased(s, 1, 2, 3) && s[3] == map["provider" := Own(Leaf(Str("a")))]
  {
    s := [map["models" := Link(1)], map["default" := Link(3), "roles" := Link(2)], map["generate" := Link(3)],
          map["provider" := Own(Leaf(Str("a")))]];
  }

  // ---- The patched file ----

  /** Reading a document, if the text holds a mapping; printing one; and the schema. */
  datatype DocFormat = DocFormat(read: string -> Option<Store>, render: Store -> Option<string>, valid: Tree -> bool)

  ghost predicate WellRead(s: Store)
  {
    s != [] && Sound(s) && Plain(s)
  }

  /** What is read has no cycles, and what is printed reads as the same tree. */
  ghost predicate FaithfulDocs(f: DocFormat)
  {
    && (forall text :: f.read(text).Some? ==> WellRead(f.read(text).value))
    && (forall s :: s != [] && Sound(s) && f.render(s).Some? ==>
          TreeOf(f, f.render(s).value) == Some(Unfold(s, 0)))
  }

  function TreeOf(f: DocFormat, text: string): Option<Tree>
  {
    match f.read(text)
    case None => None
    case Some(s) => if s != [] && Sound(s) then Some(Unfold(s, 0)) else None
  }

  /** The last key is there already when the walk needs no new dict and finds it. */
  predicate Present(s: Store, p: Path)
    requires p != []
  {
    var (m, left) := StopAt(s, 0, p);
    |left| == 1 && m < |s| && left[0] in s[m]
  }

  lemma {:induction false} PresentIsGet(s: Store, n: nat, p: Path)
    requires Sound(s) && Plain(s) && n < |s| && p != []
    ensures var (m, left) := StopAt(s, n, p);
            Get(Unfold(s, n), p).Some? <==> |left| == 1 && m < |s| && left[0] in s[m]
    decreases p
  {
    if |p| == 1 {
      GetKey(Unfold(s, n), p[0]);
      assert p == [p[0]];
    } else if p[0] in s[n] {
      assert SlotSound(s, n, s[n][p[0]]);
      if s[n][p[0]].Link? {
        PresentIsGet(s, s[n][p[0]].node, p[1..]);
      }
    }
  }

  /** When the patch takes hold. */
  ghost predicate Applies(f: DocFormat, text: string, parts: Path, value: Tree, overwrite: bool)
    requires parts != []
  {
    && f.read(text).Some? && f.read(text).value != []
    && var s := f.read(text).value; var t := Written(s, 0, parts, value);
       && Sound(s) && (overwrite || Get(Unfold(s, 0), parts).None?)
       && t != [] && Sound(t) && f.render(t).Some? && f.valid(Unfold(t, 0))
  }

  class DocumentFile {
    var text: string

    constructor (text: string)
      ensures this.text == text
    {
      this.text := text;
    }

    /**
      set_yaml_key on a document that may hold aliases. After printing and reading back an
      applied patch has changed its path alone exactly when every other path to the dict the
      walk stopped at showed the new value already.
    */
    method SetYamlKey(f: DocFormat, parts: Path, value: Tree, overwrite: bool) returns (applied: bool)
      requires FaithfulDocs(f) && parts != []
      modifies this
      ensures applied <==> Applies(f, old(text), parts, value, overwrite)
      ensures !applied ==> text == old(text)
      ensures applied ==> TreeOf(f, old(text)).Some? && TreeOf(f, text).Some? && f.valid(TreeOf(f, text).value)
                          && (overwrite || Get(TreeOf(f, old(text)).value, parts).None?)
      ensures applied ==> Some(text) == f.render(Written(f.read(old(text)).value, 0, parts, value))
      ensures applied ==> var s := f.read(old(text)).value; var (m, left) := StopAt(s, 0, parts);
                          (TreeOf(f, text).value == SetPath(TreeOf(f, old(text)).value, parts, value)
                           <==> OnlyAt(s, 0, parts[..|parts| - |left|], m, left[0], Put(left, value)))
    {
      var doc := f.read(text);
      if doc.None? {
        return false;
      }
      var s := doc.value;
      PresentIsGet(s, 0, parts);
      if !overwrite && Present(s, parts) {
        return false;
      }
      var document := new Document(s);
      document.Write(parts, value);
      DocumentWrite(s, parts, value);
      var printed := f.render(document.store);
      if printed.None? {
        return false;
      }
      var original := text;
      text := printed.value;
      if !f.valid(TreeOf(f, text).value) {
        text := original;
        return false;
      }
      return true;
    }
  }
}
