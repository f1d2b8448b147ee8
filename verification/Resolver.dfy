/**
  The layered resolver: nine partial configurations folded into one, with a record
  of which layer supplied every key, and the conflict report built from that record.
*/
module Resolver {
  import opened ConfigTree
  import opened Options
  import opened ConfigLeaves
  import opened Text

  datatype Layer = Layer(name: string, data: Tree)

  type Layers = seq<Layer>

  ghost predicate AllDicts(layers: Layers)
  {
    forall i :: 0 <= i < |layers| ==> layers[i].data.Dict?
  }

  ghost predicate DistinctNames(layers: Layers)
  {
    forall i, j :: 0 <= i < j < |layers| ==> layers[i].name != layers[j].name
  }

  ghost predicate AllDotFree(layers: Layers)
  {
    forall i :: 0 <= i < |layers| ==> DotFree(layers[i].data)
  }

  /** The fold of _deep_merge over the layers, lowest precedence first. */
  function MergeAll(layers: Layers): Tree
  {
    if layers == [] then EMPTY
    else Overlay(MergeAll(layers[..|layers| - 1]), layers[|layers| - 1].data)
  }

  lemma {:induction false} MergeAllDict(layers: Layers)
    requires AllDicts(layers)
    ensures MergeAll(layers).Dict?
  {
    if layers != [] {
      MergeAllDict(layers[..|layers| - 1]);
    }
  }

  // ---- What the record means ----

  ghost predicate HasDotted(t: Tree, d: string)
  {
    exists p :: HasLeaf(t, p) && Dotted(p) == d
  }

  /** Layer w is the last one with a leaf of this dotted name. */
  ghost predicate LastWithDotted(layers: Layers, d: string, w: int)
  {
    && 0 <= w < |layers| && HasDotted(layers[w].data, d)
    && forall j :: w < j < |layers| ==> !HasDotted(layers[j].data, d)
  }

  predicate HasKey(t: Tree, k: string)
  {
    t.Dict? && k in t.m
  }

  /** Layer w is the last one with this top-level key. */
  ghost predicate LastWithKey(layers: Layers, k: string, w: int)
  {
    && 0 <= w < |layers| && HasKey(layers[w].data, k)
    && forall j :: w < j < |layers| ==> !HasKey(layers[j].data, k)
  }

  /** The names of the layers with a leaf of this dotted name, in precedence order. */
  ghost function Definers(layers: Layers, d: string): seq<string>
  {
    if layers == [] then []
    else
      var last := layers[|layers| - 1];
      Definers(layers[..|layers| - 1], d) + if HasDotted(last.data, d) then [last.name] else []
  }

  /** A list with every element kept at its first occurrence only. */
  function FirstSeen(s: seq<string>): seq<string>
  {
    if s == [] then []
    else
      var n := |s| - 1;
      var seen := FirstSeen(s[..n]);
      if s[n] in seen then seen else seen + [s[n]]
  }

  // ---- Provenance theorems ----

  /** If a later layer leaves p alone, the last layer to touch it decides. */
  ghost predicate Survives(layers: Layers, i: int, p: Path, v: Tree)
  {
    && 0 <= i < |layers| && Get(layers[i].data, p) == Some(v)
    && forall j :: i < j < |layers| ==> Untouched(layers[j].data, p)
  }

  /** A scalar is in the merged tree exactly when some layer holds it there and no later layer touches that path. */
  lemma {:induction false} MergedScalar(layers: Layers, p: Path, v: Tree)
    requires AllDicts(layers) && p != [] && v.Leaf?
    ensures Get(MergeAll(layers), p) == Some(v) <==> exists i :: Survives(layers, i, p, v)
  {
    if layers != [] {
      var n := |layers| - 1;
      var init, over := layers[..n], layers[n].data;
      MergedScalar(init, p, v);
      GetOverlay(MergeAll(init), over, p);
      GetPresentOrCut(over, p);
      if Get(MergeAll(layers), p) == Some(v) {
        if Get(over, p).Some? {
          assert Survives(layers, n, p, v);
        } else {
          var i :| Survives(init, i, p, v);
          assert Survives(layers, i, p, v);
        }
      }
      forall i | Survives(layers, i, p, v)
        ensures Get(MergeAll(layers), p) == Some(v)
      {
        if i < n {
          assert Survives(init, i, p, v);
        }
      }
    }
  }

  /** Over key paths: the last layer with leaf p holds exactly the merged value there. */
  lemma {:induction false} LeafCameFrom(layers: Layers, p: Path) returns (w: int)
    requires AllDicts(layers) && HasLeaf(MergeAll(layers), p)
    ensures 0 <= w < |layers| && LeafIs(layers[w].data, p, Get(MergeAll(layers), p).value)
    ensures forall j :: w < j < |layers| ==> !HasLeaf(layers[j].data, p)
  {
    if layers != [] {
      var n := |layers| - 1;
      var init, over := layers[..n], layers[n].data;
      GetOverlay(MergeAll(init), over, p);
      if Get(over, p).Some? {
        w := n;
        if Get(over, p).value.Dict? && Get(MergeAll(init), p).Some? && Get(MergeAll(init), p).value.Dict? {
          assert Overlay(Get(MergeAll(init), p).value, Get(over, p).value).m.Keys >= Get(over, p).value.m.Keys;
          assert Get(over, p).value.m == map[];
        }
      } else {
        w := LeafCameFrom(init, p);
      }
    }
  }

  /** Over dotted names: the last layer with a leaf of that name holds exactly the merged value at its path. */
  lemma {:induction false} ProvenanceSound(layers: Layers, p: Path) returns (w: int)
    requires AllDicts(layers) && AllDotFree(layers)
    requires HasLeaf(MergeAll(layers), p)
    ensures LastWithDotted(layers, Dotted(p), w)
    ensures Get(layers[w].data, p) == Get(MergeAll(layers), p)
  {
    w := LeafCameFrom(layers, p);
    assert HasLeaf(layers[w].data, p);
    forall j | w < j < |layers|
      ensures !HasDotted(layers[j].data, Dotted(p))
    {
      if HasDotted(layers[j].data, Dotted(p)) {
        var q :| HasLeaf(layers[j].data, q) && Dotted(q) == Dotted(p);
        DottedInjective(layers[w].data, p, layers[j].data, q);
      }
    }
  }

  /**
    The record also keeps names that are no longer leaves. An entry whose layer holds a
    scalar is live exactly when no later layer touches its path.
  */
  lemma {:induction false} EntryLive(layers: Layers, p: Path, w: int)
    requires AllDicts(layers) && AllDotFree(layers)
    requires p != [] && LastWithDotted(layers, Dotted(p), w)
    requires Get(layers[w].data, p).Some? && Get(layers[w].data, p).value.Leaf?
    ensures HasLeaf(MergeAll(layers), p) <==> forall j :: w < j < |layers| ==> Untouched(layers[j].data, p)
  {
    var v := Get(layers[w].data, p).value;
    MergedScalar(layers, p, v);
    if forall j :: w < j < |layers| ==> Untouched(layers[j].data, p) {
      assert Survives(layers, w, p, v);
    }
    if HasLeaf(MergeAll(layers), p) {
      var u := ProvenanceSound(layers, p);
      assert u == w;
      var i :| Survives(layers, i, p, v);
      GetPresentOrCut(layers[w].data, p);
      assert HasLeaf(layers[i].data, p) && HasDotted(layers[i].data, Dotted(p));
    }
  }

  // ---- The record itself ----

  class Provenance {
    var byKey: map<string, string>
    var profile: string
    var profileLayer: string
    var byDottedKey: map<string, string>
    var dottedKeyLayers: map<string, seq<string>>

    constructor (name: string, layer: string)
      ensures profile == name && profileLayer == layer
      ensures Describes([])
    {
      byKey, byDottedKey, dottedKeyLayers := map[], map[], map[];
      profile, profileLayer := name, layer;
    }

    function DottedLayerOf(d: string): string
      reads this
    {
      if d in byDottedKey then byDottedKey[d] else DEFAULTS
    }

    /** The record says, for every key and dotted name, which layers have it and which is the last. */
    ghost predicate Describes(layers: Layers)
      reads this
    {
      KeysDescribe(byKey, layers) && NamesDescribe(byDottedKey, dottedKeyLayers, layers)
    }

    /** One round of the resolve loop: the layer claims each of its keys and dotted leaves. */
    method Record(layers: Layers, name: string, data: Tree)
      requires data.Dict? && Describes(layers)
      requires forall i :: 0 <= i < |layers| ==> layers[i].name != name
      modifies this
      ensures Describes(layers + [Layer(name, data)])
      ensures profile == old(profile) && profileLayer == old(profileLayer)
    {
      KeysRecorded(byKey, layers, name, data);
      RecordKeys(name, data);
      RecordLeaves(layers, name, data);
    }

    method RecordKeys(name: string, data: Tree)
      requires data.Dict?
      modifies `byKey
      ensures byKey == old(byKey) + map k | k in data.m.Keys :: name
    {
      var todo := data.m.Keys;
      while todo != {}
        invariant todo <= data.m.Keys
        invariant byKey == old(byKey) + map k | k in data.m.Keys - todo :: name
        decreases todo
      {
        var key :| key in todo;
        byKey := byKey[key := name];
        todo := todo - {key};
      }
    }

    method RecordLeaves(layers: Layers, name: string, data: Tree)
      requires data.Dict? && NamesDescribe(byDottedKey, dottedKeyLayers, layers)
      requires forall i :: 0 <= i < |layers| ==> layers[i].name != name
      modifies `byDottedKey, `dottedKeyLayers
      ensures NamesDescribe(byDottedKey, dottedKeyLayers, layers + [Layer(name, data)])
    {
      var leaves; ghost var paths;
      leaves, paths := DottedLeaves(data, "");
      ClaimNone(layers, name, leaves, byDottedKey, dottedKeyLayers);
      for i := 0 to |leaves|
        invariant Claimed(layers, name, leaves, i, byDottedKey, dottedKeyLayers)
      {
        var d := leaves[i].0;
        var before := if d in dottedKeyLayers then dottedKeyLayers[d] else [];
        ClaimLeaf(layers, name, leaves, i, byDottedKey, dottedKeyLayers);
        byDottedKey := byDottedKey[d := name];
        dottedKeyLayers := dottedKeyLayers[d := before + [name]];
      }
      NamesRecorded(layers, name, data, leaves, paths, byDottedKey, dottedKeyLayers);
    }
  }

  /** The layer recorded for a leaf of the merged tree holds exactly the merged value at that path. */
  ghost predicate Credited(record: Provenance, layers: Layers, p: Path)
    reads record
  {
    && Dotted(p) in record.byDottedKey
    && exists w :: 0 <= w < |layers| && Credits(layers, p, w, record.byDottedKey[Dotted(p)])
  }

  ghost predicate Credits(layers: Layers, p: Path, w: int, name: string)
    requires 0 <= w < |layers|
  {
    layers[w].name == name && Get(layers[w].data, p) == Get(MergeAll(layers), p)
  }

  /**
    Provenance soundness: with dot-free keys every leaf of the merged configuration is
    in the record, and the layer it is credited to holds exactly that value there.
  */
  lemma {:induction false} RecordSound(record: Provenance, layers: Layers)
    requires AllDicts(layers) && AllDotFree(layers) && record.Describes(layers)
    ensures forall p :: HasLeaf(MergeAll(layers), p) ==> Credited(record, layers, p)
  {
    forall p | HasLeaf(MergeAll(layers), p)
      ensures Credited(record, layers, p)
    {
      var w := ProvenanceSound(layers, p);
      LastDefiner(layers, Dotted(p), w);
      assert EntryDescribes(record.byDottedKey, record.dottedKeyLayers, Dotted(p), Definers(layers, Dotted(p)));
      assert Credits(layers, p, w, record.byDottedKey[Dotted(p)]);
    }
  }

  /** Each recorded key is credited to the last layer that has it, and no layer's key is missing. */
  ghost predicate KeysDescribe(byKey: map<string, string>, layers: Layers)
  {
    && (forall k :: k in byKey ==> exists w :: LastWithKey(layers, k, w) && byKey[k] == layers[w].name)
    && (forall k, i :: 0 <= i < |layers| && HasKey(layers[i].data, k) ==> k in byKey)
  }

  ghost predicate NamesDescribe(winners: map<string, string>, lists: map<string, seq<string>>, layers: Layers)
  {
    winners.Keys == lists.Keys && forall d :: EntryDescribes(winners, lists, d, Definers(layers, d))
  }

  lemma {:induction false} KeysRecorded(before: map<string, string>, layers: Layers, name: string, data: Tree)
    requires data.Dict? && KeysDescribe(before, layers)
    ensures KeysDescribe(before + map k | k in data.m.Keys :: name, layers + [Layer(name, data)])
  {
    var grown := layers + [Layer(name, data)];
    var after := before + map k | k in data.m.Keys :: name;
    forall k | k in after
      ensures exists w :: LastWithKey(grown, k, w) && after[k] == grown[w].name
    {
      if k in data.m {
        assert LastWithKey(grown, k, |layers|);
      } else {
        var w :| LastWithKey(layers, k, w) && before[k] == layers[w].name;
        assert LastWithKey(grown, k, w);
      }
    }
  }

  lemma {:induction false} NamesRecorded(layers: Layers, name: string, data: Tree, leaves: seq<(string, Tree)>,
                                         paths: seq<Path>,
                      winners: map<string, string>, lists: map<string, seq<string>>)
    requires Listed(data, "", {}, leaves, paths)
    requires Claimed(layers, name, leaves, |leaves|, winners, lists)
    ensures NamesDescribe(winners, lists, layers + [Layer(name, data)])
  {
    var grown := layers + [Layer(name, data)];
    assert grown[..|layers|] == layers;
    ListedNames(data, leaves, paths);
    forall d
      ensures EntryDescribes(winners, lists, d, Definers(grown, d))
    {
      assert Definers(grown, d) == Definers(layers, d) + if HasDotted(data, d) then [name] else [];
    }
  }

  /** The entry of a dotted name, if any, lists these definers and credits the last. */
  ghost predicate EntryDescribes(winners: map<string, string>, lists: map<string, seq<string>>, d: string,
                                 definers: seq<string>)
    requires winners.Keys == lists.Keys
  {
    && (d in winners <==> definers != [])
    && (d in winners ==> winners[d] == definers[|definers| - 1] && FirstSeen(lists[d]) == definers)
  }

  /** Halfway through a layer: the names among its first i leaves have been claimed for it. */
  ghost predicate Claimed(layers: Layers, name: string, leaves: seq<(string, Tree)>, i: int,
                          winners: map<string, string>, lists: map<string, seq<string>>)
    requires i <= |leaves|
  {
    && winners.Keys == lists.Keys
    && forall d :: EntryDescribes(winners, lists, d, Definers(layers, d) + if Among(leaves, i, d) then [name] else [])
  }

  lemma {:induction false} ClaimNone(layers: Layers, name: string, leaves: seq<(string, Tree)>,
                  winners: map<string, string>, lists: map<string, seq<string>>)
    requires NamesDescribe(winners, lists, layers)
    ensures Claimed(layers, name, leaves, 0, winners, lists)
  {
    forall d
      ensures EntryDescribes(winners, lists, d, Definers(layers, d) + if Among(leaves, 0, d) then [name] else [])
    {
      assert EntryDescribes(winners, lists, d, Definers(layers, d));
      assert Definers(layers, d) + [] == Definers(layers, d);
    }
  }

  lemma {:induction false} ClaimLeaf(layers: Layers, name: string, leaves: seq<(string, Tree)>, i: int,
                  winners: map<string, string>, lists: map<string, seq<string>>)
    requires 0 <= i < |leaves| && Claimed(layers, name, leaves, i, winners, lists)
    requires forall j :: 0 <= j < |layers| ==> layers[j].name != name
    ensures var d := leaves[i].0;
            Claimed(layers, name, leaves, i + 1, winners[d := name],
                    lists[d := (if d in lists then lists[d] else []) + [name]])
  {
    var d := leaves[i].0;
    var before := if d in lists then lists[d] else [];
    forall e
      ensures EntryDescribes(winners[d := name], lists[d := before + [name]], e,
                             Definers(layers, e) + if Among(leaves, i + 1, e) then [name] else [])
    {
      assert Among(leaves, i + 1, e) <==> Among(leaves, i, e) || e == d;
      assert EntryDescribes(winners, lists, e, Definers(layers, e) + if Among(leaves, i, e) then [name] else []);
      if e == d {
        DefinersAreNames(layers, d);
        ClaimEntry(winners, lists, d, Definers(layers, d), name, Among(leaves, i, d));
      }
    }
  }

  /** Claiming a name once more changes nothing but the raw list. */
  lemma {:induction false} ClaimEntry(winners: map<string, string>, lists: map<string, seq<string>>, d: string,
                                      definers: seq<string>, name: string, again: bool)
    requires winners.Keys == lists.Keys && name !in definers
    requires EntryDescribes(winners, lists, d, definers + if again then [name] else [])
    ensures EntryDescribes(winners[d := name], lists[d := (if d in lists then lists[d] else []) + [name]], d,
                           definers + [name])
  {
    var before := if d in lists then lists[d] else [];
    assert FirstSeen(before) == definers + if again then [name] else [];
    FirstSeenSnoc(before, name);
    assert FirstSeen(before + [name]) == definers + [name];
  }

  lemma {:induction false} FirstSeenSnoc(s: seq<string>, x: string)
    ensures FirstSeen(s + [x]) == if x in FirstSeen(s) then FirstSeen(s) else FirstSeen(s) + [x]
  {
    assert (s + [x])[..|s|] == s;
  }

  lemma {:induction false} ListedNames(data: Tree, leaves: seq<(string, Tree)>, paths: seq<Path>)
    requires Listed(data, "", {}, leaves, paths)
    ensures forall d :: HasDotted(data, d) <==> Among(leaves, |leaves|, d)
  {
    forall d
      ensures HasDotted(data, d) <==> Among(leaves, |leaves|, d)
    {
      if HasDotted(data, d) {
        var p :| HasLeaf(data, p) && Dotted(p) == d;
        assert p in paths;
        var i :| 0 <= i < |paths| && paths[i] == p;
        assert Entry(data, "", leaves[i], paths[i]);
      }
      if Among(leaves, |leaves|, d) {
        var i :| 0 <= i < |leaves| && leaves[i].0 == d;
        assert Entry(data, "", leaves[i], paths[i]);
      }
    }
  }

  ghost predicate Among(leaves: seq<(string, Tree)>, n: int, d: string)
    requires n <= |leaves|
  {
    exists k :: 0 <= k < n && leaves[k].0 == d
  }

  lemma {:induction false} DefinersAreNames(layers: Layers, d: string)
    ensures forall x :: x in Definers(layers, d) ==> exists i :: 0 <= i < |layers| && layers[i].name == x
  {
    if layers != [] {
      var n := |layers| - 1;
      DefinersAreNames(layers[..n], d);
      forall x | x in Definers(layers, d)
        ensures exists i :: 0 <= i < |layers| && layers[i].name == x
      {
        if x in Definers(layers[..n], d) {
          var i :| 0 <= i < n && layers[..n][i].name == x;
          assert layers[i].name == x;
        } else {
          assert layers[n].name == x;
        }
      }
    }
  }

  /** The last definer is the last layer with that dotted name. */
  lemma {:induction false} LastDefiner(layers: Layers, d: string, w: int)
    requires LastWithDotted(layers, d, w)
    ensures Definers(layers, d) != []
    ensures Definers(layers, d)[|Definers(layers, d)| - 1] == layers[w].name
  {
    var n := |layers| - 1;
    if w < n {
      assert LastWithDotted(layers[..n], d, w);
      LastDefiner(layers[..n], d, w);
    }
  }

  // ---- Choosing the profile ----

  const DEFAULTS := "defaults"
  const DEFAULT_PROFILE := "balanced"
  const PROFILE := "profile"

  predicate NonEmptyText(t: Tree)
  {
    t.Leaf? && t.v.Str? && t.v.s != ""
  }

  /** Layer i is where the highest usable profile name stands. */
  ghost predicate PickedAt(layers: Layers, i: int)
  {
    && 0 <= i < |layers| && Usable(layers[i])
    && forall j :: i < j < |layers| ==> !Usable(layers[j])
  }

  predicate Usable(l: Layer)
  {
    l.name != PROFILE && HasKey(l.data, PROFILE) && NonEmptyText(l.data.m[PROFILE])
  }

  /** _pick_profile: scan from the highest precedence down. */
  method PickProfile(layers: Layers) returns (name: string, layer: string)
    ensures Picked(layers, name, layer)
  {
    var i := |layers|;
    while i > 0
      invariant 0 <= i <= |layers|
      invariant forall j :: i <= j < |layers| ==> !Usable(layers[j])
    {
      i := i - 1;
      if layers[i].name == PROFILE {
        continue;
      }
      if HasKey(layers[i].data, PROFILE) && NonEmptyText(layers[i].data.m[PROFILE]) {
        assert PickedAt(layers, i);
        return layers[i].data.m[PROFILE].v.s, layers[i].name;
      }
    }
    return DEFAULT_PROFILE, DEFAULTS;
  }

  ghost predicate Picked(layers: Layers, name: string, layer: string)
  {
    if exists i :: PickedAt(layers, i) then
      exists i :: PickedAt(layers, i) && layers[i].data.m[PROFILE] == Leaf(Str(name)) && layers[i].name == layer
    else name == DEFAULT_PROFILE && layer == DEFAULTS
  }

  /** What resolve is given, each file already parsed and normalised. */
  datatype Inputs = Inputs(defaults: Tree, global: Tree, org: Tree, project: Tree, env: Tree,
                           overrides: Tree, run: Tree, policy: Tree)

  ghost predicate AllInputsDicts(x: Inputs)
  {
    && x.defaults.Dict? && x.global.Dict? && x.org.Dict? && x.project.Dict?
    && x.env.Dict? && x.overrides.Dict? && x.run.Dict? && x.policy.Dict?
  }

  function Selection(x: Inputs): Layers
  {
    [Layer("global", x.global), Layer("org", x.org), Layer("project", x.project), Layer("env", x.env),
     Layer("overrides", x.overrides), Layer("run", x.run), Layer("policy", x.policy)]
  }

  function Ordered(x: Inputs, overlay: Tree, name: string): Layers
    requires x.defaults.Dict?
  {
    [Layer(DEFAULTS, Dict(x.defaults.m[PROFILE := Leaf(Str(name))])),
     Layer("global", x.global), Layer("org", x.org), Layer("project", x.project), Layer(PROFILE, overlay),
     Layer("env", x.env), Layer("overrides", x.overrides), Layer("run", x.run), Layer("policy", x.policy)]
  }

  function OverlayFor(builtin: map<string, Tree>, name: string): Tree
  {
    if name in builtin then builtin[name] else EMPTY
  }

  /** The merged value of a top-level key, from the last layer that has it. */
  lemma {:induction false} TopMerged(layers: Layers, k: string, w: int)
    requires AllDicts(layers) && LastWithKey(layers, k, w)
    ensures HasKey(MergeAll(layers), k)
    ensures MergeAll(layers).m[k].Leaf? == layers[w].data.m[k].Leaf?
    ensures layers[w].data.m[k].Leaf? ==> MergeAll(layers).m[k] == layers[w].data.m[k]
  {
    var n := |layers| - 1;
    MergeAllDict(layers[..n]);
    var below, over := MergeAll(layers[..n]), layers[n].data;
    if w < n {
      assert LastWithKey(layers[..n], k, w);
      TopMerged(layers[..n], k, w);
      assert Overlay(below, over).m[k] == below.m[k];
    } else {
      assert k in Overlay(below, over).m;
      assert Overlay(below, over).m[k] == if k in below.m then Overlay(below.m[k], over.m[k]) else over.m[k];
    }
  }

  /** The highest selection layer that has a profile entry, if any, holds a non-empty string there. */
  ghost predicate SelectionClean(layers: Layers)
  {
    forall i :: LastWithKey(layers, PROFILE, i) ==> NonEmptyText(layers[i].data.m[PROFILE])
  }

  /** Where a selection layer stands among the ordered layers. */
  function Place(i: int): int
  {
    if i < 3 then i + 1 else i + 2
  }

  /** The ordered layers are the selection layers, above the defaults, with one overlay slipped in. */
  ghost predicate Slipped(s: Layers, o: Layers)
  {
    && |s| == 7 && |o| == 9
    && (forall i :: 0 <= i < 7 ==> o[Place(i)] == s[i] && s[i].name != PROFILE && s[i].name != DEFAULTS)
    && (forall i, j :: 0 <= i < j < 7 ==> s[i].name != s[j].name)
  }

  lemma {:induction false} OrderedSlipped(x: Inputs, overlay: Tree, name: string)
    requires AllInputsDicts(x)
    ensures Slipped(Selection(x), Ordered(x, overlay, name))
  {
    var s := Selection(x);
    assert "project"[3] != PROFILE[3];
    forall i, j | 0 <= i < j < 7
      ensures s[i].name != s[j].name
    {
      assert |s[i].name| != |s[j].name| || s[i].name[0] != s[j].name[0];
    }
  }

  /**
    The chosen profile name is the merged tree's profile, and the layer it is credited
    to is the recorded winner of that key, exactly when the highest entry is usable.
  */
  lemma {:induction false} SelectionAgrees(x: Inputs, overlay: Tree, record: Provenance)
    requires AllInputsDicts(x) && overlay.Dict? && PROFILE !in overlay.m
    requires Picked(Selection(x), record.profile, record.profileLayer)
    requires record.Describes(Ordered(x, overlay, record.profile))
    ensures PROFILE in record.byKey
    ensures Get(MergeAll(Ordered(x, overlay, record.profile)), [PROFILE]) == Some(Leaf(Str(record.profile)))
            <==> SelectionClean(Selection(x))
    ensures record.byKey[PROFILE] == record.profileLayer <==> SelectionClean(Selection(x))
  {
    hide MergeAll, Get, SelectionClean, Picked;
    var name := record.profile;
    var s, o := Selection(x), Ordered(x, overlay, name);
    OrderedSlipped(x, overlay, name);
    assert AllDicts(o);
    assert o[0].name == DEFAULTS && o[0].data.m[PROFILE] == Leaf(Str(name)) && o[4].data == overlay;
    assert HasKey(o[0].data, PROFILE);
    var w :| LastWithKey(o, PROFILE, w) && record.byKey[PROFILE] == o[w].name;
    SelectionAgreesOn(s, o, name, record.profileLayer, w);
  }

  lemma {:induction false} SelectionAgreesOn(s: Layers, o: Layers, name: string, layer: string, w: int)
    requires AllDicts(o) && Slipped(s, o) && PROFILE !in o[4].data.m
    requires o[0].name == DEFAULTS && HasKey(o[0].data, PROFILE) && o[0].data.m[PROFILE] == Leaf(Str(name))
    requires Picked(s, name, layer)
    requires LastWithKey(o, PROFILE, w)
    ensures Get(MergeAll(o), [PROFILE]) == Some(Leaf(Str(name))) <==> SelectionClean(s)
    ensures o[w].name == layer <==> SelectionClean(s)
  {
    MergeAllDict(o);
    TopMerged(o, PROFILE, w);
    GetKey(MergeAll(o), PROFILE);
    if w == 0 {
      forall i | 0 <= i < |s|
        ensures !HasKey(s[i].data, PROFILE)
      {
        assert o[Place(i)] == s[i];
      }
    } else {
      var i := if w < 4 then w - 1 else w - 2;
      assert Place(i) == w;
      forall j | i < j < |s|
        ensures !HasKey(s[j].data, PROFILE)
      {
        assert o[Place(j)] == s[j] && w < Place(j);
      }
      assert LastWithKey(s, PROFILE, i);
      if NonEmptyText(s[i].data.m[PROFILE]) {
        assert PickedAt(s, i);
      } else {
        assert !SelectionClean(s) && !Usable(s[i]) && name != "";
      }
    }
  }

  datatype Resolved = Valid(data: Tree) | Invalid(data: Tree)

  /** The loop of resolve: record and merge the layers one by one, skipping the empty ones. */
  method MergeLayers(ordered: Layers, record: Provenance) returns (merged: Tree)
    requires AllDicts(ordered) && DistinctNames(ordered) && record.Describes([])
    modifies record
    ensures merged == MergeAll(ordered) && record.Describes(ordered)
    ensures record.profile == old(record.profile) && record.profileLayer == old(record.profileLayer)
  {
    merged := EMPTY;
    for i := 0 to |ordered|
      invariant record.profile == old(record.profile) && record.profileLayer == old(record.profileLayer)
      invariant merged == MergeAll(ordered[..i]) && merged.Dict?
      invariant record.Describes(ordered[..i])
    {
      var name, data := ordered[i].name, ordered[i].data;
      assert ordered[..i + 1] == ordered[..i] + [Layer(name, data)];
      assert ordered[..i + 1][..i] == ordered[..i];
      if data.m == map[] {
        OverlayIdentity(merged);
        EmptyLayer(record, ordered[..i], ordered[i]);
        continue;
      }
      record.Record(ordered[..i], name, data);
      merged := DeepMerge(merged, data);
    }
    assert ordered[..|ordered|] == ordered;
  }

  // ---- The precedence of the nine layers ----

  /** Laying t on top, v stands at p if t has it there, or if it stood there and t leaves p alone. */
  ghost predicate Lays(below: bool, t: Tree, p: Path, v: Tree)
  {
    Get(t, p) == Some(v) || (Untouched(t, p) && below)
  }

  /** The defaults lay down the scalar v at p; their profile is the chosen one. */
  ghost predicate DefaultsLay(x: Inputs, profile: string, p: Path, v: Tree)
  {
    if p != [] && p[0] == "profile" then p == ["profile"] && v == Leaf(Str(profile))
    else Get(x.defaults, p) == Some(v)
  }

  /**
    Which scalars stand where after the merge: defaults, global, organisation, project,
    the overlay of the chosen profile if it is built in, environment, command line, run, policy.
  */
  ghost predicate Stands(x: Inputs, builtin: map<string, Tree>, profile: string, p: Path, v: Tree)
  {
    var defaults := DefaultsLay(x, profile, p, v);
    var workspace := Lays(Lays(Lays(defaults, x.global, p, v), x.org, p, v), x.project, p, v);
    var overlaid := if profile in builtin then Lays(workspace, builtin[profile], p, v) else workspace;
    Lays(Lays(Lays(Lays(overlaid, x.env, p, v), x.overrides, p, v), x.run, p, v), x.policy, p, v)
  }

  /** The layers merged one over another; a profile that is not built in brings none. */
  ghost function Stacked(x: Inputs, builtin: map<string, Tree>, profile: string): Tree
    requires x.defaults.Dict?
  {
    var defaults := Dict(x.defaults.m["profile" := Leaf(Str(profile))]);
    var workspace := Overlay(Overlay(Overlay(defaults, x.global), x.org), x.project);
    var overlaid := if profile in builtin then Overlay(workspace, builtin[profile]) else workspace;
    Overlay(Overlay(Overlay(Overlay(overlaid, x.env), x.overrides), x.run), x.policy)
  }

  /** The highest layer with some property. */
  ghost function Highest(x: Inputs, builtin: map<string, Tree>, profile: string, has: Tree -> bool): Option<string>
    requires x.defaults.Dict?
  {
    if has(x.policy) then Some("policy")
    else if has(x.run) then Some("run")
    else if has(x.overrides) then Some("overrides")
    else if has(x.env) then Some("env")
    else if profile in builtin && has(builtin[profile]) then Some("profile")
    else if has(x.project) then Some("project")
    else if has(x.org) then Some("org")
    else if has(x.global) then Some("global")
    else if has(Dict(x.defaults.m["profile" := Leaf(Str(profile))])) then Some("defaults")
    else None
  }

  function CreditOf(m: map<string, string>, k: string): Option<string>
  {
    if k in m then Some(m[k]) else None
  }

  /** t names a profile, with a text that is not empty. */
  ghost predicate NamesProfile(t: Tree, name: string)
  {
    name != "" && Get(t, ["profile"]) == Some(Leaf(Str(name)))
  }

  ghost predicate Names(t: Tree)
  {
    exists name :: NamesProfile(t, name)
  }

  /** The highest layer that names a profile chooses it; "balanced" is chosen by default. */
  ghost predicate Chosen(x: Inputs, name: string, layer: string)
  {
    if Names(x.policy) then NamesProfile(x.policy, name) && layer == "policy"
    else if Names(x.run) then NamesProfile(x.run, name) && layer == "run"
    else if Names(x.overrides) then NamesProfile(x.overrides, name) && layer == "overrides"
    else if Names(x.env) then NamesProfile(x.env, name) && layer == "env"
    else if Names(x.project) then NamesProfile(x.project, name) && layer == "project"
    else if Names(x.org) then NamesProfile(x.org, name) && layer == "org"
    else if Names(x.global) then NamesProfile(x.global, name) && layer == "global"
    else name == "balanced" && layer == "defaults"
  }

  lemma {:induction false} UsableNames(l: Layer)
    requires l.name != PROFILE
    ensures Usable(l) <==> Names(l.data)
    ensures Usable(l) ==> NamesProfile(l.data, l.data.m[PROFILE].v.s)
  {
    if l.data.Dict? {
      GetKey(l.data, PROFILE);
    }
    if Usable(l) {
      assert NamesProfile(l.data, l.data.m[PROFILE].v.s);
    }
  }

  lemma {:induction false} SelectionUsable(x: Inputs)
    requires AllInputsDicts(x)
    ensures forall i :: 0 <= i < 7 ==> (Usable(Selection(x)[i]) <==> Names(Selection(x)[i].data))
    ensures forall i :: 0 <= i < 7 && Usable(Selection(x)[i]) ==>
              var t := Selection(x)[i].data;
              HasKey(t, PROFILE) && NonEmptyText(t.m[PROFILE]) && NamesProfile(t, t.m[PROFILE].v.s)
  {
    hide Names, NamesProfile;
    var s := Selection(x);
    OrderedSlipped(x, EMPTY, "");
    forall i | 0 <= i < 7
      ensures Usable(s[i]) <==> Names(s[i].data)
      ensures Usable(s[i]) ==> NamesProfile(s[i].data, s[i].data.m[PROFILE].v.s)
    {
      assert Ordered(x, EMPTY, "")[Place(i)] == s[i];
      UsableNames(s[i]);
    }
  }

  lemma {:induction false} PickedIsChosen(x: Inputs, name: string, layer: string)
    requires AllInputsDicts(x) && Picked(Selection(x), name, layer)
    ensures Chosen(x, name, layer)
  {
    hide Usable, Names, NamesProfile;
    var s := Selection(x);
    SelectionUsable(x);
    assert s[0].data == x.global && s[1].data == x.org && s[2].data == x.project && s[3].data == x.env;
    assert s[4].data == x.overrides && s[5].data == x.run && s[6].data == x.policy;
    if !exists i :: PickedAt(s, i) {
      NonePicked(s);
    }
  }

  lemma {:induction false} NonePicked(s: Layers)
    requires !exists i :: PickedAt(s, i)
    ensures forall i :: 0 <= i < |s| ==> !Usable(s[i])
  {
    var i := |s|;
    while i > 0
      invariant 0 <= i <= |s|
      invariant forall j :: i <= j < |s| ==> !Usable(s[j])
    {
      i := i - 1;
      assert !PickedAt(s, i);
    }
  }

  lemma {:induction false} MergeFirst(layers: Layers, n: nat)
    requires n < |layers|
    ensures MergeAll(layers[..n + 1]) == Overlay(MergeAll(layers[..n]), layers[n].data)
  {
    assert layers[..n + 1][..n] == layers[..n];
  }

  lemma {:induction false} OrderedStacked(x: Inputs, builtin: map<string, Tree>, profile: string)
    requires AllInputsDicts(x) && (profile in builtin ==> builtin[profile].Dict?)
    ensures MergeAll(Ordered(x, OverlayFor(builtin, profile), profile)) == Stacked(x, builtin, profile)
  {
    hide Overlay;
    var o := Ordered(x, OverlayFor(builtin, profile), profile);
    MergeFirst(o, 0);
    MergeFirst(o, 1);
    MergeFirst(o, 2);
    MergeFirst(o, 3);
    MergeFirst(o, 4);
    MergeFirst(o, 5);
    MergeFirst(o, 6);
    MergeFirst(o, 7);
    MergeFirst(o, 8);
    assert o[..0] == [] && o[..9] == o;
    OverlayIdentity(o[0].data);
    var workspace := Overlay(Overlay(Overlay(o[0].data, x.global), x.org), x.project);
    OverlayOfDicts(Overlay(Overlay(o[0].data, x.global), x.org), x.project);
    OverlayIdentity(workspace);
  }

  lemma {:induction false} OverlayOfDicts(base: Tree, over: Tree)
    requires over.Dict?
    ensures Overlay(base, over).Dict?
  {
  }

  lemma {:induction false} OverlayLays(base: Tree, over: Tree, p: Path, v: Tree)
    requires p != [] && v.Leaf? && over.Dict?
    ensures Get(Overlay(base, over), p) == Some(v) <==> Lays(Get(base, p) == Some(v), over, p, v)
  {
    GetOverlay(base, over, p);
    GetPresentOrCut(over, p);
  }

  /** The precedence, path by path: a scalar stands in the merged tree exactly as the layers lay it down. */
  lemma {:induction false} StackedStands(x: Inputs, builtin: map<string, Tree>, profile: string, p: Path, v: Tree)
    requires AllInputsDicts(x) && (profile in builtin ==> builtin[profile].Dict?) && p != [] && v.Leaf?
    ensures Get(Stacked(x, builtin, profile), p) == Some(v) <==> Stands(x, builtin, profile, p, v)
  {
    hide Lays, Get, Overlay, Untouched;
    var defaults := Dict(x.defaults.m["profile" := Leaf(Str(profile))]);
    DefaultsAt(x, profile, p, v);
    OverlayLays(defaults, x.global, p, v);
    var global := Overlay(defaults, x.global);
    OverlayLays(global, x.org, p, v);
    var org := Overlay(global, x.org);
    OverlayLays(org, x.project, p, v);
    var workspace := Overlay(org, x.project);
    if profile in builtin {
      OverlayLays(workspace, builtin[profile], p, v);
    }
    var overlaid := if profile in builtin then Overlay(workspace, builtin[profile]) else workspace;
    OverlayLays(overlaid, x.env, p, v);
    var env := Overlay(overlaid, x.env);
    OverlayLays(env, x.overrides, p, v);
    var line := Overlay(env, x.overrides);
    OverlayLays(line, x.run, p, v);
    OverlayLays(Overlay(line, x.run), x.policy, p, v);
  }

  lemma {:induction false} DefaultsAt(x: Inputs, profile: string, p: Path, v: Tree)
    requires x.defaults.Dict? && p != [] && v.Leaf?
    ensures Get(Dict(x.defaults.m["profile" := Leaf(Str(profile))]), p) == Some(v) <==> DefaultsLay(x, profile, p, v)
  {
    if p[0] == "profile" {
      assert p == ["profile"] + p[1..];
    }
  }

  /** With nothing above it that touches the path, the overlay of a built-in profile decides. */
  lemma {:induction false} OverlayDecides(x: Inputs, builtin: map<string, Tree>, profile: string, p: Path, v: Tree)
    requires AllInputsDicts(x) && profile in builtin && builtin[profile].Dict? && p != [] && v.Leaf?
    requires Get(builtin[profile], p) == Some(v)
    requires Untouched(x.env, p) && Untouched(x.overrides, p) && Untouched(x.run, p) && Untouched(x.policy, p)
    ensures Get(Stacked(x, builtin, profile), p) == Some(v)
  {
    StackedStands(x, builtin, profile, p, v);
  }

  /** A name some layer has is defined, last by some layer. */
  lemma {:induction false} LastOf(layers: Layers, d: string) returns (w: int)
    ensures Definers(layers, d) == [] ==> forall i :: 0 <= i < |layers| ==> !HasDotted(layers[i].data, d)
    ensures Definers(layers, d) != [] ==> LastWithDotted(layers, d, w)
  {
    if layers == [] {
      w := 0;
    } else {
      var n := |layers| - 1;
      if HasDotted(layers[n].data, d) {
        w := n;
      } else {
        w := LastOf(layers[..n], d);
      }
    }
  }

  /** The record credits every dotted name to the highest layer with a leaf of that name. */
  lemma {:induction false} NamesCredited(record: Provenance, x: Inputs, builtin: map<string, Tree>)
    requires AllInputsDicts(x)
    requires record.Describes(Ordered(x, OverlayFor(builtin, record.profile), record.profile))
    ensures forall d :: CreditOf(record.byDottedKey, d) ==
                        Highest(x, builtin, record.profile, (t: Tree) => HasDotted(t, d))
  {
    hide HasDotted;
    var o := Ordered(x, OverlayFor(builtin, record.profile), record.profile);
    forall d
      ensures CreditOf(record.byDottedKey, d) == Highest(x, builtin, record.profile, (t: Tree) => HasDotted(t, d))
    {
      var w := LastOf(o, d);
      assert EntryDescribes(record.byDottedKey, record.dottedKeyLayers, d, Definers(o, d));
      EmptyHasNone(d);
      if Definers(o, d) == [] {
        NoneHighest(x, builtin, record.profile, (t: Tree) => HasDotted(t, d));
      } else {
        LastDefiner(o, d, w);
        HighestNamed(x, builtin, record.profile, (t: Tree) => HasDotted(t, d), w);
      }
    }
  }

  lemma {:induction false} EmptyHasNone(d: string)
    ensures !HasDotted(EMPTY, d)
  {
    forall p
      ensures !HasLeaf(EMPTY, p)
    {
    }
  }

  /** The last of the ordered layers with a property the empty one lacks is the highest. */
  lemma {:induction false} HighestNamed(x: Inputs, builtin: map<string, Tree>, profile: string, has: Tree -> bool,
                                        w: int)
    requires x.defaults.Dict? && 0 <= w < 9 && !has(EMPTY)
    requires has(Ordered(x, OverlayFor(builtin, profile), profile)[w].data)
    requires forall j :: w < j < 9 ==> !has(Ordered(x, OverlayFor(builtin, profile), profile)[j].data)
    ensures Highest(x, builtin, profile, has) == Some(Ordered(x, OverlayFor(builtin, profile), profile)[w].name)
  {
    var o := Ordered(x, OverlayFor(builtin, profile), profile);
    assert o[8].data == x.policy && o[7].data == x.run && o[6].data == x.overrides && o[5].data == x.env;
    assert o[3].data == x.project && o[2].data == x.org && o[1].data == x.global;
    assert o[4].data == if profile in builtin then builtin[profile] else EMPTY;
    assert forall j :: w < j < 9 ==> !has(o[j].data);
  }

  lemma {:induction false} NoneHighest(x: Inputs, builtin: map<string, Tree>, profile: string, has: Tree -> bool)
    requires x.defaults.Dict?
    requires forall j :: 0 <= j < 9 ==> !has(Ordered(x, OverlayFor(builtin, profile), profile)[j].data)
    ensures Highest(x, builtin, profile, has).None?
  {
    var o := Ordered(x, OverlayFor(builtin, profile), profile);
    assert !has(o[0].data) && !has(o[1].data) && !has(o[2].data) && !has(o[3].data) && !has(o[4].data);
    assert !has(o[5].data) && !has(o[6].data) && !has(o[7].data) && !has(o[8].data);
  }

  /** The record credits every top-level key to the highest layer that has it. */
  lemma {:induction false} KeysCredited(record: Provenance, x: Inputs, builtin: map<string, Tree>)
    requires AllInputsDicts(x)
    requires record.Describes(Ordered(x, OverlayFor(builtin, record.profile), record.profile))
    ensures forall k :: CreditOf(record.byKey, k) == Highest(x, builtin, record.profile, (t: Tree) => HasKey(t, k))
  {
    var o := Ordered(x, OverlayFor(builtin, record.profile), record.profile);
    forall k
      ensures CreditOf(record.byKey, k) == Highest(x, builtin, record.profile, (t: Tree) => HasKey(t, k))
    {
      if k in record.byKey {
        var w :| LastWithKey(o, k, w) && record.byKey[k] == o[w].name;
        HighestNamed(x, builtin, record.profile, (t: Tree) => HasKey(t, k), w);
      } else {
        NoneHighest(x, builtin, record.profile, (t: Tree) => HasKey(t, k));
      }
    }
  }

  /**
    resolve: select the profile, order the layers, merge them with their record, and validate the
    result. What comes out is the nine layers stacked in their order, whatever the names
    of the helpers; each top-level key and each dotted name is credited to the highest
    layer that has it.
  */
  method Resolve(x: Inputs, builtin: map<string, Tree>, schema: Tree -> bool) returns (r: Resolved, record: Provenance)
    requires AllInputsDicts(x) && forall name :: name in builtin ==> builtin[name].Dict?
    ensures fresh(record)
    ensures Picked(Selection(x), record.profile, record.profileLayer)
    ensures record.Describes(Ordered(x, OverlayFor(builtin, record.profile), record.profile))
    ensures r.data == MergeAll(Ordered(x, OverlayFor(builtin, record.profile), record.profile))
    ensures Chosen(x, record.profile, record.profileLayer)
    ensures r.data == Stacked(x, builtin, record.profile)
    ensures forall p, v: Tree :: p != [] && v.Leaf? ==>
              (Get(r.data, p) == Some(v) <==> Stands(x, builtin, record.profile, p, v))
    ensures forall d :: CreditOf(record.byDottedKey, d) ==
                        Highest(x, builtin, record.profile, (t: Tree) => HasDotted(t, d))
    ensures forall k :: CreditOf(record.byKey, k) == Highest(x, builtin, record.profile, (t: Tree) => HasKey(t, k))
    ensures r.Valid? <==> schema(r.data)
    ensures InputsDotFree(x) && DotFree(OverlayFor(builtin, record.profile)) ==>
              forall p :: HasLeaf(r.data, p) ==>
                            Credited(record, Ordered(x, OverlayFor(builtin, record.profile), record.profile), p)
    ensures !HasKey(OverlayFor(builtin, record.profile), PROFILE) ==>
              PROFILE in record.byKey
              && (Get(r.data, [PROFILE]) == Some(Leaf(Str(record.profile))) <==> SelectionClean(Selection(x)))
              && (record.byKey[PROFILE] == record.profileLayer <==> SelectionClean(Selection(x)))
  {
    var name, layer := PickProfile(Selection(x));
    var overlay := OverlayFor(builtin, name);
    record := new Provenance(name, layer);
    OrderedDistinct(x, overlay, name);
    var merged := MergeLayers(Ordered(x, overlay, name), record);
    r := if schema(merged) then Valid(merged) else Invalid(merged);
    if InputsDotFree(x) && DotFree(overlay) {
      OrderedDotFree(x, overlay, name);
      RecordSound(record, Ordered(x, overlay, name));
    }
    if !HasKey(overlay, PROFILE) {
      SelectionAgrees(x, overlay, record);
    }
    ResolveMeans(x, builtin, record);
  }

  lemma {:induction false} ResolveMeans(x: Inputs, builtin: map<string, Tree>, record: Provenance)
    requires AllInputsDicts(x) && forall name :: name in builtin ==> builtin[name].Dict?
    requires Picked(Selection(x), record.profile, record.profileLayer)
    requires record.Describes(Ordered(x, OverlayFor(builtin, record.profile), record.profile))
    ensures Chosen(x, record.profile, record.profileLayer)
    ensures MergeAll(Ordered(x, OverlayFor(builtin, record.profile), record.profile))
            == Stacked(x, builtin, record.profile)
    ensures forall p, v: Tree :: p != [] && v.Leaf? ==>
              (Get(Stacked(x, builtin, record.profile), p) == Some(v) <==> Stands(x, builtin, record.profile, p, v))
    ensures forall d :: CreditOf(record.byDottedKey, d) ==
                        Highest(x, builtin, record.profile, (t: Tree) => HasDotted(t, d))
    ensures forall k :: CreditOf(record.byKey, k) == Highest(x, builtin, record.profile, (t: Tree) => HasKey(t, k))
  {
    hide Chosen, Stacked, Stands, Highest, MergeAll, Get, Picked;
    PickedIsChosen(x, record.profile, record.profileLayer);
    OrderedStacked(x, builtin, record.profile);
    NamesCredited(record, x, builtin);
    KeysCredited(record, x, builtin);
    forall p, v: Tree | p != [] && v.Leaf?
      ensures Get(Stacked(x, builtin, record.profile), p) == Some(v) <==> Stands(x, builtin, record.profile, p, v)
    {
      StackedStands(x, builtin, record.profile, p, v);
    }
  }

  ghost predicate InputsDotFree(x: Inputs)
  {
    && DotFree(x.defaults) && DotFree(x.global) && DotFree(x.org) && DotFree(x.project)
    && DotFree(x.env) && DotFree(x.overrides) && DotFree(x.run) && DotFree(x.policy)
  }

  lemma {:induction false} OrderedDotFree(x: Inputs, overlay: Tree, name: string)
    requires AllInputsDicts(x) && InputsDotFree(x) && DotFree(overlay)
    ensures AllDotFree(Ordered(x, overlay, name))
  {
    assert DotFree(Leaf(Str(name))) && Free(PROFILE, DOT);
  }

  lemma {:induction false} OrderedDistinct(x: Inputs, overlay: Tree, name: string)
    requires AllInputsDicts(x) && overlay.Dict?
    ensures AllDicts(Ordered(x, overlay, name)) && DistinctNames(Ordered(x, overlay, name))
  {
    var o := Ordered(x, overlay, name);
    OrderedSlipped(x, overlay, name);
    assert DEFAULTS[0] != PROFILE[0];
    forall j | 0 < j < 9 && j != 4
      ensures o[j] == Selection(x)[if j < 4 then j - 1 else j - 2]
    {
      assert Place(if j < 4 then j - 1 else j - 2) == j;
    }
  }

  /** Skipping an empty layer loses nothing from the record. */
  lemma {:induction false} EmptyLayer(record: Provenance, layers: Layers, l: Layer)
    requires record.Describes(layers) && l.data == EMPTY
    ensures record.Describes(layers + [l])
  {
    var grown := layers + [l];
    assert grown[..|layers|] == layers;
    forall p
      ensures !HasLeaf(EMPTY, p)
    {
    }
    assert forall d :: Definers(grown, d) == Definers(layers, d);
    forall k | k in record.byKey
      ensures exists w :: LastWithKey(grown, k, w) && record.byKey[k] == grown[w].name
    {
      var w :| LastWithKey(layers, k, w) && record.byKey[k] == layers[w].name;
      assert LastWithKey(grown, k, w);
    }
  }
}
