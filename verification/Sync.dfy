/**
  Patching the project's configuration file in place: a write that does not leave a
  loadable configuration is reverted, and the preference bridge built on it.
*/
module Sync {
  import opened ConfigTree
  import opened Options
  import opened ConfigLeaves
  import opened Text

  datatype Parsed = Parsed(t: Tree) | Broken

  /**
    What the file format and the schema are to this module: parsing, printing (which may
    refuse a value), and whether a mapping passes normalisation, merging and validation.
  */
  datatype Format = Format(parse: string -> Parsed, render: Tree -> Option<string>, valid: Tree -> bool)

  /** Printing is undone by parsing. */
  ghost predicate Faithful(f: Format)
  {
    forall t :: f.render(t).Some? ==> f.parse(f.render(t).value) == Parsed(t)
  }

  /** The values Python counts as false, which an empty file also loads as. */
  predicate Falsy(t: Tree)
  {
    match t
    case Dict(m) => m == map[]
    case Leaf(v) => v.Null? || v == Bool(false) || v == Num(0.0) || v == Str("") || v == Items([])
  }

  /** The mapping a text holds, if it parses to one. */
  function Mapping(f: Format, text: string): Option<Tree>
  {
    match f.parse(text)
    case Broken => None
    case Parsed(t) => if Falsy(t) then Some(EMPTY) else if t.Dict? then Some(t) else None
  }

  /**
    What a text loads as: a mapping as itself, and null, false, zero, the empty text and the
    empty list, which count as false, as the empty mapping; no other value is a mapping.
  */
  lemma {:induction false} MappingCases(f: Format, text: string)
    ensures f.parse(text).Broken? ==> Mapping(f, text).None?
    ensures forall m :: f.parse(text) == Parsed(Dict(m)) ==> Mapping(f, text) == Some(Dict(m))
    ensures forall v :: f.parse(text) == Parsed(Leaf(v)) ==>
              Mapping(f, text) == match v
                                  case Null => Some(Dict(map[]))
                                  case Bool(b) => if b then None else Some(Dict(map[]))
                                  case Num(n) => if n == 0.0 then Some(Dict(map[])) else None
                                  case Str(s) => if |s| == 0 then Some(Dict(map[])) else None
                                  case Items(xs) => if |xs| == 0 then Some(Dict(map[])) else None
  {
  }

  /** load_config succeeds on the text. */
  predicate Loadable(f: Format, text: string)
  {
    Mapping(f, text).Some? && f.valid(Mapping(f, text).value)
  }

  /** When a patch of the text takes hold. */
  ghost predicate Applies(f: Format, present: bool, text: string, path: string, value: Tree, overwrite: bool,
                          fault: Option<string>)
  {
    && present && Mapping(f, text).Some? && fault.None?
    && var data := Mapping(f, text).value;
       && (overwrite || Get(data, Split(path, DOT)).None?)
       && f.render(SetPath(data, Split(path, DOT), value)).Some?
       && f.valid(SetPath(data, Split(path, DOT), value))
  }

  class ConfigFile {
    const present: bool
    var text: string

    constructor (present: bool, text: string)
      ensures this.present == present && this.text == text
    {
      this.present, this.text := present, text;
    }

    /**
      set_yaml_key. A write fault, if any, leaves the given garbage in the file before
      the revert. The call reports exactly whether the patch took hold; if it did not, the
      text is what it was, and if it did, the file loads and holds the patched mapping. A
      fill-only patch then keeps every scalar exactly when nothing but dicts stands above
      the path. The mapping is a tree: no dict on the way is shared through a YAML alias
      (SharedDicts says what happens if one is).
    */
    method SetYamlKey(f: Format, path: string, value: Tree, overwrite: bool, fault: Option<string>)
      returns (applied: bool)
      requires Faithful(f)
      modifies this`text
      ensures applied <==> Applies(f, present, old(text), path, value, overwrite, fault)
      ensures !applied ==> text == old(text)
      ensures applied ==> Loadable(f, text)
                          && Mapping(f, text) == Some(SetPath(Mapping(f, old(text)).value, Split(path, DOT), value))
      ensures applied ==> Some(text) == f.render(SetPath(Mapping(f, old(text)).value, Split(path, DOT), value))
      ensures applied && !overwrite ==>
                (KeepsScalars(Mapping(f, old(text)).value, Mapping(f, text).value)
                 <==> ClearAbove(Mapping(f, old(text)).value, Split(path, DOT)))
    {
      if !present {
        return false;
      }
      var original := text;
      var parsed := f.parse(original);
      if parsed.Broken? {
        text := original;
        return false;
      }
      var data := if Falsy(parsed.t) then EMPTY else parsed.t;
      if data.Leaf? {
        text := original;
        return false;
      }
      var parts := Split(path, DOT);
      var last := parts[|parts| - 1];
      var cursor, spine := Descend(data, parts);
      if !overwrite && last in cursor.m {
        return false;
      }
      var patched := HangUp(spine, Dict(cursor.m[last := value]));
      assert patched == SetPath(data, parts, value);
      var printed := f.render(patched);
      if printed.None? {
        text := original;
        return false;
      }
      if fault.Some? {
        text := fault.value;
        text := original;
        return false;
      }
      text := printed.value;
      PatchedMapping(f, patched);
      if !Loadable(f, text) {
        text := original;
        return false;
      }
      if !overwrite {
        FillOnlyKeepsScalars(data, parts, value);
      }
      return true;
    }

    /** sync_pref_to_yaml: patch the path mapped to entry i of the table. */
    method SyncPref(f: Format, i: nat, value: Tree, overwrite: bool, fault: Option<string>) returns (done: bool)
      requires Faithful(f) && i < |PREF_TO_YAML|
      modifies this`text
      ensures done <==> Applies(f, present, old(text), Dotted(PREF_TO_YAML[i].1), value, overwrite, fault)
      ensures !done ==> text == old(text)
      ensures done ==>
                Mapping(f, old(text)).Some? && Loadable(f, text)
                && Mapping(f, text) == Some(SetPath(Mapping(f, old(text)).value, PREF_TO_YAML[i].1, value))
      ensures done ==> Split(Dotted(PREF_TO_YAML[i].1), DOT) == PREF_TO_YAML[i].1
                       && Some(text) == f.render(SetPath(Mapping(f, old(text)).value, PREF_TO_YAML[i].1, value))
      ensures done && !overwrite ==> Get(Mapping(f, old(text)).value, PREF_TO_YAML[i].1).None?
    {
      PrefTable();
      SplitOfJoin(PREF_TO_YAML[i].1, DOT);
      hide SetPath, Mapping, Loadable, Get, KeepsScalars, ClearAbove, Split;
      done := SetYamlKey(f, Dotted(PREF_TO_YAML[i].1), value, overwrite, fault);
    }

    /**
      sync_runtime_prefs_to_yaml over the preferences that were found, each write with its
      own possible fault. A loadable file stays loadable, reported paths hold the preferred
      value, and paths that no reported one leads to or through are untouched. In fill-only
      mode the reported paths were absent, so that a mapped path that was present keeps its
      value; and all scalars are kept exactly when nothing but dicts stood above the
      reported paths. As above, the mapping is a tree.
    */
    method SyncPrefs(f: Format, prefs: map<string, Tree>, overwrite: bool, faults: map<string, string>)
        returns (applied: seq<nat>)
      requires Faithful(f)
      modifies this`text
      ensures (text, applied) == Synced(f, present, old(text), prefs, overwrite, faults, |PREF_TO_YAML|)
      ensures Loadable(f, old(text)) ==> Loadable(f, text)
      ensures applied == [] ==> text == old(text)
      ensures applied != [] ==> Mapping(f, old(text)).Some? && Loadable(f, text) && Mapping(f, text).Some?
      ensures applied != [] ==>
              Patched(Mapping(f, old(text)).value, Mapping(f, text).value, applied, prefs, |PREF_TO_YAML|)
      ensures applied != [] && !overwrite ==>
                AllAbsent(Mapping(f, old(text)).value, applied)
                && PresentKept(Mapping(f, old(text)).value, Mapping(f, text).value)
                && (KeepsScalars(Mapping(f, old(text)).value, Mapping(f, text).value)
                    <==> AllClear(Mapping(f, old(text)).value, applied))
    {
      hide *;
      applied := [];
      SoFarNone(f, present, text, prefs, overwrite, faults);
      for i := 0 to |PREF_TO_YAML|
        invariant SoFar(f, present, old(text), text, applied, prefs, overwrite, faults, i)
      {
        var name := PREF_TO_YAML[i].0;
        var fault := if name in faults then Some(faults[name]) else None;
        FaultIs(faults, name);
        ghost var was := text;
        var done := false;
        if name in prefs {
          done := SyncPref(f, i, prefs[name], overwrite, fault);
        }
        if done {
          SoFarMore(f, present, old(text), was, text, applied, prefs, overwrite, faults, i);
          applied := applied + [i];
        } else {
          SoFarSkip(f, present, old(text), text, applied, prefs, overwrite, faults, i);
        }
      }
      SoFarAll(f, present, old(text), text, applied, prefs, overwrite, faults);
    }
  }

  ghost function FaultAt(faults: map<string, string>, name: string): Option<string>
  {
    if name in faults then Some(faults[name]) else None
  }

  lemma {:induction false} FaultIs(faults: map<string, string>, name: string)
    ensures FaultAt(faults, name) == if name in faults then Some(faults[name]) else None
  {
  }

  /** After the first n entries: the text and the list, and what they keep. */
  ghost predicate SoFar(f: Format, present: bool, was: string, now: string, applied: seq<nat>,
                        prefs: map<string, Tree>, overwrite: bool, faults: map<string, string>, n: nat)
  {
    && n <= |PREF_TO_YAML| && (now, applied) == Synced(f, present, was, prefs, overwrite, faults, n)
    && (Loadable(f, was) ==> Loadable(f, now))
    && (applied == [] ==> now == was)
    && (applied != [] ==>
          && Mapping(f, was).Some? && Loadable(f, now)
          && Patched(Mapping(f, was).value, Mapping(f, now).value, applied, prefs, n)
          && (!overwrite ==> AllAbsent(Mapping(f, was).value, applied)))
  }

  lemma {:induction false} SoFarNone(f: Format, present: bool, text: string, prefs: map<string, Tree>,
                                     overwrite: bool, faults: map<string, string>)
    ensures SoFar(f, present, text, text, [], prefs, overwrite, faults, 0)
  {
  }

  /** An entry that is not applied. */
  lemma {:induction false} SoFarSkip(f: Format, present: bool, was: string, now: string, applied: seq<nat>,
                                     prefs: map<string, Tree>, overwrite: bool, faults: map<string, string>, i: nat)
    requires i < |PREF_TO_YAML| && SoFar(f, present, was, now, applied, prefs, overwrite, faults, i)
    requires var (name, path) := PREF_TO_YAML[i];
             name in prefs ==> !Applies(f, present, now, Dotted(path), prefs[name], overwrite, FaultAt(faults, name))
    ensures SoFar(f, present, was, now, applied, prefs, overwrite, faults, i + 1)
  {
    hide Applies, Dotted, Mapping, Loadable, OffApplied;
  }

  /** An entry that is applied. */
  lemma {:induction false} SoFarMore(f: Format, present: bool, was: string, now: string, after: string,
                                     applied: seq<nat>, prefs: map<string, Tree>, overwrite: bool,
                                     faults: map<string, string>, i: nat)
    requires i < |PREF_TO_YAML| && SoFar(f, present, was, now, applied, prefs, overwrite, faults, i)
    requires var (name, path) := PREF_TO_YAML[i];
             && name in prefs && Applies(f, present, now, Dotted(path), prefs[name], overwrite, FaultAt(faults, name))
             && Split(Dotted(path), DOT) == path
             && Mapping(f, now).Some? && Loadable(f, after)
             && Mapping(f, after) == Some(SetPath(Mapping(f, now).value, path, prefs[name]))
             && Some(after) == f.render(SetPath(Mapping(f, now).value, path, prefs[name]))
             && (!overwrite ==> Get(Mapping(f, now).value, path).None?)
    ensures SoFar(f, present, was, after, applied + [i], prefs, overwrite, faults, i + 1)
  {
    MappingIsDict(f, now);
    hide Applies, Dotted, Mapping, Loadable, OffApplied, Patched, SetPath, Split, Get;
    PatchedMore(Mapping(f, was).value, Mapping(f, now).value, applied, prefs, i);
  }

  lemma {:induction false} MappingIsDict(f: Format, text: string)
    ensures Mapping(f, text).Some? ==> Mapping(f, text).value.Dict?
  {
  }

  lemma {:induction false} SoFarAll(f: Format, present: bool, was: string, now: string, applied: seq<nat>,
                                    prefs: map<string, Tree>, overwrite: bool, faults: map<string, string>)
    requires SoFar(f, present, was, now, applied, prefs, overwrite, faults, |PREF_TO_YAML|)
    ensures (now, applied) == Synced(f, present, was, prefs, overwrite, faults, |PREF_TO_YAML|)
    ensures Loadable(f, was) ==> Loadable(f, now)
    ensures applied == [] ==> now == was
    ensures applied != [] ==> Mapping(f, was).Some? && Loadable(f, now) && Mapping(f, now).Some?
    ensures applied != [] ==>
              Patched(Mapping(f, was).value, Mapping(f, now).value, applied, prefs, |PREF_TO_YAML|)
    ensures applied != [] && !overwrite ==>
              AllAbsent(Mapping(f, was).value, applied)
              && PresentKept(Mapping(f, was).value, Mapping(f, now).value)
              && (KeepsScalars(Mapping(f, was).value, Mapping(f, now).value)
                  <==> AllClear(Mapping(f, was).value, applied))
  {
    hide Mapping, Patched, AllAbsent, PresentKept, KeepsScalars, AllClear, Synced;
    if applied != [] && !overwrite {
      FillOnlyOverTable(Mapping(f, was).value, Mapping(f, now).value, applied, prefs);
    }
  }

  /**
    The text after the first n entries of the table, and those of them that were applied:
    exactly those whose preference was found and whose patch took hold on the text so far.
  */
  ghost function Synced(f: Format, present: bool, text: string, prefs: map<string, Tree>, overwrite: bool,
                        faults: map<string, string>, n: nat): (string, seq<nat>)
    requires n <= |PREF_TO_YAML|
  {
    if n == 0 then (text, [])
    else
      var (now, applied) := Synced(f, present, text, prefs, overwrite, faults, n - 1);
      var (name, path) := PREF_TO_YAML[n - 1];
      if name in prefs && Applies(f, present, now, Dotted(path), prefs[name], overwrite, FaultAt(faults, name)) then
        (f.render(SetPath(Mapping(f, now).value, Split(Dotted(path), DOT), prefs[name])).value, applied + [n - 1])
      else (now, applied)
  }

  /** Every mapping prints and is valid. */
  ghost predicate Tolerant(f: Format)
  {
    Faithful(f) && forall t: Tree :: t.Dict? ==> f.render(t).Some? && f.valid(t)
  }

  /**
    When nothing can go wrong every preference found is applied in overwriting mode: a
    present file that holds a mapping, a format that prints and accepts every mapping, no fault.
  */
  lemma {:induction false} AllApplied(f: Format, text: string, prefs: map<string, Tree>, n: nat)
    requires n <= |PREF_TO_YAML| && Tolerant(f) && Mapping(f, text).Some?
    ensures var (now, applied) := Synced(f, true, text, prefs, true, map[], n);
            && Mapping(f, now).Some?
            && forall i: nat :: i in applied <==> i < n && PREF_TO_YAML[i].0 in prefs
  {
    hide Mapping, SetPath, Applies, Tolerant, Dotted, Split;
    if n > 0 {
      AllApplied(f, text, prefs, n - 1);
      var (now, applied) := Synced(f, true, text, prefs, true, map[], n - 1);
      var (name, path) := PREF_TO_YAML[n - 1];
      if name in prefs {
        OneApplied(f, now, path, prefs[name]);
      }
      assert forall i: nat :: i in applied + [n - 1] <==> i in applied || i == n - 1;
    }
  }

  lemma {:induction false} OneApplied(f: Format, text: string, path: Path, value: Tree)
    requires Tolerant(f) && Mapping(f, text).Some?
    ensures Applies(f, true, text, Dotted(path), value, true, None)
    ensures var patched := SetPath(Mapping(f, text).value, Split(Dotted(path), DOT), value);
            f.render(patched).Some? && Mapping(f, f.render(patched).value).Some?
  {
    PatchedMapping(f, SetPath(Mapping(f, text).value, Split(Dotted(path), DOT), value));
  }

  lemma {:induction false} PatchedMapping(f: Format, patched: Tree)
    requires Faithful(f) && f.render(patched).Some? && patched.Dict?
    ensures Mapping(f, f.render(patched).value) == Some(patched)
  {
  }

  /** The runtime-affecting preferences, each with the key path it sets. */
  const PREF_TO_YAML: seq<(string, Path)> := [
    ("security_mode", ["security", "mode"]),
    ("features.embeddings", ["embedding", "enabled"]),
    ("features.mcp_server", ["tools", "mcp", "enabled"]),
    ("features.semantic_search", ["cache", "semantic", "enabled"]),
    ("features.knowledge_graph", ["knowledge_graph", "enabled"]),
    ("features.call_graph", ["knowledge_graph", "track_call_sites"]),
    ("default_provider", ["models", "default", "provider"]),
    ("default_model", ["models", "default", "model"])
  ]

  /** The preferences and the dotted keys they set, in full. */
  lemma {:induction false} PrefTableInFull()
    ensures |PREF_TO_YAML| == 8
    ensures PREF_TO_YAML[0].0 == "security_mode" && Dotted(PREF_TO_YAML[0].1) == "security.mode"
    ensures PREF_TO_YAML[1].0 == "features.embeddings" && Dotted(PREF_TO_YAML[1].1) == "embedding.enabled"
    ensures PREF_TO_YAML[2].0 == "features.mcp_server" && Dotted(PREF_TO_YAML[2].1) == "tools.mcp.enabled"
    ensures PREF_TO_YAML[3].0 == "features.semantic_search" && Dotted(PREF_TO_YAML[3].1) == "cache.semantic.enabled"
    ensures PREF_TO_YAML[4].0 == "features.knowledge_graph" && Dotted(PREF_TO_YAML[4].1) == "knowledge_graph.enabled"
    ensures PREF_TO_YAML[5].0 == "features.call_graph"
            && Dotted(PREF_TO_YAML[5].1) == "knowledge_graph.track_call_sites"
    ensures PREF_TO_YAML[6].0 == "default_provider" && Dotted(PREF_TO_YAML[6].1) == "models.default.provider"
    ensures PREF_TO_YAML[7].0 == "default_model" && Dotted(PREF_TO_YAML[7].1) == "models.default.model"
  {
    FirstPrefs();
    LastPrefs();
  }

  lemma {:induction false} FirstPrefs()
    ensures Dotted(["security", "mode"]) == "security.mode" && Dotted(["embedding", "enabled"]) == "embedding.enabled"
    ensures Dotted(["tools", "mcp", "enabled"]) == "tools.mcp.enabled"
    ensures Dotted(["cache", "semantic", "enabled"]) == "cache.semantic.enabled"
  {
    hide Dotted;
    DottedTwo("security", "mode");
    DottedTwo("embedding", "enabled");
    DottedThree("tools", "mcp", "enabled");
    DottedThree("cache", "semantic", "enabled");
  }

  lemma {:induction false} LastPrefs()
    ensures Dotted(["knowledge_graph", "enabled"]) == "knowledge_graph.enabled"
    ensures Dotted(["knowledge_graph", "track_call_sites"]) == "knowledge_graph.track_call_sites"
    ensures Dotted(["models", "default", "provider"]) == "models.default.provider"
    ensures Dotted(["models", "default", "model"]) == "models.default.model"
  {
    hide Dotted;
    DottedTwo("knowledge_graph", "enabled");
    DottedTwo("knowledge_graph", "track_call_sites");
    DottedThree("models", "default", "provider");
    DottedThree("models", "default", "model");
  }

  lemma {:induction false} DottedThree(a: string, b: string, c: string)
    ensures Dotted([a, b, c]) == a + "." + b + "." + c
  {
    DottedTwo(b, c);
    assert [a, b, c][1..] == [b, c];
    assert a + [DOT] + (b + "." + c) == a + "." + b + "." + c;
  }

  /** No mapped path leads through another, and no key holds a dot. */
  lemma {:induction false} PrefTable()
    ensures forall i :: 0 <= i < |PREF_TO_YAML| ==> PREF_TO_YAML[i].1 != [] && AllFree(PREF_TO_YAML[i].1, DOT)
    ensures forall i, j :: 0 <= i < |PREF_TO_YAML| && 0 <= j < |PREF_TO_YAML| && i != j ==>
                             !Comparable(PREF_TO_YAML[i].1, PREF_TO_YAML[j].1)
  {
    forall i, j | 0 <= i < j < |PREF_TO_YAML|
      ensures !Comparable(PREF_TO_YAML[i].1, PREF_TO_YAML[j].1)
    {
      var p, q := PREF_TO_YAML[i].1, PREF_TO_YAML[j].1;
      var k := if i == 4 && j == 5 then 1 else if i == 6 && j == 7 then 2 else 0;
      assert k < |p| && k < |q| && |p[k]| > 0 && |q[k]| > 0 && (|p[k]| != |q[k]| || p[k][0] != q[k][0]);
    }
  }

  /**
    Each of the applied entries, all from the first n, holds its value, and every path aside
    from them is as it was.
  */
  ghost predicate Patched(before: Tree, after: Tree, applied: seq<nat>, prefs: map<string, Tree>, n: nat)
  {
    && n <= |PREF_TO_YAML|
    && (forall k :: k in applied ==> k < n && PREF_TO_YAML[k].0 in prefs
                                     && Get(after, PREF_TO_YAML[k].1) == Some(prefs[PREF_TO_YAML[k].0]))
    && (forall p :: OffApplied(applied, p) ==> Get(after, p) == Get(before, p))
  }

  /** No applied path leads to p or through it. */
  ghost predicate OffApplied(applied: seq<nat>, p: Path)
  {
    forall k :: k in applied && k < |PREF_TO_YAML| ==> !Comparable(p, PREF_TO_YAML[k].1)
  }

  /** None of the applied paths was present. */
  ghost predicate AllAbsent(before: Tree, applied: seq<nat>)
  {
    forall k :: k in applied && k < |PREF_TO_YAML| ==> Get(before, PREF_TO_YAML[k].1).None?
  }

  ghost predicate AllClear(before: Tree, applied: seq<nat>)
  {
    forall k :: k in applied && k < |PREF_TO_YAML| ==> ClearAbove(before, PREF_TO_YAML[k].1)
  }

  /** Every mapped path that was present has the value it had. */
  ghost predicate PresentKept(before: Tree, after: Tree)
  {
    forall i :: 0 <= i < |PREF_TO_YAML| && Get(before, PREF_TO_YAML[i].1).Some? ==>
                  Get(after, PREF_TO_YAML[i].1) == Get(before, PREF_TO_YAML[i].1)
  }

  /** An entry other than the applied ones lies aside from them. */
  lemma {:induction false} OtherEntryOff(applied: seq<nat>, i: nat)
    requires i < |PREF_TO_YAML| && i !in applied
    ensures OffApplied(applied, PREF_TO_YAML[i].1)
  {
    PrefTable();
  }

  /** One more entry patched. */
  lemma {:induction false} PatchedMore(before: Tree, data: Tree, applied: seq<nat>, prefs: map<string, Tree>, i: nat)
    requires i < |PREF_TO_YAML| && PREF_TO_YAML[i].0 in prefs && data.Dict?
    requires if applied == [] then data == before else Patched(before, data, applied, prefs, i)
    ensures PREF_TO_YAML[i].1 != []
    ensures Patched(before, SetPath(data, PREF_TO_YAML[i].1, prefs[PREF_TO_YAML[i].0]), applied + [i], prefs, i + 1)
    ensures Get(data, PREF_TO_YAML[i].1) == Get(before, PREF_TO_YAML[i].1)
  {
    PrefTable();
    var q, value := PREF_TO_YAML[i].1, prefs[PREF_TO_YAML[i].0];
    var after := SetPath(data, q, value);
    GetAtOrBelow(data, q, value, q);
    forall p | !Comparable(p, q)
      ensures Get(after, p) == Get(data, p)
    {
      GetAside(data, q, value, p);
    }
    assert i in applied + [i];
    forall k | k in applied + [i]
      ensures k < i + 1 && PREF_TO_YAML[k].0 in prefs
      ensures Get(after, PREF_TO_YAML[k].1) == Some(prefs[PREF_TO_YAML[k].0])
    {
      assert k in applied || k == i;
    }
    forall p | OffApplied(applied + [i], p)
      ensures Get(after, p) == Get(before, p)
    {
      assert OffApplied(applied, p) by {
        assert forall k :: k in applied ==> k in applied + [i];
      }
    }
    OtherEntryOff(applied, i);
  }

  // ---- What fill-only mode keeps ----

  /** Every scalar is where it was. */
  ghost predicate KeepsScalars(before: Tree, after: Tree)
  {
    forall p, v :: Get(before, p) == Some(v) && v.Leaf? ==> Get(after, p) == Some(v)
  }

  /** Whatever stands on the way to q is a dict. */
  ghost predicate ClearAbove(t: Tree, q: Path)
  {
    forall n :: 0 <= n < |q| ==> DictOrNothing(Get(t, q[..n]))
  }

  predicate DictOrNothing(t: Option<Tree>)
  {
    t.Some? ==> t.value.Dict?
  }

  /** On the way to anything there are only dicts. */
  lemma {:induction false} PresentMeansClear(t: Tree, q: Path)
    requires Get(t, q).Some?
    ensures ClearAbove(t, q)
  {
    forall n | 0 <= n < |q|
      ensures DictOrNothing(Get(t, q[..n]))
    {
      DictAbove(t, q, n);
    }
  }

  lemma {:induction false} DictAbove(t: Tree, q: Path, n: nat)
    requires Get(t, q).Some? && n < |q|
    ensures Get(t, q[..n]).Some? && Get(t, q[..n]).value.Dict?
    decreases n
  {
    if n > 0 {
      assert q[..n][1..] == q[1..][..n - 1];
      DictAbove(t.m[q[0]], q[1..], n - 1);
    }
  }

  /** If all scalars are kept and q is present now, only dicts stood above it before. */
  lemma {:induction false} KeptMeansClear(before: Tree, after: Tree, q: Path)
    requires KeepsScalars(before, after) && Get(after, q).Some?
    ensures ClearAbove(before, q)
  {
    PresentMeansClear(after, q);
    forall n | 0 <= n < |q|
      ensures DictOrNothing(Get(before, q[..n]))
    {
      assert DictOrNothing(Get(after, q[..n]));
    }
  }

  lemma {:induction false} PrefixTaken(p: Path, q: Path)
    requires p <= q
    ensures q[..|p|] == p && (|p| == |q| ==> p == q)
  {
  }

  /** A scalar is not strictly above an absent path with a clear way, nor at or below it. */
  lemma {:induction false} ScalarAside(before: Tree, q: Path, p: Path)
    requires Get(before, q).None? && ClearAbove(before, q)
    requires Get(before, p).Some? && Get(before, p).value.Leaf?
    ensures !Comparable(p, q)
  {
    forall n | 0 <= n < |q|
      ensures q[..n] != p
    {
      assert DictOrNothing(Get(before, q[..n]));
    }
    if |q| < |p| {
      DictAbove(before, p, |q|);
      assert p[..|q|] != q;
    }
    if p <= q {
      PrefixTaken(p, q);
    }
    if q <= p {
      PrefixTaken(q, p);
    }
  }

  /** A fill-only patch keeps every scalar exactly when nothing but dicts stands on the way to the path. */
  lemma {:induction false} FillOnlyKeepsScalars(data: Tree, q: Path, value: Tree)
    requires data.Dict? && q != [] && Get(data, q).None?
    ensures KeepsScalars(data, SetPath(data, q, value)) <==> ClearAbove(data, q)
  {
    var after := SetPath(data, q, value);
    GetAtOrBelow(data, q, value, q);
    if KeepsScalars(data, after) {
      KeptMeansClear(data, after, q);
    }
    if ClearAbove(data, q) {
      forall p, v | Get(data, p) == Some(v) && v.Leaf?
        ensures Get(after, p) == Some(v)
      {
        ScalarAside(data, q, p);
        GetAside(data, q, value, p);
      }
    }
  }

  /** The same over the whole table. */
  lemma {:induction false} FillOnlyOverTable(before: Tree, after: Tree, applied: seq<nat>, prefs: map<string, Tree>)
    requires Patched(before, after, applied, prefs, |PREF_TO_YAML|) && AllAbsent(before, applied)
    ensures PresentKept(before, after)
    ensures KeepsScalars(before, after) <==> AllClear(before, applied)
  {
    forall i | 0 <= i < |PREF_TO_YAML| && Get(before, PREF_TO_YAML[i].1).Some?
      ensures Get(after, PREF_TO_YAML[i].1) == Get(before, PREF_TO_YAML[i].1)
    {
      OtherEntryOff(applied, i);
    }
    if KeepsScalars(before, after) {
      forall k | k in applied && k < |PREF_TO_YAML|
        ensures ClearAbove(before, PREF_TO_YAML[k].1)
      {
        KeptMeansClear(before, after, PREF_TO_YAML[k].1);
      }
    }
    if AllClear(before, applied) {
      forall p, v | Get(before, p) == Some(v) && v.Leaf?
        ensures Get(after, p) == Some(v)
      {
        forall k | k in applied && k < |PREF_TO_YAML|
          ensures !Comparable(p, PREF_TO_YAML[k].1)
        {
          ScalarAside(before, PREF_TO_YAML[k].1, p);
        }
        assert OffApplied(applied, p);
      }
    }
  }

  /** The effect of one applied patch on every path of the mapping. */
  lemma {:induction false} PatchEffect(data: Tree, q: Path, value: Tree)
    requires data.Dict? && q != []
    ensures Get(SetPath(data, q, value), q) == Some(value)
    ensures forall p :: !Comparable(p, q) ==> Get(SetPath(data, q, value), p) == Get(data, p)
    ensures forall p, v :: !Comparable(p, q) ==> (LeafIs(SetPath(data, q, value), p, v) <==> LeafIs(data, p, v))
  {
    GetAtOrBelow(data, q, value, q);
    forall p | !Comparable(p, q) {
      GetAside(data, q, value, p);
    }
  }

  /** A format of two texts: one mapping, and the same mapping patched. */
  ghost function TwoTexts(data: Tree, patched: Tree): Format
  {
    Format(text => if text == "old" then Parsed(data) else if text == "new" then Parsed(patched) else Broken,
           t => if t == patched then Some("new") else None,
           t => true)
  }

  lemma {:induction false} TwoTextsApplies(data: Tree, path: string, value: Tree)
    requires data.Dict? && !Falsy(data) && Get(data, Split(path, DOT)).None?
    ensures var f := TwoTexts(data, SetPath(data, Split(path, DOT), value));
            Faithful(f) && Mapping(f, "old") == Some(data) && Applies(f, true, "old", path, value, false, None)
  {
  }

  /** A fill-only call that applies and replaces a scalar: the scalar stands above the path. */
  lemma {:induction false} FillOnlyReplacesScalarAbove() returns (f: Format, data: Tree)
    ensures Faithful(f) && Mapping(f, "old") == Some(data) && Get(data, ["models"]) == Some(Leaf(Str("local")))
    ensures Applies(f, true, "old", "models.default.model", Leaf(Str("m")), false, None)
    ensures !KeepsScalars(data, SetPath(data, Split("models.default.model", DOT), Leaf(Str("m"))))
  {
    data := Dict(map["models" := Leaf(Str("local"))]);
    var q := ModelPath();
    BelowScalar(data, q);
    f := TwoTexts(data, SetPath(data, q, Leaf(Str("m"))));
    TwoTextsApplies(data, "models.default.model", Leaf(Str("m")));
    FillOnlyKeepsScalars(data, q, Leaf(Str("m")));
  }

  lemma {:induction false} ModelPath() returns (q: Path)
    ensures q == Split("models.default.model", DOT) == ["models", "default", "model"]
  {
    q := ["models", "default", "model"];
    assert q[1..] == ["default", "model"] && q[1..][1..] == ["model"];
    assert Dotted(q) == "models.default.model";
    SplitOfJoin(q, DOT);
  }

  lemma {:induction false} BelowScalar(data: Tree, q: Path)
    requires data.Dict? && |q| > 1 && q[0] in data.m && data.m[q[0]].Leaf?
    ensures Get(data, q).None? && Get(data, [q[0]]) == Some(data.m[q[0]]) && !ClearAbove(data, q)
  {
    GetKey(data, q[0]);
    assert Get(data, q) == Get(data.m[q[0]], q[1..]);
    assert q[..1] == [q[0]];
    assert !DictOrNothing(Get(data, q[..1]));
  }
}
