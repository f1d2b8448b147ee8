/**
  User-configuration backups: one directory a backup, an index rebuilt from the
  directories by the clean-up, and deduplication of the index whenever it is saved.
*/
module ConfigBackups {
  import opened Lists
  import opened Options
  import opened Text

  const PREFIX := "backup-"
  const CONFIG_NAME := "user-config.json"
  const STATE_NAME := "state.json"
  const DEFAULT_DESCRIPTION := "auto-pre-change"

  datatype Entry = Entry(id: string, description: string, files: set<string>)

  // ---- Deduplication ----

  ghost predicate HasId(s: seq<Entry>, id: string)
  {
    exists i :: 0 <= i < |s| && s[i].id == id
  }

  /** The entries whose id has not occurred before, in order. */
  ghost function FirstById(s: seq<Entry>): seq<Entry>
  {
    if s == [] then []
    else
      var n := |s| - 1;
      FirstById(s[..n]) + if HasId(s[..n], s[n].id) then [] else [s[n]]
  }

  lemma {:induction false} FirstByIdSnoc(s: seq<Entry>, e: Entry)
    ensures FirstById(s + [e]) == if HasId(s, e.id) then FirstById(s) else FirstById(s) + [e]
  {
    assert (s + [e])[..|s|] == s;
    assert FirstById(s) + [] == FirstById(s);
  }

  ghost predicate DistinctIds(s: seq<Entry>)
  {
    forall i, j :: 0 <= i < j < |s| ==> s[i].id != s[j].id
  }

  lemma {:induction false} HasIdSnoc(s: seq<Entry>, e: Entry, id: string)
    ensures HasId(s + [e], id) <==> HasId(s, id) || e.id == id
  {
    if HasId(s, id) {
      var i :| 0 <= i < |s| && s[i].id == id;
      assert (s + [e])[i].id == id;
    }
    assert (s + [e])[|s|] == e;
  }

  ghost predicate SeenIs(seen: set<string>, s: seq<Entry>)
  {
    forall id :: id in seen <==> HasId(s, id)
  }

  lemma {:induction false} SeenMore(seen: set<string>, s: seq<Entry>, e: Entry)
    requires SeenIs(seen, s)
    ensures FirstById(s + [e]) == if e.id in seen then FirstById(s) else FirstById(s) + [e]
    ensures SeenIs(seen + {e.id}, s + [e]) && (e.id in seen ==> seen + {e.id} == seen)
  {
    FirstByIdSnoc(s, e);
    forall id {
      HasIdSnoc(s, e, id);
    }
  }

  /** Deduplication keeps every id exactly once, at its first entry, and reads back as itself. */
  lemma {:induction false} FirstByIdKeeps(s: seq<Entry>)
    ensures DistinctIds(FirstById(s))
    ensures forall id :: HasId(FirstById(s), id) <==> HasId(s, id)
  {
    if s != [] {
      var t, e := s[..|s| - 1], s[|s| - 1];
      FirstByIdKeeps(t);
      FirstByIdSnoc(t, e);
      assert t + [e] == s;
      forall id
        ensures HasId(FirstById(s), id) <==> HasId(s, id)
      {
        HasIdSnoc(t, e, id);
        HasIdSnoc(FirstById(t), e, id);
      }
      if !HasId(t, e.id) {
        assert forall i :: 0 <= i < |FirstById(t)| ==> FirstById(t)[i].id != e.id by {
          assert !HasId(FirstById(t), e.id);
        }
      }
    }
  }

  lemma {:induction false} FirstByIdOfDistinct(s: seq<Entry>)
    requires DistinctIds(s)
    ensures FirstById(s) == s
  {
    if s != [] {
      var t, e := s[..|s| - 1], s[|s| - 1];
      FirstByIdOfDistinct(t);
      FirstByIdSnoc(t, e);
      assert t + [e] == s;
    }
  }

  // ---- What a backup holds and gives back ----

  datatype UserFiles = UserFiles(config: Option<string>, state: Option<string>)

  /** The backup directory after the copy; a directory made in the same second is reused as it is. */
  function CopiedInto(dir: map<string, string>, u: UserFiles): map<string, string>
  {
    var d := if u.config.Some? then dir[CONFIG_NAME := u.config.value] else dir;
    if u.state.Some? then d[STATE_NAME := u.state.value] else d
  }

  /** The names of the user files that exist. */
  function SavedFiles(u: UserFiles): set<string>
  {
    (if u.config.Some? then {CONFIG_NAME} else {}) + if u.state.Some? then {STATE_NAME} else {}
  }

  function RestoredFrom(dir: map<string, string>, u: UserFiles): UserFiles
  {
    UserFiles(if CONFIG_NAME in dir then Some(dir[CONFIG_NAME]) else u.config,
              if STATE_NAME in dir then Some(dir[STATE_NAME]) else u.state)
  }

  /**
    Whatever happens to the user files in between, restoring a backup brings back those
    that existed when it was made, and in a new directory nothing else.
  */
  lemma {:induction false} RestoreUndoes(dir: map<string, string>, saved: UserFiles, now: UserFiles)
    ensures var r := RestoredFrom(CopiedInto(dir, saved), now);
            && (saved.config.Some? ==> r.config == saved.config)
            && (saved.state.Some? ==> r.state == saved.state)
            && (saved.config.None? ==>
                (r.config == now.config <==> CONFIG_NAME !in dir || now.config == Some(dir[CONFIG_NAME])))
            && (saved.state.None? ==>
                (r.state == now.state <==> STATE_NAME !in dir || now.state == Some(dir[STATE_NAME])))
  {
    assert |CONFIG_NAME| != |STATE_NAME|;
  }

  // ---- Cleaning up ----

  /** When a backup was made, by the text after the prefix, if that parses. */
  type Clock = string -> Option<int>

  predicate IsBackup(name: string)
  {
    PREFIX <= name
  }

  predicate Expired(name: string, clock: Clock, cutoff: int)
  {
    IsBackup(name) && clock(name).Some? && clock(name).value < cutoff
  }

  function Reverse(names: seq<string>): seq<string>
  {
    if names == [] then [] else [names[|names| - 1]] + Reverse(names[..|names| - 1])
  }

  lemma {:induction false} ReverseAt(names: seq<string>)
    ensures |Reverse(names)| == |names|
    ensures forall i :: 0 <= i < |names| ==> Reverse(names)[i] == names[|names| - 1 - i]
  {
    if names != [] {
      var t, x := names[..|names| - 1], names[|names| - 1];
      ReverseAt(t);
      forall i | 0 <= i < |names|
        ensures Reverse(names)[i] == names[|names| - 1 - i]
      {
        assert i > 0 ==> ([x] + Reverse(t))[i] == Reverse(t)[i - 1] == t[|t| - i];
      }
    }
  }

  /** The description the old index has for this id: the last entry wins, as in a dict built from it. */
  function Described(index: seq<Entry>, id: string): string
  {
    if index == [] then DEFAULT_DESCRIPTION
    else if index[|index| - 1].id == id then index[|index| - 1].description
    else Described(index[..|index| - 1], id)
  }

  lemma {:induction false} DescribedByLast(index: seq<Entry>, id: string)
    ensures forall k :: LastAt(index, id, k) ==> Described(index, id) == index[k].description
    ensures !HasId(index, id) ==> Described(index, id) == "auto-pre-change"
  {
    if index != [] {
      var t := index[..|index| - 1];
      DescribedByLast(t, id);
      forall k | LastAt(index, id, k)
        ensures Described(index, id) == index[k].description
      {
        if k < |t| {
          assert LastAt(t, id, k);
        }
      }
      if !HasId(index, id) {
        assert forall i :: 0 <= i < |t| ==> index[i] == t[i];
        assert index[|index| - 1].id != id;
      }
    }
  }

  /** Entry k is the last one with this id. */
  ghost predicate LastAt(index: seq<Entry>, id: string, k: int)
  {
    0 <= k < |index| && index[k].id == id && forall j :: k < j < |index| ==> index[j].id != id
  }

  /** The entry names the directory, its files, and what the old index last said of it, if anything. */
  ghost predicate Describes(e: Entry, name: string, dir: map<string, string>, oldIndex: seq<Entry>)
  {
    && e.id == name && e.files == dir.Keys
    && (forall k :: LastAt(oldIndex, name, k) ==> e.description == oldIndex[k].description)
    && (!HasId(oldIndex, name) ==> e.description == "auto-pre-change")
  }

  /** The index the rebuild writes for these directory names. */
  ghost function Rebuilt(names: seq<string>, oldIndex: seq<Entry>, dirs: map<string, map<string, string>>): seq<Entry>
    requires forall i :: 0 <= i < |names| ==> names[i] in dirs
  {
    seq(|names|, i requires 0 <= i < |names| => Entry(names[i], Described(oldIndex, names[i]), dirs[names[i]].Keys))
  }

  /** The names of the directories in ascending order. */
  ghost predicate IsListing(listing: seq<string>, dirs: map<string, map<string, string>>)
  {
    (forall x :: x in listing <==> x in dirs) && Ascending(listing)
  }

  ghost predicate Ascending(names: seq<string>)
  {
    forall i, j :: 0 <= i < j < |names| ==> Below(names[i], names[j])
  }

  /** Newest first, as the names tell. */
  ghost predicate NewestFirst(index: seq<Entry>)
  {
    forall i, j :: 0 <= i < j < |index| ==> Below(index[j].id, index[i].id)
  }

  lemma {:induction false} AscendingDistinct(names: seq<string>)
    requires Ascending(names)
    ensures forall i, j :: 0 <= i < j < |names| ==> names[i] != names[j]
  {
    forall i, j | 0 <= i < j < |names|
      ensures names[i] != names[j]
    {
      BelowIrreflexive(names[i]);
    }
  }

  /** The directories without those visited that go. */
  ghost function Cleared(dirs: map<string, map<string, string>>, visited: seq<string>, gone: string -> bool)
    : map<string, map<string, string>>
  {
    map name | name in dirs && !(name in visited && gone(name)) :: dirs[name]
  }

  lemma {:induction false} ClearedSnoc(dirs: map<string, map<string, string>>, visited: seq<string>, name: string,
                                       gone: string -> bool)
    ensures Cleared(dirs, visited + [name], gone)
            == if gone(name) then Cleared(dirs, visited, gone) - {name} else Cleared(dirs, visited, gone)
  {
    assert forall x :: x in visited + [name] <==> x in visited || x == name;
  }

  class ConfigBackupManager {
    var user: UserFiles
    var dirs: map<string, map<string, string>>
    var index: seq<Entry>

    constructor (user: UserFiles)
      ensures this.user == user && dirs == map[] && index == []
    {
      this.user, dirs, index := user, map[], [];
    }

    /** _save_index: the stored index is the given one without repeated ids. */
    method SaveIndex(entries: seq<Entry>)
      modifies `index
      ensures index == FirstById(entries)
    {
      var seen: set<string> := {};
      var deduped: seq<Entry> := [];
      for i := 0 to |entries|
        invariant SeenIs(seen, entries[..i]) && deduped == FirstById(entries[..i])
      {
        var e := entries[i];
        assert entries[..i + 1] == entries[..i] + [e];
        SeenMore(seen, entries[..i], e);
        if e.id !in seen {
          seen := seen + {e.id};
          deduped := deduped + [e];
        }
      }
      assert entries[..|entries|] == entries;
      index := deduped;
    }

    /** create_backup: copy the user files that exist, and put the new entry first. */
    method CreateBackup(stamp: string, description: string) returns (id: string)
      modifies this
      ensures id == "backup-" + stamp && user == old(user)
      ensures id in dirs && (user.config.Some? ==> ("user-config.json", user.config.value) in dirs[id].Items)
              && (user.state.Some? ==> ("state.json", user.state.value) in dirs[id].Items)
      ensures dirs == old(dirs)[id := CopiedInto(if id in old(dirs) then old(dirs)[id] else map[], user)]
      ensures index == FirstById([Entry(id, description, SavedFiles(user))] + old(index))
      ensures DistinctIds(index) && index != [] && index[0].id == id && index[0].description == description
      ensures forall file :: file in index[0].files <==> (file == "user-config.json" && user.config.Some?)
                                                         || (file == "state.json" && user.state.Some?)
      ensures forall other :: other != id ==> (HasId(index, other) <==> HasId(old(index), other))
    {
      id := PREFIX + stamp;
      var dir := if id in dirs then dirs[id] else map[];
      var files: set<string> := {};
      if user.config.Some? {
        dir := dir[CONFIG_NAME := user.config.value];
        files := files + {CONFIG_NAME};
      }
      if user.state.Some? {
        dir := dir[STATE_NAME := user.state.value];
        files := files + {STATE_NAME};
      }
      dirs := dirs[id := dir];
      assert files == SavedFiles(user);
      var entries := [Entry(id, description, files)] + index;
      FirstByIdKeeps(entries);
      FirstKept(entries);
      forall other | other != id
        ensures HasId(entries, other) <==> HasId(index, other)
      {
        HasIdCons(entries[0], index, other);
      }
      SaveIndex(entries);
    }

    /** restore_backup */
    method RestoreBackup(id: string) returns (found: bool)
      modifies `user
      ensures found <==> id in dirs
      ensures user == if found then RestoredFrom(dirs[id], old(user)) else old(user)
      ensures found ==> user.config == (if "user-config.json" in dirs[id] then Some(dirs[id]["user-config.json"])
                                        else old(user.config))
                        && user.state == (if "state.json" in dirs[id] then Some(dirs[id]["state.json"])
                                          else old(user.state))
    {
      if id !in dirs {
        return false;
      }
      var dir := dirs[id];
      if CONFIG_NAME in dir {
        user := UserFiles(Some(dir[CONFIG_NAME]), user.state);
      }
      if STATE_NAME in dir {
        user := UserFiles(user.config, Some(dir[STATE_NAME]));
      }
      return true;
    }

    /** The first loop of cleanup: remove the expired directories that can be removed. */
    method RemoveExpired(listing: seq<string>, gone: string -> bool) returns (removed: nat)
      requires IsListing(listing, dirs)
      modifies `dirs
      ensures dirs == map name | name in old(dirs) && !gone(name) :: old(dirs)[name]
      ensures removed == |Keep(listing, gone)|
    {
      removed := 0;
      for i := 0 to |listing|
        invariant removed == |Keep(listing[..i], gone)|
        invariant dirs == Cleared(old(dirs), listing[..i], gone)
      {
        var name := listing[i];
        assert listing[..i + 1] == listing[..i] + [name];
        KeepSnoc(listing[..i], name, gone);
        ClearedSnoc(old(dirs), listing[..i], name, gone);
        if gone(name) {
          dirs := dirs - {name};
          removed := removed + 1;
        }
      }
      assert listing[..|listing|] == listing;
    }

    /** The second loop of cleanup: an entry for every backup directory, from the last name to the first. */
    method RebuildIndex(kept: seq<string>)
      requires forall i :: 0 <= i < |kept| ==> kept[i] in dirs
      requires Ascending(kept)
      modifies `index
      ensures |Reverse(kept)| == |kept| && forall i :: 0 <= i < |kept| ==> Reverse(kept)[i] in dirs
      ensures index == Rebuilt(Reverse(kept), old(index), dirs)
      ensures NewestFirst(index) && forall name :: name in kept <==> HasId(index, name)
    {
      AscendingDistinct(kept);
      ReverseAt(kept);
      var names := Reverse(kept);
      var rebuilt: seq<Entry> := [];
      for i := 0 to |names|
        invariant |rebuilt| == i && index == old(index)
        invariant forall k :: 0 <= k < i ==>
            rebuilt[k] == Entry(names[k], Described(index, names[k]), dirs[names[k]].Keys)
      {
        rebuilt := rebuilt + [Entry(names[i], Described(index, names[i]), dirs[names[i]].Keys)];
      }
      assert rebuilt == Rebuilt(names, index, dirs);
      FirstByIdOfDistinct(rebuilt);
      RebuiltIds(kept, rebuilt);
      SaveIndex(rebuilt);
    }

    /**
      cleanup, given the sorted directory listing and the directories whose removal
      fails: the index is exactly the backup directories left, newest first, with
      known descriptions kept, and the two counts add up.
    */
    method Cleanup(listing: seq<string>, clock: Clock, cutoff: int, stuck: set<string>)
      returns (removed: nat, remaining: nat)
      requires IsListing(listing, dirs)
      modifies `dirs, `index
      ensures var left := Reverse(Keep(listing, Staying(clock, cutoff, stuck)));
              && (forall i :: 0 <= i < |left| ==> left[i] in dirs)
              && index == Rebuilt(left, old(index), dirs) && remaining == |index|
      ensures forall name :: name in dirs ==> name in old(dirs) && dirs[name] == old(dirs)[name]
      ensures forall name :: name in old(dirs) ==>
                (name !in dirs <==> "backup-" <= name && clock(name).Some? && clock(name).value < cutoff
                                    && name !in stuck)
      ensures removed == |old(dirs).Keys - dirs.Keys|
      ensures forall i :: 0 <= i < |index| ==>
                index[i].id in dirs && Describes(index[i], index[i].id, dirs[index[i].id], old(index))
      ensures removed + remaining == |set name | name in old(dirs) && "backup-" <= name|
      ensures NewestFirst(index) && forall name :: name in dirs && "backup-" <= name <==> HasId(index, name)
    {
      hide *;
      removed := RemoveExpired(listing, Going(clock, cutoff, stuck));
      var kept := Keep(listing, Staying(clock, cutoff, stuck));
      CleanupKeeps(old(dirs), dirs, listing, clock, cutoff, stuck);
      CleanupRemoves(old(dirs), dirs, listing, clock, cutoff, stuck);
      RebuildIndex(kept);
      RebuiltDescribes(Reverse(kept), old(index), dirs);
      remaining := |index|;
    }
  }

  /** In a list without repeats a filter keeps as many as there are elements that pass. */
  lemma {:induction false} KeptCount(names: seq<string>, p: string -> bool, passed: set<string>)
    requires Ascending(names) && forall x :: x in passed <==> x in names && p(x)
    ensures |Keep(names, p)| == |passed|
  {
    if names == [] {
      assert passed == {};
    } else {
      var t, x := names[..|names| - 1], names[|names| - 1];
      assert names == t + [x];
      AscendingDistinct(names);
      assert x !in t;
      KeptCount(t, p, passed - {x});
    }
  }

  /** Which directories go: those with the prefix, a time that parses and lies before the cutoff, and not stuck. */
  lemma {:induction false} CleanupRemoves(before: map<string, map<string, string>>,
                                          after: map<string, map<string, string>>, listing: seq<string>,
                                          clock: Clock, cutoff: int, stuck: set<string>)
    requires IsListing(listing, before)
    requires after == map name | name in before && !Going(clock, cutoff, stuck)(name) :: before[name]
    ensures forall name :: name in after ==> name in before && after[name] == before[name]
    ensures forall name :: name in before ==>
              (name !in after <==> "backup-" <= name && clock(name).Some? && clock(name).value < cutoff
                                   && name !in stuck)
    ensures |Keep(listing, Going(clock, cutoff, stuck))| == |before.Keys - after.Keys|
  {
    KeptCount(listing, Going(clock, cutoff, stuck), before.Keys - after.Keys);
  }

  /** The backup directories that are left, and that each either went or stayed. */
  lemma {:induction false} CleanupKeeps(before: map<string, map<string, string>>,
                                        after: map<string, map<string, string>>, listing: seq<string>,
                                        clock: Clock, cutoff: int, stuck: set<string>)
    requires IsListing(listing, before)
    requires after == map name | name in before && !Going(clock, cutoff, stuck)(name) :: before[name]
    ensures var kept := Keep(listing, Staying(clock, cutoff, stuck));
            && Ascending(kept) && (forall name :: name in kept <==> name in after && "backup-" <= name)
            && (forall i :: 0 <= i < |kept| ==> kept[i] in after)
            && |set name | name in before && "backup-" <= name| == |Keep(listing, Going(clock, cutoff, stuck))| + |kept|
  {
    hide Keep;
    var gone, stays := Going(clock, cutoff, stuck), Staying(clock, cutoff, stuck);
    KeepMembers(listing, stays);
    KeepPairwise(listing, stays, Below);
    KeepCounts(listing, gone, stays);
    KeptCount(listing, IsBackup, set name | name in before && "backup-" <= name);
  }

  lemma {:induction false} RebuiltDescribes(names: seq<string>, oldIndex: seq<Entry>,
                                            dirs: map<string, map<string, string>>)
    requires forall i :: 0 <= i < |names| ==> names[i] in dirs
    ensures |Rebuilt(names, oldIndex, dirs)| == |names|
    ensures var index := Rebuilt(names, oldIndex, dirs);
            forall i :: 0 <= i < |index| ==>
              index[i].id in dirs && Describes(index[i], index[i].id, dirs[index[i].id], oldIndex)
  {
    forall i | 0 <= i < |names|
      ensures Describes(Rebuilt(names, oldIndex, dirs)[i], names[i], dirs[names[i]], oldIndex)
    {
      DescribedByLast(oldIndex, names[i]);
    }
  }

  /** An expired backup directory whose removal does not fail. */
  predicate Removable(name: string, clock: Clock, cutoff: int, stuck: set<string>)
  {
    Expired(name, clock, cutoff) && name !in stuck
  }

  function Going(clock: Clock, cutoff: int, stuck: set<string>): string -> bool
  {
    name => Removable(name, clock, cutoff, stuck)
  }

  function Staying(clock: Clock, cutoff: int, stuck: set<string>): string -> bool
  {
    name => IsBackup(name) && !Removable(name, clock, cutoff, stuck)
  }

  /** The first entry always survives deduplication. */
  lemma {:induction false} FirstKept(s: seq<Entry>)
    requires s != []
    ensures FirstById(s) != [] && FirstById(s)[0] == s[0]
  {
    var t, e := s[..|s| - 1], s[|s| - 1];
    FirstByIdSnoc(t, e);
    assert t + [e] == s;
    if t != [] {
      FirstKept(t);
    } else {
      assert FirstById(s) == [e];
    }
  }

  lemma {:induction false} HasIdCons(e: Entry, s: seq<Entry>, id: string)
    ensures HasId([e] + s, id) <==> e.id == id || HasId(s, id)
  {
    var t := [e] + s;
    assert t[0] == e;
    if HasId(s, id) {
      var i :| 0 <= i < |s| && s[i].id == id;
      assert t[i + 1].id == id;
    }
    if HasId(t, id) && e.id != id {
      var i :| 0 <= i < |t| && t[i].id == id;
      assert s[i - 1].id == id;
    }
  }

  /** Directories of a backup either go or stay. */
  lemma {:induction false} KeepCounts(names: seq<string>, gone: string -> bool, stays: string -> bool)
    requires forall x :: IsBackup(x) <==> gone(x) || stays(x)
    requires forall x :: gone(x) ==> !stays(x)
    ensures |Keep(names, IsBackup)| == |Keep(names, gone)| + |Keep(names, stays)|
  {
    if names != [] {
      KeepCounts(names[..|names| - 1], gone, stays);
    }
  }

  lemma {:induction false} RebuiltIds(kept: seq<string>, rebuilt: seq<Entry>)
    requires |rebuilt| == |kept| && forall i :: 0 <= i < |kept| ==> rebuilt[i].id == kept[|kept| - 1 - i]
    ensures forall name :: name in kept <==> HasId(rebuilt, name)
  {
    forall name
      ensures name in kept <==> HasId(rebuilt, name)
    {
      if name in kept {
        var i :| 0 <= i < |kept| && kept[i] == name;
        assert rebuilt[|kept| - 1 - i].id == name;
      }
    }
  }
}
