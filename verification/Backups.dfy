/**
  The project backup store: an index of entries beside a directory of archives, with
  deduplication, pinning and pruning to the newest few.
*/
module Backups {
  import opened Lists
  import opened Options

  /** The files of one backup in path order, each with its bytes. */
  type Snapshot = seq<(string, string)>

  /** What the content hash is computed from: the bytes of the files, one after another. */
  function Bytes(s: Snapshot): string
  {
    if s == [] then "" else s[0].1 + Bytes(s[1..])
  }

  datatype Entry = Entry(id: string, stamp: nat, hash: string, pinned: bool)

  datatype Store = Store(index: seq<Entry>, archives: map<string, Snapshot>)

  const MAX_BACKUPS: nat := 5

  // ---- Lists of entries ----

  predicate Loose(e: Entry)
  {
    !e.pinned
  }

  function Unpinned(s: seq<Entry>): seq<Entry>
  {
    Keep(s, Loose)
  }

  function Ids(s: seq<Entry>): set<string>
  {
    set e | e in s :: e.id
  }

  /** The entries whose id is not among ids, in order. */
  function Outside(s: seq<Entry>, ids: set<string>): seq<Entry>
  {
    Keep(s, NotIn(ids))
  }

  function NotIn(ids: set<string>): Entry -> bool
  {
    (e: Entry) => e.id !in ids
  }

  ghost predicate DistinctIds(s: seq<Entry>)
  {
    forall i, j :: 0 <= i < j < |s| ==> s[i].id != s[j].id
  }

  ghost predicate DistinctHashes(s: seq<Entry>)
  {
    forall i, j :: 0 <= i < j < |s| ==> s[i].hash != s[j].hash
  }

  lemma {:induction false} IdsSnoc(s: seq<Entry>, e: Entry)
    ensures Ids(s + [e]) == Ids(s) + {e.id}
  {
    assert forall x :: x in s + [e] <==> x in s || x == e;
    assert e in s + [e];
    assert Ids(s + [e]) >= Ids(s);
  }

  lemma {:induction false} KeepDistinctIds(s: seq<Entry>, p: Entry -> bool)
    ensures DistinctIds(s) ==> DistinctIds(Keep(s, p))
  {
    if DistinctIds(s) {
      KeepPairwise(s, p, (x: Entry, y: Entry) => x.id != y.id);
    }
  }

  lemma {:induction false} KeepDistinctHashes(s: seq<Entry>, p: Entry -> bool)
    ensures DistinctHashes(s) ==> DistinctHashes(Keep(s, p))
  {
    if DistinctHashes(s) {
      KeepPairwise(s, p, (x: Entry, y: Entry) => x.hash != y.hash);
    }
  }

  // ---- The stable newest-first order ----

  /** Python's stable sort by timestamp, descending: an entry goes before the first that is not newer. */
  function Insert(e: Entry, s: seq<Entry>): seq<Entry>
  {
    if s == [] || s[0].stamp <= e.stamp then [e] + s else [s[0]] + Insert(e, s[1..])
  }

  function SortNewestFirst(s: seq<Entry>): seq<Entry>
  {
    if s == [] then [] else Insert(s[0], SortNewestFirst(s[1..]))
  }

  /** Entry j comes before entry i: it is newer, or as new and earlier in the index. */
  predicate Before(s: seq<Entry>, j: nat, i: nat)
    requires i < |s| && j < |s|
  {
    s[j].stamp > s[i].stamp || (s[j].stamp == s[i].stamp && j < i)
  }

  /** How many of the first n entries come before entry i. */
  function CountBefore(s: seq<Entry>, i: nat, n: nat): nat
    requires i < |s| && n <= |s|
  {
    if n == 0 then 0 else CountBefore(s, i, n - 1) + if Before(s, n - 1, i) then 1 else 0
  }

  function Rank(s: seq<Entry>, i: nat): nat
    requires i < |s|
  {
    CountBefore(s, i, |s|)
  }

  ghost predicate Descending(s: seq<Entry>)
  {
    forall i, j :: 0 <= i < j < |s| ==> s[i].stamp >= s[j].stamp
  }

  /** How many entries are strictly newer than a moment. */
  function Newer(s: seq<Entry>, stamp: nat): nat
  {
    if s == [] then 0 else (if s[0].stamp > stamp then 1 else 0) + Newer(s[1..], stamp)
  }

  /** Where an insertion lands, and what it moves. */
  lemma {:induction false} InsertPlaces(e: Entry, s: seq<Entry>)
    requires Descending(s)
    ensures var t := Insert(e, s); var p := Newer(s, e.stamp);
            && p <= |s| && t == s[..p] + [e] + s[p..]
            && (forall k :: 0 <= k < p ==> s[k].stamp > e.stamp)
            && (forall k :: p <= k < |s| ==> s[k].stamp <= e.stamp)
  {
    if s == [] || s[0].stamp <= e.stamp {
      NoneNewer(s, e.stamp);
    } else {
      var p := Newer(s[1..], e.stamp);
      InsertPlaces(e, s[1..]);
      assert s[..p + 1] == [s[0]] + s[1..][..p] && s[p + 1..] == s[1..][p..];
    }
  }

  lemma {:induction false} InsertKeeps(e: Entry, s: seq<Entry>)
    requires Descending(s)
    ensures Descending(Insert(e, s)) && |Insert(e, s)| == |s| + 1
    ensures forall x :: x in Insert(e, s) <==> x == e || x in s
  {
    var p := Newer(s, e.stamp);
    InsertPlaces(e, s);
    assert s == s[..p] + s[p..];
    Middle(s[..p], e, s[p..]);
  }

  lemma {:induction false} Middle(a: seq<Entry>, e: Entry, b: seq<Entry>)
    requires Descending(a + b)
    requires (forall x :: x in a ==> x.stamp > e.stamp) && (forall x :: x in b ==> x.stamp <= e.stamp)
    ensures Descending(a + [e] + b)
    ensures forall x :: x in a + [e] + b <==> x == e || x in a + b
  {
    assert forall i :: 0 <= i < |a| ==> (a + b)[i] == a[i];
    assert forall i :: 0 <= i < |b| ==> (a + b)[|a| + i] == b[i];
  }

  lemma {:induction false} NewerOfInsert(e: Entry, s: seq<Entry>, stamp: nat)
    ensures Newer(Insert(e, s), stamp) == Newer(s, stamp) + if e.stamp > stamp then 1 else 0
  {
    if s == [] || s[0].stamp <= e.stamp {
      assert ([e] + s)[1..] == s;
    } else {
      NewerOfInsert(e, s[1..], stamp);
      assert ([s[0]] + Insert(e, s[1..]))[1..] == Insert(e, s[1..]);
    }
  }

  lemma {:induction false} NoneNewer(s: seq<Entry>, stamp: nat)
    requires forall i :: 0 <= i < |s| ==> s[i].stamp <= stamp
    ensures Newer(s, stamp) == 0
  {
    if s != [] {
      NoneNewer(s[1..], stamp);
    }
  }

  lemma {:induction false} SortKeeps(s: seq<Entry>)
    ensures var t := SortNewestFirst(s); Descending(t) && |t| == |s| && (forall x :: x in t <==> x in s)
  {
    if s != [] {
      SortKeeps(s[1..]);
      InsertKeeps(s[0], SortNewestFirst(s[1..]));
      assert s == [s[0]] + s[1..];
    }
  }

  lemma {:induction false} NewerOfSorted(s: seq<Entry>, stamp: nat)
    ensures Newer(SortNewestFirst(s), stamp) == Newer(s, stamp)
  {
    if s != [] {
      NewerOfSorted(s[1..], stamp);
      NewerOfInsert(s[0], SortNewestFirst(s[1..]), stamp);
    }
  }

  /** Counting over a list with one more entry in front. */
  lemma {:induction false} CountBeforeCons(s: seq<Entry>, i: nat, n: nat)
    requires s != [] && i < |s| - 1 && n <= |s| - 1
    ensures CountBefore(s, i + 1, n + 1) == CountBefore(s[1..], i, n) + if s[0].stamp >= s[i + 1].stamp then 1 else 0
  {
    if n == 0 {
      assert CountBefore(s, i + 1, 0) == 0;
    } else {
      CountBeforeCons(s, i, n - 1);
    }
  }

  lemma {:induction false} CountBeforeFirst(s: seq<Entry>, n: nat)
    requires s != [] && n <= |s| - 1
    ensures CountBefore(s, 0, n + 1) == Newer(s[1..n + 1], s[0].stamp)
  {
    if n == 0 {
      assert CountBefore(s, 0, 0) == 0;
    } else {
      CountBeforeFirst(s, n - 1);
      assert s[1..n + 1] == s[1..n] + [s[n]];
      NewerSnoc(s[1..n], s[n], s[0].stamp);
    }
  }

  lemma {:induction false} NewerSnoc(s: seq<Entry>, e: Entry, stamp: nat)
    ensures Newer(s + [e], stamp) == Newer(s, stamp) + if e.stamp > stamp then 1 else 0
  {
    if s != [] {
      NewerSnoc(s[1..], e, stamp);
      assert (s + [e])[1..] == s[1..] + [e];
    } else {
      assert (s + [e])[1..] == [];
    }
  }

  /** Where an insertion leaves the new entry and each old one. */
  lemma {:induction false} InsertedAt(e: Entry, s: seq<Entry>)
    requires Descending(s)
    ensures var t := Insert(e, s);
            && |t| == |s| + 1 && Newer(s, e.stamp) <= |s| && t[Newer(s, e.stamp)] == e
            && forall k :: 0 <= k < |s| ==> t[k + if e.stamp >= s[k].stamp then 1 else 0] == s[k]
  {
    var t, p := Insert(e, s), Newer(s, e.stamp);
    InsertPlaces(e, s);
    forall k | 0 <= k < |s|
      ensures t[k + if e.stamp >= s[k].stamp then 1 else 0] == s[k]
    {
      assert if k < p then t[k] == s[..p][k] else t[k + 1] == s[p..][k - p];
    }
  }

  /** Sorting puts every entry at its rank. */
  lemma {:induction false} SortedAtRank(s: seq<Entry>, i: nat)
    requires i < |s|
    ensures |SortNewestFirst(s)| == |s| && Rank(s, i) < |s| && SortNewestFirst(s)[Rank(s, i)] == s[i]
  {
    hide CountBefore, Newer, Insert;
    var t := SortNewestFirst(s[1..]);
    SortKeeps(s[1..]);
    InsertedAt(s[0], t);
    if i == 0 {
      NewerOfSorted(s[1..], s[0].stamp);
      CountBeforeFirst(s, |s| - 1);
      assert s[1..|s|] == s[1..];
    } else {
      var r := Rank(s[1..], i - 1);
      SortedAtRank(s[1..], i - 1);
      CountBeforeCons(s, i - 1, |s| - 1);
      assert t[r] == s[i];
    }
  }

  // ---- Pruning ----

  /** The unpinned entries after the first MAX_BACKUPS. */
  function SurplusEntries(index: seq<Entry>): seq<Entry>
  {
    var sorted := SortNewestFirst(Unpinned(index));
    if |sorted| <= MAX_BACKUPS then [] else sorted[MAX_BACKUPS..]
  }

  /** The ids that _prune deletes. */
  function Surplus(index: seq<Entry>): set<string>
  {
    Ids(SurplusEntries(index))
  }

  function Without(s: Store, ids: set<string>): Store
  {
    Store(Outside(s.index, ids), s.archives - ids)
  }

  function Pruned(s: Store): Store
  {
    Without(s, Surplus(s.index))
  }

  /** Every place in the sorted list is some entry's rank. */
  lemma {:induction false} RankOnto(s: seq<Entry>, k: nat) returns (i: nat)
    requires k < |s|
    ensures i < |s| && Rank(s, i) == k
  {
    hide CountBefore, Newer, Insert;
    var rest := s[1..];
    var t := SortNewestFirst(rest);
    SortKeeps(rest);
    InsertPlaces(s[0], t);
    NewerOfSorted(rest, s[0].stamp);
    var p := Newer(rest, s[0].stamp);
    if k == p {
      i := 0;
      CountBeforeFirst(s, |s| - 1);
      assert s[1..|s|] == rest;
    } else {
      var r := if k < p then k else k - 1;
      var j := RankOnto(rest, r);
      SortedAtRank(rest, j);
      CountBeforeCons(s, j, |s| - 1);
      assert t[r] == rest[j] == s[j + 1];
      i := j + 1;
    }
  }

  /**
    An id is pruned exactly when some unpinned entry carries it that at least MAX_BACKUPS
    unpinned entries come before in the stable newest-first order.
  */
  lemma {:induction false} PrunedExactly(index: seq<Entry>, id: string)
    ensures id in Surplus(index) <==>
            exists i :: 0 <= i < |Unpinned(index)|
                        && Unpinned(index)[i].id == id && Rank(Unpinned(index), i) >= MAX_BACKUPS
  {
    var u := Unpinned(index);
    var sorted := SortNewestFirst(u);
    hide CountBefore, SortNewestFirst, Unpinned;
    SortKeeps(u);
    if id in Surplus(index) {
      var k := SurplusPlace(index, id);
      var i := RankOnto(u, k);
      SortedAtRank(u, i);
    }
    forall i | 0 <= i < |u| && u[i].id == id && Rank(u, i) >= MAX_BACKUPS
      ensures id in Surplus(index)
    {
      SortedAtRank(u, i);
      assert sorted[MAX_BACKUPS..][Rank(u, i) - MAX_BACKUPS] == u[i];
      assert u[i] in SurplusEntries(index);
    }
  }

  /** Where in the sorted list a pruned id stands. */
  lemma {:induction false} SurplusPlace(index: seq<Entry>, id: string) returns (k: nat)
    requires id in Surplus(index)
    ensures MAX_BACKUPS <= k < |SortNewestFirst(Unpinned(index))| && SortNewestFirst(Unpinned(index))[k].id == id
  {
    var surplus := SurplusEntries(index);
    var e :| e in surplus && e.id == id;
    var n :| 0 <= n < |surplus| && surplus[n] == e;
    k := MAX_BACKUPS + n;
  }

  /** With distinct ids that is to say: the entry is unpinned and has that rank. */
  lemma {:induction false} PrunedByRank(index: seq<Entry>, i: nat)
    requires DistinctIds(index) && i < |Unpinned(index)|
    ensures Unpinned(index)[i].id in Surplus(index) <==> Rank(Unpinned(index), i) >= MAX_BACKUPS
  {
    PrunedExactly(index, Unpinned(index)[i].id);
    KeepDistinctIds(index, Loose);
  }

  /** What is pruned was indexed and unpinned. */
  lemma {:induction false} SurplusUnpinned(index: seq<Entry>, id: string)
    requires id in Surplus(index)
    ensures exists k :: 0 <= k < |index| && index[k].id == id && !index[k].pinned
  {
    var sorted := SortNewestFirst(Unpinned(index));
    SortKeeps(Unpinned(index));
    KeepMembers(index, Loose);
    var x :| x in SurplusEntries(index) && x.id == id;
    assert x in sorted;
    assert x in Unpinned(index);
    var k :| 0 <= k < |index| && index[k] == x;
  }

  lemma {:induction false} PinnedNotSurplus(index: seq<Entry>, i: nat)
    requires DistinctIds(index) && i < |index| && index[i].pinned
    ensures index[i].id !in Surplus(index)
  {
    if index[i].id in Surplus(index) {
      SurplusUnpinned(index, index[i].id);
    }
  }

  /** A pinned entry is lost only to an unpinned namesake, never when ids are distinct. */
  lemma {:induction false} PinnedSurvive(index: seq<Entry>, e: Entry)
    requires e in index && e.pinned
    ensures e in Outside(index, Surplus(index)) <==> e.id !in Surplus(index)
    ensures DistinctIds(index) ==> e in Outside(index, Surplus(index))
  {
    KeepMembers(index, NotIn(Surplus(index)));
    if DistinctIds(index) {
      var i :| 0 <= i < |index| && index[i] == e;
      PinnedNotSurplus(index, i);
    }
  }

  /** At most MAX_BACKUPS unpinned entries are left, whatever the ids. */
  lemma {:induction false} RetentionBound(index: seq<Entry>)
    ensures |Unpinned(Outside(index, Surplus(index)))| <= MAX_BACKUPS
  {
    var u := Unpinned(index);
    var sorted := SortNewestFirst(u);
    var ids := Surplus(index);
    var both := (e: Entry) => !e.pinned && e.id !in ids;
    KeepKeep(index, Loose, NotIn(ids), both);
    KeepKeep(index, NotIn(ids), Loose, both);
    SortKeeps(u);
    OutsideSorted(u, ids);
    if |sorted| <= MAX_BACKUPS {
      KeepMembers(u, NotIn(ids));
    } else {
      FirstOfSorted(sorted);
    }
  }

  lemma {:induction false} FirstOfSorted(sorted: seq<Entry>)
    requires |sorted| > MAX_BACKUPS
    ensures |Outside(sorted, Ids(sorted[MAX_BACKUPS..]))| <= MAX_BACKUPS
  {
    var a, b := sorted[..MAX_BACKUPS], sorted[MAX_BACKUPS..];
    assert a + b == sorted;
    KeepConcat(a, b, NotIn(Ids(b)));
    KeepNone(b, NotIn(Ids(b)));
    KeepMembers(a, NotIn(Ids(b)));
  }

  lemma {:induction false} OutsideInsert(e: Entry, s: seq<Entry>, ids: set<string>)
    ensures |Outside(Insert(e, s), ids)| == |Outside(s, ids)| + if e.id in ids then 0 else 1
  {
    if s == [] || s[0].stamp <= e.stamp {
      KeepCons(e, s, NotIn(ids));
    } else {
      OutsideInsert(e, s[1..], ids);
      KeepCons(s[0], Insert(e, s[1..]), NotIn(ids));
      KeepCons(s[0], s[1..], NotIn(ids));
      assert s == [s[0]] + s[1..];
    }
  }

  /** Sorting does not change how many entries a filter leaves. */
  lemma {:induction false} OutsideSorted(s: seq<Entry>, ids: set<string>)
    ensures |Outside(SortNewestFirst(s), ids)| == |Outside(s, ids)|
  {
    if s != [] {
      OutsideSorted(s[1..], ids);
      OutsideInsert(s[0], SortNewestFirst(s[1..]), ids);
      KeepCons(s[0], s[1..], NotIn(ids));
      assert s == [s[0]] + s[1..];
    }
  }

  // ---- The operations as changes of the store ----

  function FindHash(index: seq<Entry>, hash: string): Option<Entry>
  {
    if index == [] then None
    else if index[0].hash == hash then Some(index[0])
    else FindHash(index[1..], hash)
  }

  /** Flag the first entry with this id. */
  function Flagged(index: seq<Entry>, id: string, pinned: bool): seq<Entry>
  {
    if index == [] then []
    else if index[0].id == id then [index[0].(pinned := pinned)] + index[1..]
    else [index[0]] + Flagged(index[1..], id, pinned)
  }

  datatype Op = Create(id: string, stamp: nat, snapshot: Snapshot) | Flag(id: string, pinned: bool) | Delete(id: string)

  function Added(s: Store, id: string, stamp: nat, snapshot: Snapshot, hash: string): Store
  {
    Store(s.index + [Entry(id, stamp, hash, false)], s.archives[id := snapshot])
  }

  function Apply(s: Store, op: Op, digest: string -> string): Store
  {
    match op
    case Create(id, stamp, snapshot) =>
      var hash := digest(Bytes(snapshot));
      if FindHash(s.index, hash).Some? then s else Pruned(Added(s, id, stamp, snapshot, hash))
    case Flag(id, pinned) => s.(index := Flagged(s.index, id, pinned))
    case Delete(id) => Without(s, {id})
  }

  function Run(ops: seq<Op>, digest: string -> string): Store
  {
    if ops == [] then Store([], map[])
    else Apply(Run(ops[..|ops| - 1], digest), ops[|ops| - 1], digest)
  }

  // ---- What every run keeps ----

  /** No two entries share a hash, and the archives on disk are those of the indexed ids. */
  ghost predicate Consistent(s: Store)
  {
    DistinctHashes(s.index) && s.archives.Keys == Ids(s.index)
  }

  /** No two entries share an id, and every archive holds what its entry's hash was computed from. */
  ghost predicate OneToOne(s: Store, digest: string -> string)
  {
    && DistinctIds(s.index) && s.archives.Keys == Ids(s.index)
    && forall e :: e in s.index ==> digest(Bytes(s.archives[e.id])) == e.hash
  }

  lemma {:induction false} FindHashFinds(index: seq<Entry>, hash: string)
    ensures match FindHash(index, hash)
            case Some(e) => e in index && e.hash == hash
            case None => forall e :: e in index ==> e.hash != hash
  {
    if index != [] && index[0].hash != hash {
      FindHashFinds(index[1..], hash);
      assert index == [index[0]] + index[1..];
    }
  }

  lemma {:induction false} FlaggedShape(index: seq<Entry>, id: string, pinned: bool)
    ensures var t := Flagged(index, id, pinned);
            |t| == |index|
            && forall i :: 0 <= i < |t| ==>
                t[i].id == index[i].id && t[i].hash == index[i].hash && t[i].stamp == index[i].stamp
    ensures Ids(Flagged(index, id, pinned)) == Ids(index)
  {
    var t := Flagged(index, id, pinned);
    if index != [] && index[0].id != id {
      FlaggedShape(index[1..], id, pinned);
    }
    forall i | 0 <= i < |t|
      ensures t[i].id == index[i].id && t[i].hash == index[i].hash && t[i].stamp == index[i].stamp
    {
      if i > 0 && index[0].id != id {
        assert t[i] == Flagged(index[1..], id, pinned)[i - 1];
      }
    }
    SameIds(t, index);
  }

  lemma {:induction false} SameIds(s: seq<Entry>, t: seq<Entry>)
    requires |s| == |t| && forall i :: 0 <= i < |s| ==> s[i].id == t[i].id
    ensures Ids(s) == Ids(t)
  {
    forall x | x in Ids(s)
      ensures x in Ids(t)
    {
      var i :| 0 <= i < |s| && s[i].id == x;
      assert t[i] in t;
    }
    forall x | x in Ids(t)
      ensures x in Ids(s)
    {
      var i :| 0 <= i < |t| && t[i].id == x;
      assert s[i] in s;
    }
  }

  lemma {:induction false} WithoutConsistent(s: Store, ids: set<string>)
    requires Consistent(s)
    ensures Consistent(Without(s, ids))
  {
    KeepMembers(s.index, NotIn(ids));
    KeepDistinctHashes(s.index, NotIn(ids));
    assert Ids(Outside(s.index, ids)) == Ids(s.index) - ids;
  }

  lemma {:induction false} AddedConsistent(s: Store, id: string, stamp: nat, snapshot: Snapshot, hash: string)
    requires Consistent(s) && FindHash(s.index, hash).None?
    ensures Consistent(Added(s, id, stamp, snapshot, hash))
  {
    FindHashFinds(s.index, hash);
    IdsSnoc(s.index, Entry(id, stamp, hash, false));
  }

  lemma {:induction false} ApplyConsistent(s: Store, op: Op, digest: string -> string)
    requires Consistent(s)
    ensures Consistent(Apply(s, op, digest))
  {
    match op
    case Create(id, stamp, snapshot) =>
      var hash := digest(Bytes(snapshot));
      if FindHash(s.index, hash).None? {
        var added := Added(s, id, stamp, snapshot, hash);
        AddedConsistent(s, id, stamp, snapshot, hash);
        WithoutConsistent(added, Surplus(added.index));
      }
    case Flag(id, pinned) =>
      FlaggedShape(s.index, id, pinned);
    case Delete(id) =>
      WithoutConsistent(s, {id});
  }

  /** Over every run hashes stay pairwise distinct, and the index and the archives name the same ids. */
  lemma {:induction false} RunConsistent(ops: seq<Op>, digest: string -> string)
    ensures Consistent(Run(ops, digest))
  {
    if ops != [] {
      RunConsistent(ops[..|ops| - 1], digest);
      ApplyConsistent(Run(ops[..|ops| - 1], digest), ops[|ops| - 1], digest);
    }
  }

  // ---- Which entry an archive belongs to ----

  /** The last entry with this id: a create that reuses an id overwrites the archive of the entries before it. */
  function LastOf(index: seq<Entry>, id: string): Option<Entry>
  {
    if index == [] then None
    else if index[|index| - 1].id == id then Some(index[|index| - 1])
    else LastOf(index[..|index| - 1], id)
  }

  lemma {:induction false} LastOfSnoc(index: seq<Entry>, e: Entry, id: string)
    ensures LastOf(index + [e], id) == if e.id == id then Some(e) else LastOf(index, id)
  {
    assert (index + [e])[..|index|] == index;
  }

  lemma {:induction false} LastOfFinds(index: seq<Entry>, id: string)
    ensures LastOf(index, id).Some? <==> id in Ids(index)
    ensures LastOf(index, id).Some? ==> LastOf(index, id).value in index && LastOf(index, id).value.id == id
  {
    if index != [] {
      var t, e := index[..|index| - 1], index[|index| - 1];
      LastOfFinds(t, id);
      IdsSnoc(t, e);
      assert index == t + [e];
    }
  }

  /** Leaving ids out does not change which entry is the last with another id. */
  lemma {:induction false} LastOfOutside(index: seq<Entry>, ids: set<string>, id: string)
    requires id !in ids
    ensures LastOf(Outside(index, ids), id) == LastOf(index, id)
  {
    if index != [] {
      var t, e := index[..|index| - 1], index[|index| - 1];
      LastOfOutside(t, ids, id);
      KeepSnoc(t, e, NotIn(ids));
      LastOfSnoc(Outside(t, ids), e, id);
      assert index == t + [e];
    }
  }

  /** Entries with the same ids and hashes in the same places. */
  lemma {:induction false} LastOfSame(s: seq<Entry>, t: seq<Entry>, id: string)
    requires |s| == |t| && forall i :: 0 <= i < |s| ==> s[i].id == t[i].id && s[i].hash == t[i].hash
    ensures match LastOf(s, id)
            case None => LastOf(t, id).None?
            case Some(e) => LastOf(t, id).Some? && LastOf(t, id).value.hash == e.hash
  {
    if s != [] {
      LastOfSame(s[..|s| - 1], t[..|t| - 1], id);
    }
  }

  /** Every archive holds what the last entry with its id was made from. */
  ghost predicate Truthful(s: Store, digest: string -> string)
  {
    Consistent(s) && forall id :: id in s.archives ==> HoldsLast(s, id, digest)
  }

  ghost predicate HoldsLast(s: Store, id: string, digest: string -> string)
    requires id in s.archives
  {
    LastOf(s.index, id).Some? && digest(Bytes(s.archives[id])) == LastOf(s.index, id).value.hash
  }

  lemma {:induction false} WithoutTruthful(s: Store, ids: set<string>, digest: string -> string)
    requires Truthful(s, digest)
    ensures Truthful(Without(s, ids), digest)
  {
    WithoutConsistent(s, ids);
    forall id | id in Without(s, ids).archives
      ensures HoldsLast(Without(s, ids), id, digest)
    {
      assert HoldsLast(s, id, digest);
      LastOfOutside(s.index, ids, id);
    }
  }

  lemma {:induction false} AddedTruthful(s: Store, id: string, stamp: nat, snapshot: Snapshot, digest: string -> string)
    requires Truthful(s, digest) && FindHash(s.index, digest(Bytes(snapshot))).None?
    ensures Truthful(Added(s, id, stamp, snapshot, digest(Bytes(snapshot))), digest)
  {
    var e := Entry(id, stamp, digest(Bytes(snapshot)), false);
    var added := Added(s, id, stamp, snapshot, e.hash);
    AddedConsistent(s, id, stamp, snapshot, e.hash);
    forall x | x in added.archives
      ensures HoldsLast(added, x, digest)
    {
      LastOfSnoc(s.index, e, x);
      assert x != id ==> HoldsLast(s, x, digest);
    }
  }

  lemma {:induction false} FlagTruthful(s: Store, id: string, pinned: bool, digest: string -> string)
    requires Truthful(s, digest)
    ensures Truthful(s.(index := Flagged(s.index, id, pinned)), digest)
  {
    var t := s.(index := Flagged(s.index, id, pinned));
    FlaggedShape(s.index, id, pinned);
    forall x | x in t.archives
      ensures HoldsLast(t, x, digest)
    {
      assert HoldsLast(s, x, digest);
      LastOfSame(s.index, t.index, x);
    }
  }

  lemma {:induction false} ApplyTruthful(s: Store, op: Op, digest: string -> string)
    requires Truthful(s, digest)
    ensures Truthful(Apply(s, op, digest), digest)
  {
    match op
    case Create(id, stamp, snapshot) =>
      var hash := digest(Bytes(snapshot));
      if FindHash(s.index, hash).None? {
        var added := Added(s, id, stamp, snapshot, hash);
        AddedTruthful(s, id, stamp, snapshot, digest);
        WithoutTruthful(added, Surplus(added.index), digest);
      }
    case Flag(id, pinned) =>
      FlagTruthful(s, id, pinned, digest);
    case Delete(id) =>
      WithoutTruthful(s, {id}, digest);
  }

  /**
    Over every run, whether or not ids are reused, every archive holds what the last entry with
    its id was made from.
  */
  lemma {:induction false} RunTruthful(ops: seq<Op>, digest: string -> string)
    ensures Truthful(Run(ops, digest), digest)
  {
    if ops != [] {
      RunTruthful(ops[..|ops| - 1], digest);
      ApplyTruthful(Run(ops[..|ops| - 1], digest), ops[|ops| - 1], digest);
    }
  }

  /** A later entry with the same id has overwritten this entry's archive. */
  predicate Superseded(index: seq<Entry>, e: Entry)
  {
    LastOf(index, e.id) != Some(e)
  }

  /** So an entry's archive is what its hash was computed from exactly unless the entry is superseded. */
  lemma {:induction false} ArchiveOfEntry(s: Store, e: Entry, digest: string -> string)
    requires Truthful(s, digest) && e in s.index
    ensures e.id in s.archives
    ensures digest(Bytes(s.archives[e.id])) == e.hash <==> !Superseded(s.index, e)
  {
    assert e.id in Ids(s.index);
    assert HoldsLast(s, e.id, digest);
    LastOfFinds(s.index, e.id);
    var last := LastOf(s.index, e.id).value;
    if last.hash == e.hash {
      var i :| 0 <= i < |s.index| && s.index[i] == e;
      var j :| 0 <= j < |s.index| && s.index[j] == last;
      assert i == j;
    }
  }

  /** All entries' archives are their own, one to one, exactly when no two entries share an id. */
  lemma {:induction false} OneToOneExactly(s: Store, digest: string -> string)
    requires Truthful(s, digest)
    ensures OneToOne(s, digest) <==> DistinctIds(s.index)
    ensures DistinctIds(s.index) <==> forall e :: e in s.index ==> !Superseded(s.index, e)
  {
    forall e | e in s.index
      ensures e.id in s.archives && (digest(Bytes(s.archives[e.id])) == e.hash <==> !Superseded(s.index, e))
    {
      ArchiveOfEntry(s, e, digest);
    }
    if DistinctIds(s.index) {
      forall e | e in s.index
        ensures !Superseded(s.index, e)
      {
        LastOfFinds(s.index, e.id);
        assert e.id in Ids(s.index);
      }
    } else {
      var i, j :| 0 <= i < j < |s.index| && s.index[i].id == s.index[j].id;
      assert s.index[i] in s.index && s.index[j] in s.index;
    }
  }

  /** Over every run. */
  lemma {:induction false} RunOneToOne(ops: seq<Op>, digest: string -> string)
    ensures OneToOne(Run(ops, digest), digest) <==> DistinctIds(Run(ops, digest).index)
  {
    RunTruthful(ops, digest);
    OneToOneExactly(Run(ops, digest), digest);
  }

  /** The id of a create that writes an archive is not in the index at that time. */
  ghost predicate Fresh(s: Store, op: Op, digest: string -> string)
  {
    op.Create? ==> op.id !in Ids(s.index) || FindHash(s.index, digest(Bytes(op.snapshot))).Some?
  }

  ghost predicate FreshIds(ops: seq<Op>, digest: string -> string)
  {
    ops != [] ==>
      var init := ops[..|ops| - 1];
      FreshIds(init, digest) && Fresh(Run(init, digest), ops[|ops| - 1], digest)
  }

  lemma {:induction false} ApplyDistinct(s: Store, op: Op, digest: string -> string)
    requires DistinctIds(s.index) && Fresh(s, op, digest)
    ensures DistinctIds(Apply(s, op, digest).index)
  {
    match op
    case Create(id, stamp, snapshot) =>
      var added := Added(s, id, stamp, snapshot, digest(Bytes(snapshot)));
      if FindHash(s.index, digest(Bytes(snapshot))).None? {
        assert forall e :: e in s.index ==> e.id in Ids(s.index);
        KeepDistinctIds(added.index, NotIn(Surplus(added.index)));
      }
    case Flag(id, pinned) =>
      FlaggedShape(s.index, id, pinned);
    case Delete(id) =>
      KeepDistinctIds(s.index, NotIn({id}));
  }

  /** It is so in particular over runs in which no create reuses an indexed id. */
  lemma {:induction false} FreshRunDistinct(ops: seq<Op>, digest: string -> string)
    requires FreshIds(ops, digest)
    ensures DistinctIds(Run(ops, digest).index) && OneToOne(Run(ops, digest), digest)
  {
    if ops != [] {
      var init := ops[..|ops| - 1];
      FreshRunDistinct(init, digest);
      ApplyDistinct(Run(init, digest), ops[|ops| - 1], digest);
    }
    RunOneToOne(ops, digest);
  }

  /** How many unpinned entries are at least as new as a moment. */
  function AtLeastAsNew(s: seq<Entry>, stamp: nat): nat
  {
    if s == [] then 0
    else
      var n := |s| - 1;
      AtLeastAsNew(s[..n], stamp) + if s[n].stamp >= stamp then 1 else 0
  }

  lemma {:induction false} LastRank(s: seq<Entry>, e: Entry, n: nat)
    requires n <= |s|
    ensures CountBefore(s + [e], |s|, n) == AtLeastAsNew(s[..n], e.stamp)
  {
    if n > 0 {
      LastRank(s, e, n - 1);
      assert s[..n][..n - 1] == s[..n - 1];
    }
  }

  /**
    The id of a backup just created is pruned at once exactly when MAX_BACKUPS unpinned
    backups are at least as new (on equal timestamps the older ones win), or when an older
    backup of the same id is surplus.
  */
  lemma {:induction false} NewBackupKept(s: Store, id: string, stamp: nat, snapshot: Snapshot, hash: string)
    ensures id in Ids(Pruned(Added(s, id, stamp, snapshot, hash)).index) <==>
            AtLeastAsNew(Unpinned(s.index), stamp) < MAX_BACKUPS
            && !SurplusNamesake(Unpinned(s.index), Entry(id, stamp, hash, false))
  {
    var e := Entry(id, stamp, hash, false);
    var added := Added(s, id, stamp, snapshot, hash);
    var u := Unpinned(s.index);
    KeepSnoc(s.index, e, Loose);
    LastRank(u, e, |u|);
    assert u[..|u|] == u;
    assert Rank(u + [e], |u|) == CountBefore(u + [e], |u|, |u|);
    PrunedExactly(added.index, id);
    KeepMembers(added.index, NotIn(Surplus(added.index)));
    assert e in added.index;
    NamesakeRanks(u, e);
  }

  /** Among the entries before e one has its id and, with e there, a surplus rank. */
  ghost predicate SurplusNamesake(u: seq<Entry>, e: Entry)
  {
    exists i :: 0 <= i < |u| && u[i].id == e.id && Rank(u + [e], i) >= MAX_BACKUPS
  }

  lemma {:induction false} NamesakeRanks(u: seq<Entry>, e: Entry)
    ensures (exists i :: 0 <= i < |u + [e]| && (u + [e])[i].id == e.id && Rank(u + [e], i) >= MAX_BACKUPS)
            <==> Rank(u + [e], |u|) >= MAX_BACKUPS || SurplusNamesake(u, e)
  {
    var v := u + [e];
    assert v[|u|] == e;
    if SurplusNamesake(u, e) {
      var i :| 0 <= i < |u| && u[i].id == e.id && Rank(v, i) >= MAX_BACKUPS;
      assert v[i].id == e.id;
    }
    forall i | 0 <= i < |v| && v[i].id == e.id && Rank(v, i) >= MAX_BACKUPS
      ensures Rank(v, |u|) >= MAX_BACKUPS || SurplusNamesake(u, e)
    {
      assert i < |u| ==> u[i].id == e.id;
    }
  }

  // ---- What deduplication drops ----

  ghost predicate Injective(digest: string -> string)
  {
    forall a, b :: digest(a) == digest(b) ==> a == b
  }

  /** A backup of these files is taken to be there already. */
  ghost predicate Dropped(s: Store, snapshot: Snapshot, digest: string -> string)
  {
    FindHash(s.index, digest(Bytes(snapshot))).Some?
  }

  /** Some indexed archive holds the same bytes, one file after another. */
  ghost predicate BytesArchived(s: Store, snapshot: Snapshot)
  {
    exists e :: e in s.index && ArchiveBytes(s, e) == Bytes(snapshot)
  }

  function ArchiveBytes(s: Store, e: Entry): string
  {
    if e.id in s.archives then Bytes(s.archives[e.id]) else ""
  }

  /** The indexed entry a dropped snapshot is taken for. */
  function Found(s: Store, snapshot: Snapshot, digest: string -> string): Entry
    requires FindHash(s.index, digest(Bytes(snapshot))).Some?
  {
    FindHash(s.index, digest(Bytes(snapshot))).value
  }

  /** The bytes of a snapshot are in an archive exactly when it is dropped for an entry that is not superseded. */
  lemma {:induction false} DroppedExactly(s: Store, snapshot: Snapshot, digest: string -> string)
    requires Truthful(s, digest) && Injective(digest)
    ensures BytesArchived(s, snapshot) <==>
            Dropped(s, snapshot, digest) && !Superseded(s.index, Found(s, snapshot, digest))
    ensures Dropped(s, snapshot, digest) ==> forall id, stamp :: Apply(s, Create(id, stamp, snapshot), digest) == s
  {
    var hash := digest(Bytes(snapshot));
    FindHashFinds(s.index, hash);
    forall e | e in s.index && ArchiveBytes(s, e) == Bytes(snapshot)
      ensures Dropped(s, snapshot, digest) && !Superseded(s.index, Found(s, snapshot, digest))
    {
      BytesMeanLast(s, e, snapshot, digest);
    }
    if Dropped(s, snapshot, digest) {
      var e := Found(s, snapshot, digest);
      ArchiveOfEntry(s, e, digest);
      assert !Superseded(s.index, e) ==> ArchiveBytes(s, e) == Bytes(snapshot);
    }
  }

  lemma {:induction false} BytesMeanLast(s: Store, e: Entry, snapshot: Snapshot, digest: string -> string)
    requires Truthful(s, digest) && e in s.index && ArchiveBytes(s, e) == Bytes(snapshot)
    ensures Dropped(s, snapshot, digest) && LastOf(s.index, e.id) == Some(Found(s, snapshot, digest))
    ensures !Superseded(s.index, Found(s, snapshot, digest))
  {
    ArchiveOfEntry(s, e, digest);
    assert HoldsLast(s, e.id, digest);
    LastOfFinds(s.index, e.id);
    var last := LastOf(s.index, e.id).value;
    FindHashFinds(s.index, last.hash);
    var found := Found(s, snapshot, digest);
    var i :| 0 <= i < |s.index| && s.index[i] == last;
    var j :| 0 <= j < |s.index| && s.index[j] == found;
    assert i == j;
  }

  /** The same after every run. */
  lemma {:induction false} DroppedOverRuns(ops: seq<Op>, snapshot: Snapshot, digest: string -> string)
    requires Injective(digest)
    ensures var s := Run(ops, digest);
            BytesArchived(s, snapshot) <==>
            Dropped(s, snapshot, digest) && !Superseded(s.index, Found(s, snapshot, digest))
  {
    RunTruthful(ops, digest);
    DroppedExactly(Run(ops, digest), snapshot, digest);
  }

  /** The files carry the same names and lengths in the same order. */
  ghost predicate SameShape(a: Snapshot, b: Snapshot)
  {
    |a| == |b| && forall i :: 0 <= i < |a| ==> a[i].0 == b[i].0 && |a[i].1| == |b[i].1|
  }

  /** Two snapshots with the same bytes are the same unless they name or cut them differently. */
  lemma {:induction false} SameBytesDiffer(a: Snapshot, b: Snapshot)
    requires Bytes(a) == Bytes(b)
    ensures a == b <==> SameShape(a, b)
  {
    if SameShape(a, b) && a != [] {
      var x, y := a[0], b[0];
      assert Bytes(a)[..|x.1|] == x.1 && Bytes(a)[|x.1|..] == Bytes(a[1..]);
      assert Bytes(b)[..|y.1|] == y.1 && Bytes(b)[|y.1|..] == Bytes(b[1..]);
      SameBytesDiffer(a[1..], b[1..]);
      assert a == [x] + a[1..] && b == [y] + b[1..];
    }
  }

  /** Dropped although no indexed archive is this snapshot. */
  ghost predicate Lost(s: Store, snapshot: Snapshot, digest: string -> string)
  {
    Dropped(s, snapshot, digest) && forall e :: e in s.index && e.id in s.archives ==> s.archives[e.id] != snapshot
  }

  /** Every archive with these bytes names or cuts them differently. */
  ghost predicate OnlyOtherShapes(s: Store, snapshot: Snapshot)
  {
    forall e :: e in s.index && e.id in s.archives && Bytes(s.archives[e.id]) == Bytes(snapshot) ==>
                  !SameShape(s.archives[e.id], snapshot)
  }

  /**
    After every run, a snapshot is lost exactly when it is dropped for an entry whose
    archive a later create has overwritten, or when its bytes are archived but every archive
    that has them names or cuts them differently.
  */
  lemma {:induction false} LostExactly(ops: seq<Op>, snapshot: Snapshot, digest: string -> string)
    requires Injective(digest)
    ensures var s := Run(ops, digest);
            Lost(s, snapshot, digest) <==>
            || (Dropped(s, snapshot, digest) && Superseded(s.index, Found(s, snapshot, digest)))
            || (BytesArchived(s, snapshot) && OnlyOtherShapes(s, snapshot))
  {
    var s := Run(ops, digest);
    DroppedOverRuns(ops, snapshot, digest);
    RunTruthful(ops, digest);
    assert forall e :: e in s.index ==> e.id in Ids(s.index);
    forall e | e in s.index && e.id in s.archives && Bytes(s.archives[e.id]) == Bytes(snapshot)
      ensures s.archives[e.id] == snapshot <==> SameShape(s.archives[e.id], snapshot)
      ensures BytesArchived(s, snapshot)
    {
      SameBytesDiffer(s.archives[e.id], snapshot);
      assert ArchiveBytes(s, e) == Bytes(snapshot);
    }
  }

  /** One file backed up, and then the same bytes under another name, which are lost. */
  lemma {:induction false} RenamedFileNotBackedUp(digest: string -> string)
    requires Injective(digest)
    ensures var ops, b: Snapshot := [Create("first", 1, [("old.yaml", "x")])], [("new.yaml", "x")];
            Lost(Run(ops, digest), b, digest) && BytesArchived(Run(ops, digest), b)
  {
    var a: Snapshot, b: Snapshot := [("old.yaml", "x")], [("new.yaml", "x")];
    var ops := [Create("first", 1, a)];
    FirstCreate("first", 1, a, digest);
    var e := Entry("first", 1, digest(Bytes(a)), false);
    assert a[1..] == [] && b[1..] == [];
    assert ArchiveBytes(Run(ops, digest), e) == Bytes(b);
    LostExactly(ops, b, digest);
  }

  /**
    Two creates under one name, as every installation makes them: the first backup's bytes
    are then in no archive, and a backup of them is dropped.
  */
  lemma {:induction false} ReusedNameLosesBytes(name: string, a: Snapshot, b: Snapshot, t: nat, u: nat,
                                                digest: string -> string)
    requires Injective(digest) && Bytes(a) != Bytes(b)
    ensures var s := Run([Create(name, t, a), Create(name, u, b)], digest);
            s.archives == map[name := b] && Lost(s, a, digest) && !BytesArchived(s, a)
            && forall v :: Apply(s, Create(name, v, a), digest) == s
  {
    var ops := [Create(name, t, a)];
    FirstCreate(name, t, a, digest);
    var s := Run(ops, digest);
    RunSnoc(ops, Create(name, u, b), digest);
    assert ops + [Create(name, u, b)] == [Create(name, t, a), Create(name, u, b)];
    SecondCreate(s, name, t, u, a, b, digest);
  }

  /** For one: two installations, with "x" and then "y" in the one file. */
  lemma {:induction false} PreInstallLosesBytes(digest: string -> string)
    requires Injective(digest)
    ensures var a, b: Snapshot := [("opencontext.yaml", "x")], [("opencontext.yaml", "y")];
            var s := Run([Create("pre-install", 1, a), Create("pre-install", 2, b)], digest);
            s.archives == map["pre-install" := b] && Lost(s, a, digest) && !BytesArchived(s, a)
  {
    var a, b: Snapshot := [("opencontext.yaml", "x")], [("opencontext.yaml", "y")];
    assert a[1..] == [] && b[1..] == [];
    assert Bytes(a)[0] == 'x' && Bytes(b)[0] == 'y';
    ReusedNameLosesBytes("pre-install", a, b, 1, 2, digest);
  }

  lemma {:induction false} SecondCreate(s: Store, name: string, t: nat, u: nat, a: Snapshot, b: Snapshot,
                                        digest: string -> string)
    requires Injective(digest) && Bytes(a) != Bytes(b)
    requires s == Store([Entry(name, t, digest(Bytes(a)), false)], map[name := a])
    ensures var r := Apply(s, Create(name, u, b), digest);
            r.archives == map[name := b] && Lost(r, a, digest) && !BytesArchived(r, a)
            && forall v :: Apply(r, Create(name, v, a), digest) == r
  {
    var e, f := Entry(name, t, digest(Bytes(a)), false), Entry(name, u, digest(Bytes(b)), false);
    assert e.hash != f.hash && [e][1..] == [];
    var added := Added(s, name, u, b, f.hash);
    SmallNotPruned(added);
    assert FindHash([e], f.hash) == FindHash([e][1..], f.hash) == None;
    assert added.archives == map[name := b] && added.index == [e, f];
    Overwritten(added, e, f, a, b, digest);
  }

  lemma {:induction false} Overwritten(r: Store, e: Entry, f: Entry, a: Snapshot, b: Snapshot, digest: string -> string)
    requires r.index == [e, f] && r.archives == map[f.id := b] && e.id == f.id
    requires e.hash == digest(Bytes(a)) && Bytes(a) != Bytes(b)
    ensures Lost(r, a, digest) && !BytesArchived(r, a)
    ensures forall v :: Apply(r, Create(f.id, v, a), digest) == r
  {
    assert FindHash(r.index, e.hash) == Some(e);
    forall x | x in r.index
      ensures x.id in r.archives && r.archives[x.id] == b
    {
      assert x == e || x == f;
    }
  }

  lemma {:induction false} FirstCreate(id: string, stamp: nat, snapshot: Snapshot, digest: string -> string)
    ensures Run([Create(id, stamp, snapshot)], digest)
            == Store([Entry(id, stamp, digest(Bytes(snapshot)), false)], map[id := snapshot])
  {
    var ops := [Create(id, stamp, snapshot)];
    assert ops[..0] == [];
    var added := Added(Store([], map[]), id, stamp, snapshot, digest(Bytes(snapshot)));
    assert added.index == [Entry(id, stamp, digest(Bytes(snapshot)), false)];
    SmallNotPruned(added);
  }

  /** Up to MAX_BACKUPS entries nothing is pruned. */
  lemma {:induction false} SmallNotPruned(s: Store)
    requires |s.index| <= MAX_BACKUPS
    ensures Pruned(s) == s
  {
    KeepMembers(s.index, Loose);
    SortKeeps(Unpinned(s.index));
    assert Surplus(s.index) == {};
    KeepAll(s.index, NotIn({}));
  }

  // ---- Six backups in one second ----

  /** One backup a name, each of a different file, all with the same timestamp. */
  function Burst(names: seq<string>): seq<Op>
  {
    if names == [] then [] else Burst(names[..|names| - 1]) + [BurstOp(names[|names| - 1])]
  }

  function BurstOp(name: string): Op
  {
    Create(name, 0, [("f", name)])
  }

  function BurstEntry(name: string, digest: string -> string): Entry
  {
    Entry(name, 0, digest(name), false)
  }

  ghost predicate DistinctNames(names: seq<string>)
  {
    forall i, j :: 0 <= i < j < |names| ==> names[i] != names[j]
  }

  /** The store holds one entry a name. */
  ghost predicate Holds(s: Store, names: seq<string>, digest: string -> string)
  {
    |s.index| == |names| && forall i :: 0 <= i < |names| ==> s.index[i] == BurstEntry(names[i], digest)
  }

  lemma {:induction false} HoldsMeans(s: Store, names: seq<string>, digest: string -> string)
    requires Holds(s, names, digest) && DistinctNames(names)
    ensures DistinctIds(s.index) && Unpinned(s.index) == s.index
    ensures forall e :: e in s.index ==> e.id in names && e.hash == digest(e.id)
  {
    KeepAll(s.index, Loose);
  }

  /** Another name is neither indexed nor are its bytes. */
  lemma {:induction false} AnotherName(s: Store, names: seq<string>, name: string, digest: string -> string)
    requires Holds(s, names, digest) && DistinctNames(names) && name !in names && Injective(digest)
    ensures FindHash(s.index, digest(name)).None? && name !in Ids(s.index) && Bytes([("f", name)]) == name
  {
    HoldsMeans(s, names, digest);
    FindHashFinds(s.index, digest(name));
    OneFile(name);
  }

  lemma {:induction false} OneFile(text: string)
    ensures Bytes([("f", text)]) == text
  {
    assert [("f", text)][1..] == [];
    assert text + "" == text;
  }

  lemma {:induction false} BurstStep(s: Store, names: seq<string>, name: string, digest: string -> string)
    requires Holds(s, names, digest) && DistinctNames(names) && name !in names && Injective(digest)
    requires |names| < MAX_BACKUPS
    ensures Holds(Apply(s, BurstOp(name), digest), names + [name], digest)
  {
    AnotherName(s, names, name, digest);
    SmallNotPruned(Added(s, name, 0, [("f", name)], digest(name)));
  }

  lemma {:induction false} RunSnoc(ops: seq<Op>, op: Op, digest: string -> string)
    ensures Run(ops + [op], digest) == Apply(Run(ops, digest), op, digest)
  {
    assert (ops + [op])[..|ops|] == ops;
  }

  lemma {:induction false} BurstNone(digest: string -> string)
    ensures Holds(Run([], digest), [], digest)
  {
  }

  /** The first five are all kept. */
  lemma {:induction false} BurstKept(names: seq<string>, digest: string -> string)
    requires |names| <= MAX_BACKUPS && DistinctNames(names) && Injective(digest)
    ensures Holds(Run(Burst(names), digest), names, digest)
  {
    hide Run, Apply, Holds;
    if names == [] {
      BurstNone(digest);
    } else {
      var init, name := names[..|names| - 1], names[|names| - 1];
      assert Burst(names) == Burst(init) + [BurstOp(name)];
      hide Burst;
      BurstKept(init, digest);
      RunSnoc(Burst(init), BurstOp(name), digest);
      BurstStep(Run(Burst(init), digest), init, name, digest);
      assert names == init + [name];
    }
  }

  /** After five backups in one second, one more in that second is pruned the moment it is made. */
  lemma {:induction false} BurstOverflows(names: seq<string>, name: string, digest: string -> string)
    requires |names| == MAX_BACKUPS && DistinctNames(names) && name !in names && Injective(digest)
    ensures forall x :: x in names ==> x in Ids(Run(Burst(names), digest).index)
    ensures name !in Ids(Run(Burst(names) + [BurstOp(name)], digest).index)
  {
    var s := Run(Burst(names), digest);
    BurstKept(names, digest);
    forall x | x in names
      ensures x in Ids(s.index)
    {
      var i :| 0 <= i < |names| && names[i] == x;
      assert s.index[i] in s.index;
    }
    RunSnoc(Burst(names), BurstOp(name), digest);
    OneMoreLost(s, names, name, digest);
  }

  lemma {:induction false} OneMoreLost(s: Store, names: seq<string>, name: string, digest: string -> string)
    requires Holds(s, names, digest) && DistinctNames(names) && name !in names && Injective(digest)
    requires |names| == MAX_BACKUPS
    ensures name !in Ids(Apply(s, BurstOp(name), digest).index)
  {
    AnotherName(s, names, name, digest);
    HoldsMeans(s, names, digest);
    NewBackupKept(s, name, 0, [("f", name)], digest(name));
    AllAsNew(s.index);
  }

  /** For one: "f" is lost after "a" to "e". */
  lemma {:induction false} SixthInOneSecondLost(digest: string -> string)
    requires Injective(digest)
    ensures "f" !in Ids(Run(Burst(["a", "b", "c", "d", "e"]) + [BurstOp("f")], digest).index)
  {
    BurstOverflows(["a", "b", "c", "d", "e"], "f", digest);
  }

  lemma {:induction false} AllAsNew(s: seq<Entry>)
    ensures AtLeastAsNew(s, 0) == |s|
  {
    if s != [] {
      AllAsNew(s[..|s| - 1]);
    }
  }

  // ---- Restoring ----

  /** The target's files after extracting the archive's members one by one. */
  function Extracted(target: map<string, string>, s: Snapshot): map<string, string>
  {
    if s == [] then target
    else
      var n := |s| - 1;
      Extracted(target, s[..n])[s[n].0 := s[n].1]
  }

  /** Every archived file has its bytes again, and every other file is untouched. */
  lemma {:induction false} ExtractRestores(target: map<string, string>, s: Snapshot, path: string)
    requires forall i, j :: 0 <= i < j < |s| ==> s[i].0 != s[j].0
    ensures forall i :: 0 <= i < |s| && s[i].0 == path ==> (path, s[i].1) in Extracted(target, s).Items
    ensures (forall i :: 0 <= i < |s| ==> s[i].0 != path) ==>
              (path in Extracted(target, s) <==> path in target)
              && (path in target ==> Extracted(target, s)[path] == target[path])
  {
    if s != [] {
      var n := |s| - 1;
      ExtractRestores(target, s[..n], path);
      var t := Extracted(target, s);
      if s[n].0 == path {
        assert path in t && t[path] == s[n].1;
        assert (path, s[n].1) in t.Items;
      } else {
        forall i | 0 <= i < |s| && s[i].0 == path
          ensures (path, s[i].1) in t.Items
        {
          assert s[..n][i].0 == path;
          assert t[path] == s[i].1;
        }
      }
    }
  }

  /**
    After every run that ends in a create, an entry with the hash asked for has an archive
    with the bytes asked for exactly unless it is superseded.
  */
  lemma {:induction false} BackupHoldsBytes(ops: seq<Op>, op: Op, digest: string -> string, e: Entry)
    requires Injective(digest) && op.Create?
    requires e in Run(ops + [op], digest).index && e.hash == digest(Bytes(op.snapshot))
    ensures var s := Run(ops + [op], digest);
            e.id in s.archives && (Bytes(s.archives[e.id]) == Bytes(op.snapshot) <==> !Superseded(s.index, e))
  {
    RunTruthful(ops + [op], digest);
    ArchiveOfEntry(Run(ops + [op], digest), e, digest);
  }

  /** Right after it is made a new entry is not superseded, if it is kept. */
  lemma {:induction false} NewNotSuperseded(s: Store, id: string, stamp: nat, snapshot: Snapshot,
                                            digest: string -> string)
    requires FindHash(s.index, digest(Bytes(snapshot))).None?
    ensures var r := Apply(s, Create(id, stamp, snapshot), digest);
            id in Ids(r.index) ==> LastOf(r.index, id) == Some(Entry(id, stamp, digest(Bytes(snapshot)), false))
  {
    var e := Entry(id, stamp, digest(Bytes(snapshot)), false);
    var added := Added(s, id, stamp, snapshot, e.hash);
    KeepMembers(added.index, NotIn(Surplus(added.index)));
    LastOfSnoc(s.index, e, id);
    if id !in Surplus(added.index) {
      LastOfOutside(added.index, Surplus(added.index), id);
    }
  }

  // ---- Pinning over runs ----

  /** Entry i is the first with this id. */
  ghost predicate First(index: seq<Entry>, id: string, i: int)
  {
    0 <= i < |index| && index[i].id == id && forall k :: 0 <= k < i ==> index[k].id != id
  }

  /** The operation neither makes another backup under this id, nor unpins it, nor deletes it. */
  ghost predicate Spares(op: Op, id: string)
  {
    match op
    case Create(x, _, _) => x != id
    case Flag(x, pinned) => x != id || pinned
    case Delete(x) => x != id
  }

  /** e is indexed, is the only entry with its id, and has this archive. */
  ghost predicate Sole(s: Store, e: Entry, snapshot: Snapshot)
  {
    && e in s.index && (forall x :: x in s.index && x.id == e.id ==> x == e)
    && e.id in s.archives && s.archives[e.id] == snapshot
  }

  /** Flagging with distinct ids: the entry with the id gets the flag, and every other one stays. */
  lemma {:induction false} FlagSets(s: Store, e: Entry, pinned: bool, snapshot: Snapshot, digest: string -> string)
    requires DistinctIds(s.index) && Sole(s, e, snapshot)
    ensures var t := Apply(s, Flag(e.id, pinned), digest);
            && Sole(t, e.(pinned := pinned), snapshot) && DistinctIds(t.index)
            && forall x: Entry :: x.id != e.id ==> (x in t.index <==> x in s.index)
  {
    var i :| 0 <= i < |s.index| && s.index[i] == e;
    FlaggedFirst(s.index, e.id, pinned, i);
    FlaggedShape(s.index, e.id, pinned);
    var t := s.index[i := e.(pinned := pinned)];
    assert t[i] in t;
    forall x: Entry | x.id != e.id && x in s.index
      ensures x in t
    {
      var k :| 0 <= k < |s.index| && s.index[k] == x;
      assert t[k] == x;
    }
  }

  lemma {:induction false} FlagOther(s: Store, e: Entry, id: string, pinned: bool, snapshot: Snapshot)
    requires Sole(s, e, snapshot) && (id != e.id || pinned == e.pinned)
    ensures Sole(s.(index := Flagged(s.index, id, pinned)), e, snapshot)
  {
    FlaggedElse(s.index, e, id, pinned);
  }

  lemma {:induction false} FlaggedElse(index: seq<Entry>, e: Entry, id: string, pinned: bool)
    requires id != e.id || pinned == e.pinned
    requires forall x :: x in index && x.id == e.id ==> x == e
    ensures e in Flagged(index, id, pinned) <==> e in index
    ensures forall x :: x in Flagged(index, id, pinned) && x.id == e.id ==> x == e
  {
    if index != [] {
      assert index == [index[0]] + index[1..];
      if index[0].id != id {
        FlaggedElse(index[1..], e, id, pinned);
      } else {
        assert index[0].(pinned := pinned) == e <==> index[0] == e;
      }
    }
  }

  lemma {:induction false} OutsideSole(s: Store, e: Entry, ids: set<string>, snapshot: Snapshot)
    requires Sole(s, e, snapshot) && e.id !in ids
    ensures Sole(Without(s, ids), e, snapshot)
  {
    KeepMembers(s.index, NotIn(ids));
  }

  lemma {:induction false} SpareKeeps(s: Store, e: Entry, op: Op, snapshot: Snapshot, digest: string -> string)
    requires Sole(s, e, snapshot) && e.pinned && Spares(op, e.id)
    ensures Sole(Apply(s, op, digest), e, snapshot)
  {
    match op
    case Create(id, stamp, bytes) =>
      var hash := digest(Bytes(bytes));
      if FindHash(s.index, hash).None? {
        var added := Added(s, id, stamp, bytes, hash);
        assert Sole(added, e, snapshot);
        if e.id in Surplus(added.index) {
          SurplusUnpinned(added.index, e.id);
          assert false;
        }
        OutsideSole(added, e, Surplus(added.index), snapshot);
      }
    case Flag(id, pinned) => FlagOther(s, e, id, pinned, snapshot);
    case Delete(id) => OutsideSole(s, e, {id}, snapshot);
  }

  /**
    A pin holds: with distinct ids, once an indexed backup is pinned, it stays in the index,
    pinned, and its archive stays what it was, through every further run that neither makes
    another backup under its id nor unpins or deletes it, however many others are made.
  */
  lemma {:induction false} PinHolds(ops: seq<Op>, e: Entry, more: seq<Op>, digest: string -> string)
    requires DistinctIds(Run(ops, digest).index) && e in Run(ops, digest).index
    requires forall op :: op in more ==> Spares(op, e.id)
    ensures e.id in Run(ops, digest).archives
    ensures Sole(Run(ops + [Flag(e.id, true)] + more, digest), e.(pinned := true), Run(ops, digest).archives[e.id])
  {
    var s := Run(ops, digest);
    IndexedHasArchive(ops, e, digest);
    hide Run, Apply, Spares;
    FlagSets(s, e, true, s.archives[e.id], digest);
    RunSnoc(ops, Flag(e.id, true), digest);
    PinnedKept(ops + [Flag(e.id, true)], e.(pinned := true), more, s.archives[e.id], digest);
  }

  lemma {:induction false} IndexedHasArchive(ops: seq<Op>, e: Entry, digest: string -> string)
    requires DistinctIds(Run(ops, digest).index) && e in Run(ops, digest).index
    ensures e.id in Run(ops, digest).archives && Sole(Run(ops, digest), e, Run(ops, digest).archives[e.id])
  {
    hide Run;
    RunConsistent(ops, digest);
  }

  lemma {:induction false} PinnedKept(ops: seq<Op>, e: Entry, more: seq<Op>, snapshot: Snapshot,
                                      digest: string -> string)
    requires Sole(Run(ops, digest), e, snapshot) && e.pinned && forall op :: op in more ==> Spares(op, e.id)
    ensures Sole(Run(ops + more, digest), e, snapshot)
  {
    hide Run, Apply, Sole, Spares;
    if more == [] {
      assert ops + [] == ops;
    } else {
      var init, last := more[..|more| - 1], more[|more| - 1];
      PinnedKept(ops, e, init, snapshot, digest);
      RunSnoc(ops + init, last, digest);
      SpareKeeps(Run(ops + init, digest), e, last, snapshot, digest);
      assert ops + more == ops + init + [last];
    }
  }

  /**
    An unpinned backup counts again: with distinct ids it is among the unpinned ones, and
    the next pruning removes it exactly if its rank among them is five or more.
  */
  lemma {:induction false} UnpinCounts(ops: seq<Op>, e: Entry, digest: string -> string)
    requires DistinctIds(Run(ops, digest).index) && e in Run(ops, digest).index
    ensures var t := Run(ops + [Flag(e.id, false)], digest);
            exists i :: 0 <= i < |Unpinned(t.index)| && Unpinned(t.index)[i] == e.(pinned := false)
                        && (e.id in Surplus(t.index) <==> Rank(Unpinned(t.index), i) >= 5)
  {
    hide CountBefore, Surplus;
    var s := Run(ops, digest);
    IndexedHasArchive(ops, e, digest);
    hide Run;
    RunSnoc(ops, Flag(e.id, false), digest);
    FlagSets(s, e, false, s.archives[e.id], digest);
    var t := Run(ops + [Flag(e.id, false)], digest);
    KeepMembers(t.index, Loose);
    var i :| 0 <= i < |Unpinned(t.index)| && Unpinned(t.index)[i] == e.(pinned := false);
    PrunedByRank(t.index, i);
  }

  // ---- The manager ----

  class BackupManager {
    var index: seq<Entry>
    var archives: map<string, Snapshot>
    const digest: string -> string

    constructor (digest: string -> string)
      ensures State() == Store([], map[]) && this.digest == digest
    {
      index, archives, this.digest := [], map[], digest;
    }

    ghost function State(): Store
      reads this
    {
      Store(index, archives)
    }

    /** _find_by_hash: the first entry with this hash. */
    method FindByHash(hash: string) returns (found: Option<Entry>)
      ensures found == FindHash(index, hash)
    {
      for i := 0 to |index|
        invariant FindHash(index, hash) == FindHash(index[i..], hash)
      {
        if index[i].hash == hash {
          return Some(index[i]);
        }
        assert index[i..][1..] == index[i + 1..];
      }
      return None;
    }

    /** pin_backup and unpin_backup: flag the first entry with this id, if there is one. */
    method SetPinned(id: string, pinned: bool) returns (found: bool)
      modifies `index
      ensures State() == Apply(old(State()), Flag(id, pinned), digest)
      ensures forall i :: First(old(index), id, i) ==>
                            found && index == old(index)[i := old(index)[i].(pinned := pinned)]
      ensures (forall e :: e in old(index) ==> e.id != id) ==> !found && index == old(index)
    {
      for i := 0 to |index|
        invariant index == old(index)
        invariant forall k :: 0 <= k < i ==> index[k].id != id
      {
        if index[i].id == id {
          FlaggedFirst(index, id, pinned, i);
          assert index[i] in index;
          assert forall k :: First(index, id, k) ==> k == i;
          index := index[i := index[i].(pinned := pinned)];
          return true;
        }
      }
      FlaggedNone(index, id, pinned);
      return false;
    }

    /** delete_backup: unlink the archive and drop every entry with this id. */
    method DeleteBackup(id: string)
      modifies `index, `archives
      ensures State() == Without(old(State()), {id})
      ensures archives == old(archives) - {id}
      ensures forall e :: e in index <==> e in old(index) && e.id != id
    {
      KeepMembers(index, NotIn({id}));
      if id in archives {
        archives := archives - {id};
      }
      var kept: seq<Entry> := [];
      for i := 0 to |index|
        invariant index == old(index)
        invariant archives == old(archives) - {id}
        invariant kept == Outside(index[..i], {id})
      {
        assert index[..i + 1][..i] == index[..i];
        if index[i].id != id {
          kept := kept + [index[i]];
        }
      }
      assert index[..|index|] == index;
      index := kept;
    }

    /** restore_backup: extract the archive's members over the target. */
    method RestoreBackup(id: string, target: map<string, string>) returns (restored: Option<map<string, string>>)
      ensures restored == if id in archives then Some(Extracted(target, archives[id])) else None
    {
      if id !in archives {
        return None;
      }
      var members := archives[id];
      var files := target;
      for i := 0 to |members|
        invariant files == Extracted(target, members[..i])
      {
        assert members[..i + 1][..i] == members[..i];
        files := files[members[i].0 := members[i].1];
      }
      assert members[..|members|] == members;
      return Some(files);
    }

    /** _prune: delete the unpinned backups after the first MAX_BACKUPS in stable newest-first order. */
    method Prune()
      modifies `index, `archives
      ensures State() == Pruned(old(State()))
    {
      var sorted := SortNewestFirst(Unpinned(index));
      var toRemove := if |sorted| <= MAX_BACKUPS then [] else sorted[MAX_BACKUPS..];
      assert toRemove == SurplusEntries(index);
      WithoutNothing(State());
      assert toRemove[..0] == [];
      for i := 0 to |toRemove|
        invariant State() == Without(old(State()), Ids(toRemove[..i]))
      {
        WithoutOneMore(old(State()), toRemove, i);
        DeleteBackup(toRemove[i].id);
      }
      assert toRemove[..|toRemove|] == toRemove;
    }

    /** create_backup: return the backup with the same bytes if there is one; otherwise archive, index and prune. */
    method CreateBackup(id: string, stamp: nat, snapshot: Snapshot) returns (info: Entry)
      modifies `index, `archives
      ensures State() == Apply(old(State()), Create(id, stamp, snapshot), digest)
      ensures info.hash == digest(Bytes(snapshot))
      ensures (exists e :: e in old(index) && e.hash == info.hash) ==>
                info in old(index) && index == old(index) && archives == old(archives)
      ensures (forall e :: e in old(index) ==> e.hash != info.hash) ==>
                (id in archives ==> archives[id] == snapshot)
                && (forall e :: e in index ==> e in old(index) || e == info)
                && (forall x :: x in archives && x != id ==> x in old(archives) && archives[x] == old(archives)[x])
      ensures FindHash(old(index), info.hash).None? ==>
                info == Entry(id, stamp, info.hash, false) && |Unpinned(index)| <= MAX_BACKUPS
    {
      var hash := digest(Bytes(snapshot));
      var existing := FindByHash(hash);
      FindHashFinds(index, hash);
      if existing.Some? {
        return existing.value;
      }
      archives := archives[id := snapshot];
      info := Entry(id, stamp, hash, false);
      index := index + [info];
      RetentionBound(index);
      KeepMembers(index, NotIn(Surplus(index)));
      Prune();
    }
  }

  lemma {:induction false} WithoutTwice(s: Store, a: set<string>, b: set<string>)
    ensures Without(Without(s, a), b) == Without(s, a + b)
  {
    KeepKeep(s.index, NotIn(a), NotIn(b), NotIn(a + b));
  }

  lemma {:induction false} FlaggedFirst(index: seq<Entry>, id: string, pinned: bool, i: nat)
    requires i < |index| && index[i].id == id && forall k :: 0 <= k < i ==> index[k].id != id
    ensures Flagged(index, id, pinned) == index[i := index[i].(pinned := pinned)]
  {
    if i > 0 {
      FlaggedFirst(index[1..], id, pinned, i - 1);
    }
  }

  lemma {:induction false} FlaggedNone(index: seq<Entry>, id: string, pinned: bool)
    requires forall k :: 0 <= k < |index| ==> index[k].id != id
    ensures Flagged(index, id, pinned) == index
  {
    if index != [] {
      FlaggedNone(index[1..], id, pinned);
    }
  }

  lemma {:induction false} WithoutOneMore(s: Store, list: seq<Entry>, i: nat)
    requires i < |list|
    ensures Without(Without(s, Ids(list[..i])), {list[i].id}) == Without(s, Ids(list[..i + 1]))
  {
    WithoutTwice(s, Ids(list[..i]), {list[i].id});
    IdsSnoc(list[..i], list[i]);
    assert list[..i + 1] == list[..i] + [list[i]];
  }

  lemma {:induction false} WithoutNothing(s: Store)
    ensures Without(s, Ids([])) == s
  {
    KeepAll(s.index, NotIn(Ids([])));
  }
}
