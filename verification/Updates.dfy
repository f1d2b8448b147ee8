/**
  Checking an installed plugin for updates: which version a check tries to install, what
  the attempt leaves, failed or not, and how the installed version moves over many checks.
*/
module Updates {
  import opened Options
  import opened PluginInstall
  import opened Versions

  /** What does not change between checks: the manifest format, int(), and the plugin's name. */
  datatype World = World(f: Format, toInt: string -> Option<int>, name: string)

  /** The newest version of a registry entry: whether it can be downloaded, its source and its archive. */
  datatype Offer = Offer(version: string, hasUrl: bool, source: string, files: Dir)

  /** What the registry says at one check, and what goes wrong if something is installed. */
  datatype Answers = Answers(own: Option<Offer>, bySource: seq<Offer>, fault: Fault)

  /** The plugin's directory and the copy set aside. */
  datatype State = State(plugin: Option<Dir>, bak: Option<Dir>)

  // ---- Choosing ----

  /** What a check settles on: an offer to install, one without a download, nothing, or a version it cannot read. */
  datatype Choice = Take(offer: Offer) | NoUrl | Nothing | Unreadable

  ghost function NewerThan(latest: string, current: Field, w: World): Option<bool>
  {
    if current.NotText? then None else Newer(latest, current.s, w.toInt)
  }

  /** Among the entries with the plugin's source, the first that is newer and can be downloaded. */
  ghost function FirstOffer(offers: seq<Offer>, source: string, current: Field, w: World): Choice
  {
    if offers == [] then Nothing
    else
      var newer := NewerThan(offers[0].version, current, w);
      if newer.None? then Unreadable
      else if newer.value && offers[0].hasUrl then Take(offers[0].(source := source))
      else FirstOffer(offers[1..], source, current, w)
  }

  /** Entries are looked for by source only if there is one. */
  ghost function BySource(offers: seq<Offer>, source: Field, current: Field, w: World): Choice
  {
    if source.Words? && source.s != "" then FirstOffer(offers, source.s, current, w) else Nothing
  }

  /** The plugin's own entry is asked first, and decides if it is newer. */
  ghost function Choose(a: Answers, source: Field, current: Field, w: World): Choice
  {
    if a.own.None? then BySource(a.bySource, source, current, w)
    else
      var newer := NewerThan(a.own.value.version, current, w);
      if newer.None? then Unreadable
      else if !newer.value then BySource(a.bySource, source, current, w)
      else if a.own.value.hasUrl then Take(a.own.value)
      else NoUrl
  }

  /** Whatever is chosen is readable and above the installed version, which is readable too. */
  lemma {:induction false} ChosenIsNewer(a: Answers, source: Field, current: Field, w: World)
    requires Choose(a, source, current, w).Take?
    ensures NewerThan(Choose(a, source, current, w).offer.version, current, w) == Some(true)
  {
    if source.Words? && FirstOffer(a.bySource, source.s, current, w).Take? {
      OfferIsNewer(a.bySource, source.s, current, w);
    }
  }

  lemma {:induction false} OfferIsNewer(offers: seq<Offer>, source: string, current: Field, w: World)
    requires FirstOffer(offers, source, current, w).Take?
    ensures NewerThan(FirstOffer(offers, source, current, w).offer.version, current, w) == Some(true)
  {
    if NewerThan(offers[0].version, current, w) != Some(true) || !offers[0].hasUrl {
      OfferIsNewer(offers[1..], source, current, w);
    }
  }

  /** Entry i is the first that is newer and can be downloaded, and all up to it can be compared. */
  ghost predicate FirstAt(offers: seq<Offer>, current: Field, w: World, i: int)
  {
    && 0 <= i < |offers| && NewerThan(offers[i].version, current, w) == Some(true) && offers[i].hasUrl
    && forall j :: 0 <= j < i ==> PassedBy(offers[j], current, w)
  }

  ghost predicate PassedBy(o: Offer, current: Field, w: World)
  {
    NewerThan(o.version, current, w).Some? && !(NewerThan(o.version, current, w).value && o.hasUrl)
  }

  /** Exactly the first such entry is taken, with the source looked for. */
  lemma {:induction false} FirstTaken(offers: seq<Offer>, source: string, current: Field, w: World)
    ensures forall i :: FirstAt(offers, current, w, i) ==>
                          FirstOffer(offers, source, current, w) == Take(offers[i].(source := source))
    ensures FirstOffer(offers, source, current, w).Take? ==> exists i :: FirstAt(offers, current, w, i)
    ensures FirstOffer(offers, source, current, w).Nothing? <==>
            forall j :: 0 <= j < |offers| ==> PassedBy(offers[j], current, w)
  {
    if offers != [] {
      var tail := offers[1..];
      assert forall j :: 0 < j < |offers| ==> offers[j] == tail[j - 1];
      FirstTaken(tail, source, current, w);
      forall i | FirstAt(offers, current, w, i)
        ensures FirstOffer(offers, source, current, w) == Take(offers[i].(source := source))
      {
        if i > 0 {
          assert PassedBy(offers[0], current, w);
          assert FirstAt(tail, current, w, i - 1);
        }
      }
      if PassedBy(offers[0], current, w) && FirstOffer(tail, source, current, w).Take? {
        var i :| FirstAt(tail, current, w, i);
        assert FirstAt(offers, current, w, i + 1);
      } else if FirstOffer(offers, source, current, w).Take? {
        assert FirstAt(offers, current, w, 0);
      }
    }
  }

  // ---- One check ----

  function RequestFor(w: World, o: Offer): Request
  {
    Request(w.name, o.version, o.source, o.files)
  }

  /** What an attempt to install leaves, and whether it is reported as done. */
  ghost function Attempt(w: World, s: State, o: Offer, fault: Fault): (State, bool)
  {
    var q := RequestFor(w, o);
    if fault.BadChecksum? then (s, false)
    else if Raises(w.f, q, s.plugin, s.bak, fault) then
      (State(AfterFailure(w.f, q, s.plugin, s.bak, fault), None), false)
    else (State(Some(Finish(w.f, q, Base(s.plugin), fault).tree), None), true)
  }

  ghost function ChoiceAt(w: World, s: State, a: Answers): Choice
  {
    match GetInfo(w.f, s.plugin)
    case Info(version, source) => Choose(a, source, version, w)
    case InfoRaises => Unreadable
    case NoInfo => Nothing
  }

  /** What one check leaves. */
  ghost function Round(w: World, s: State, a: Answers): State
  {
    match ChoiceAt(w, s, a)
    case Take(o) => Attempt(w, s, o, a.fault).0
    case _ => s
  }

  datatype UpdateResult = Updated | InstallFailed | UpToDate | NotInstalled | Raised

  ghost function StateOf(dirs: PluginDirs): State
    reads dirs
  {
    State(dirs.plugin, dirs.bak)
  }

  method NewerThanInstalled(w: World, latest: string, current: Field) returns (newer: Option<bool>)
    ensures newer == NewerThan(latest, current, w)
  {
    if current.NotText? {
      return None;
    }
    var a, b := ReadVersion(latest, w.toInt), ReadVersion(current.s, w.toInt);
    if a.None? || b.None? {
      return None;
    }
    var above := IsNewer(a.value, b.value);
    return Some(above);
  }

  /** The look at the own entry and the loop over the others: which offer to install, if any. */
  method Decide(w: World, a: Answers, source: Field, current: Field) returns (choice: Choice)
    ensures choice == Choose(a, source, current, w)
  {
    if a.own.Some? {
      var newer := NewerThanInstalled(w, a.own.value.version, current);
      if newer.None? {
        return Unreadable;
      }
      if newer.value {
        return if a.own.value.hasUrl then Take(a.own.value) else NoUrl;
      }
    }
    if source.NotText? || source.s == "" {
      return Nothing;
    }
    for i := 0 to |a.bySource|
      invariant Choose(a, source, current, w) == FirstOffer(a.bySource[i..], source.s, current, w)
    {
      var offer := a.bySource[i];
      assert a.bySource[i..][1..] == a.bySource[i + 1..];
      var newer := NewerThanInstalled(w, offer.version, current);
      if newer.None? {
        return Unreadable;
      }
      if newer.value && offer.hasUrl {
        return Take(offer.(source := source.s));
      }
    }
    return Nothing;
  }

  /** The installed plugin's manifest names it, with a version text that spells these numbers. */
  ghost predicate ShowsNumbers(w: World, plugin: Option<Dir>, v: Version)
  {
    && plugin.Some? && "plugin.json" in plugin.value && w.f.parse(plugin.value["plugin.json"]).Good?
    && var m := w.f.parse(plugin.value["plugin.json"]).m;
       m.named && m.version.Words? && Spells(m.version.s, v, w.toInt)
  }

  /** In the first place where they differ a has the greater number, or a goes on where b ends. */
  ghost predicate Higher(a: Version, b: Version)
  {
    exists k: nat :: k < |a| && k <= |b| && a[..k] == b[..k] && (k == |b| || a[k] > b[k])
  }

  /** What a check makes of the plugin's own entry x over the installed version y. */
  ghost predicate OwnEntryDecides(w: World, before: State, after: State, a: Answers, r: UpdateResult,
                                  x: Version, y: Version)
    requires a.own.Some?
  {
    if Higher(x, y) then
      if a.own.value.hasUrl then
        (r.Updated? || r.InstallFailed?) && after == Attempt(w, before, a.own.value, a.fault).0
      else r.UpToDate? && after == before
    else a.bySource == [] ==> r.UpToDate? && after == before
  }

  lemma {:induction false} OwnDecides(w: World, s: State, a: Answers, x: Version, y: Version)
    requires a.own.Some? && Spells(a.own.value.version, x, w.toInt) && ShowsNumbers(w, s.plugin, y)
    ensures GetInfo(w.f, s.plugin).Info?
    ensures Higher(x, y) ==> ChoiceAt(w, s, a) == if a.own.value.hasUrl then Take(a.own.value) else NoUrl
    ensures !Higher(x, y) && a.bySource == [] ==> ChoiceAt(w, s, a) == Nothing
  {
    var m := w.f.parse(s.plugin.value["plugin.json"]).m;
    NewerByNumbers(a.own.value.version, m.version.s, x, y, w.toInt);
  }

  /** check_updates_for and _check_single, for a plugin that does not come from GitHub. */
  method CheckSingle(w: World, dirs: PluginDirs, a: Answers) returns (r: UpdateResult)
    modifies dirs
    ensures StateOf(dirs) == Round(w, old(StateOf(dirs)), a)
    ensures var choice := old(ChoiceAt(w, StateOf(dirs), a));
            && (r.Raised? <==> choice.Unreadable?)
            && (r.NotInstalled? <==> old(GetInfo(w.f, dirs.plugin)).NoInfo?)
            && (r.Updated? <==> choice.Take? && Attempt(w, old(StateOf(dirs)), choice.offer, a.fault).1)
            && (r.InstallFailed? <==> choice.Take? && !Attempt(w, old(StateOf(dirs)), choice.offer, a.fault).1)
            && (r.Updated? && a.fault.NoFault? ==>
                  && var o, base := choice.offer, Base(old(dirs.plugin));
                     dirs.plugin.Some? && dirs.bak.None? && Delivered(o.files, base, dirs.plugin.value)
                     && (Faithful(w.f) ==> ManifestBrought(w.f, Request(w.name, o.version, o.source, o.files),
                                                           base + o.files, dirs.plugin.value)))
    ensures forall x, y :: a.own.Some? && Spells(a.own.value.version, x, w.toInt)
                           && ShowsNumbers(w, old(dirs.plugin), y) ==>
                             OwnEntryDecides(w, old(StateOf(dirs)), StateOf(dirs), a, r, x, y)
  {
    hide Delivered, ManifestBrought, Spells, Higher, ShowsNumbers, Finish;
    forall x, y | a.own.Some? && Spells(a.own.value.version, x, w.toInt) && ShowsNumbers(w, dirs.plugin, y)
      ensures GetInfo(w.f, dirs.plugin).Info?
      ensures Higher(x, y) ==> ChoiceAt(w, StateOf(dirs), a) == if a.own.value.hasUrl then Take(a.own.value) else NoUrl
      ensures !Higher(x, y) && a.bySource == [] ==> ChoiceAt(w, StateOf(dirs), a) == Nothing
    {
      OwnDecides(w, StateOf(dirs), a, x, y);
    }
    match GetInfo(w.f, dirs.plugin) {
      case NoInfo =>
        return NotInstalled;
      case InfoRaises =>
        return Raised;
      case Info(version, source) =>
        var choice := Decide(w, a, source, version);
        match choice {
          case Unreadable =>
            return Raised;
          case NoUrl =>
            return UpToDate;
          case Nothing =>
            return UpToDate;
          case Take(o) =>
            ChosenIsNewer(a, source, version, w);
            NotNewerThanItself(o.version, w.toInt);
            var status := dirs.InstallFromUrl(w.f, RequestFor(w, o), a.fault);
            return if status.Installed? then Updated else InstallFailed;
        }
    }
  }

  lemma {:induction false} NotNewerThanItself(version: string, toInt: string -> Option<int>)
    ensures Newer(version, version, toInt) != Some(true)
  {
    var v := ReadVersion(version, toInt);
    if v.Some? {
      AboveIrreflexive(v.value);
    }
  }

  // ---- How the version moves ----

  /** The version the plugin shows, if its manifest can be read and gives one. */
  function VersionOf(f: Format, plugin: Option<Dir>): Option<string>
  {
    match GetInfo(f, plugin)
    case Info(version, _) => if version.Words? then Some(version.s) else None
    case _ => None
  }

  /** The later version is the same or above, or there is none any more. */
  ghost predicate NotBelow(before: Option<string>, after: Option<string>, toInt: string -> Option<int>)
  {
    after.None? || after == before || (before.Some? && Newer(after.value, before.value, toInt) == Some(true))
  }

  lemma {:induction false} NotBelowTransitive(a: Option<string>, b: Option<string>, c: Option<string>,
                                              toInt: string -> Option<int>)
    requires NotBelow(a, b, toInt) && NotBelow(b, c, toInt)
    ensures NotBelow(a, c, toInt)
  {
    if a.Some? && b.Some? && c.Some? && a != b && b != c {
      AboveTransitive(ReadVersion(c.value, toInt).value, ReadVersion(b.value, toInt).value,
                      ReadVersion(a.value, toInt).value);
    }
  }

  /** A version given up for a higher one does not come back. */
  lemma {:induction false} NotBelowBack(a: Option<string>, b: Option<string>, toInt: string -> Option<int>)
    requires NotBelow(a, b, toInt) && NotBelow(b, a, toInt)
    ensures a == b
  {
    if a != b && a.Some? && b.Some? {
      var x, y := ReadVersion(a.value, toInt).value, ReadVersion(b.value, toInt).value;
      AboveTransitive(x, y, x);
      AboveIrreflexive(x);
    }
  }

  /** An installation reported as done, without garbage in the manifest, shows the version asked for or none. */
  lemma {:induction false} FinishedVersion(f: Format, q: Request, before: Dir, fault: Fault)
    requires Faithful(f) && !Finish(f, q, before, fault).raised
    requires fault.ManifestWrite? || fault.StampWrite? ==> !f.parse(fault.garbage).Good?
    ensures var v := VersionOf(f, Some(Finish(f, q, before, fault).tree)); v.None? || v == Some(q.version)
  {
    var d := before + q.files;
    var written := ManifestStep(f, q, d, fault).tree;
    assert ReadManifest(f, written).Good? ==> ReadManifest(f, written).m.version == Words(q.version);
    StampKeepsVersion(f, written, fault);
  }

  lemma {:induction false} StampKeepsVersion(f: Format, d: Dir, fault: Fault)
    requires Faithful(f) && !StampStep(f, d, fault).raised
    requires fault.StampWrite? ==> !f.parse(fault.garbage).Good?
    ensures var c := ReadManifest(f, StampStep(f, d, fault).tree);
            c.Good? ==> ReadManifest(f, d).Good? && c.m.version == ReadManifest(f, d).m.version
  {
  }

  /** Garbage is no manifest, and what a failed copy or removal leaves shows the plugin's version or none. */
  ghost predicate Gentle(f: Format, s: State, fault: Fault)
  {
    && (fault.ManifestWrite? || fault.StampWrite? ==> !f.parse(fault.garbage).Good?)
    && (fault.CopyAside? || fault.BackupRemoval? ==>
          VersionOf(f, Some(fault.left)).None? || VersionOf(f, Some(fault.left)) == VersionOf(f, s.plugin))
  }

  /** Without a leftover copy a check does not lower the version, and leaves no copy. */
  lemma {:induction false} RoundRises(w: World, s: State, a: Answers)
    requires Faithful(w.f) && s.bak.None? && Gentle(w.f, s, a.fault)
    ensures Round(w, s, a).bak.None?
    ensures NotBelow(VersionOf(w.f, s.plugin), VersionOf(w.f, Round(w, s, a).plugin), w.toInt)
  {
    var choice := ChoiceAt(w, s, a);
    if choice.Take? {
      var info := GetInfo(w.f, s.plugin);
      ChosenIsNewer(a, info.source, info.version, w);
      var q := RequestFor(w, choice.offer);
      if !a.fault.BadChecksum? && !Raises(w.f, q, s.plugin, s.bak, a.fault) {
        FinishedVersion(w.f, q, Base(s.plugin), a.fault);
      }
    }
  }

  /** A check lowers the version shown. */
  ghost predicate Lowers(w: World, s: State, a: Answers)
  {
    ShowsLower(w, s, Round(w, s, a).plugin)
  }

  /** The tree shows a version below the plugin's. */
  ghost predicate ShowsLower(w: World, s: State, tree: Option<Dir>)
  {
    && VersionOf(w.f, s.plugin).Some? && VersionOf(w.f, tree).Some?
    && Newer(VersionOf(w.f, s.plugin).value, VersionOf(w.f, tree).value, w.toInt) == Some(true)
  }

  /** The installation goes through, and the manifest written over with garbage shows a lower version. */
  ghost predicate GarbageLowers(w: World, q: Request, s: State, fault: Fault)
  {
    var r := Finish(w.f, q, Base(s.plugin), fault);
    !r.raised && ShowsLower(w, s, Some(r.tree))
  }

  lemma {:induction false} NeverLowerThanItself(w: World, s: State)
    ensures !ShowsLower(w, s, s.plugin)
  {
    if VersionOf(w.f, s.plugin).Some? {
      NotNewerThanItself(VersionOf(w.f, s.plugin).value, w.toInt);
    }
  }

  lemma {:induction false} HigherNotLower(w: World, s: State, tree: Option<Dir>)
    requires VersionOf(w.f, s.plugin).Some? && VersionOf(w.f, tree).Some?
    requires Newer(VersionOf(w.f, tree).value, VersionOf(w.f, s.plugin).value, w.toInt) == Some(true)
    ensures !ShowsLower(w, s, tree)
  {
    var a, b := VersionOf(w.f, s.plugin), VersionOf(w.f, tree);
    if ShowsLower(w, s, tree) {
      NotBelowBack(a, b, w.toInt);
      NotNewerThanItself(a.value, w.toInt);
    }
  }

  /**
    Exactly when a check lowers the version: it tries an installation, and a failed download
    brings back a leftover copy with a lower version, or a failed removal of that copy, a
    failed copy aside or a failed removal of it leaves a tree with one, or garbage written
    over the manifest reads as one.
  */
  lemma {:induction false} LowersExactly(w: World, s: State, a: Answers)
    requires Faithful(w.f)
    ensures Lowers(w, s, a) <==>
            && ChoiceAt(w, s, a).Take?
            && var q := RequestFor(w, ChoiceAt(w, s, a).offer);
               || (a.fault.Download? && s.bak.Some? && ShowsLower(w, s, s.bak))
               || ((a.fault.StaleRemoval? || a.fault.CopyAside?) && StrikesEarly(s.plugin, s.bak, a.fault)
                   && ShowsLower(w, s, Some(a.fault.left)))
               || (StrikesLast(w.f, q, s.plugin, s.bak, a.fault) && ShowsLower(w, s, Some(a.fault.left)))
               || ((a.fault.ManifestWrite? || a.fault.StampWrite?) && GarbageLowers(w, q, s, a.fault))
  {
    var choice := ChoiceAt(w, s, a);
    NeverLowerThanItself(w, s);
    if choice.Take? {
      var info := GetInfo(w.f, s.plugin);
      ChosenIsNewer(a, info.source, info.version, w);
      var q := RequestFor(w, choice.offer);
      if !a.fault.BadChecksum? && !Raises(w.f, q, s.plugin, s.bak, a.fault)
         && !a.fault.ManifestWrite? && !a.fault.StampWrite? {
        FinishedVersion(w.f, q, Base(s.plugin), a.fault);
        var tree := Some(Finish(w.f, q, Base(s.plugin), a.fault).tree);
        if VersionOf(w.f, s.plugin).Some? && VersionOf(w.f, tree).Some? {
          HigherNotLower(w, s, tree);
        }
      }
    }
  }

  /**
    A leftover copy of an older version: a failed download of the next version brings the
    old one back, and the check after that goes up again to the version there was.
  */
  lemma {:induction false} LeftoverComesBack(w: World, one: Dir, two: Dir, low: string, mid: string, high: string,
                                             source: string)
    requires Faithful(w.f) && VersionOf(w.f, Some(one)) == Some(low) && VersionOf(w.f, Some(two)) == Some(mid)
    requires Newer(mid, low, w.toInt) == Some(true) && Newer(high, mid, w.toInt) == Some(true)
    requires !Finish(w.f, Request(w.name, mid, source, map[]), one, NoFault).raised
    ensures var s := State(Some(two), Some(one));
            var r := Round(w, s, Answers(Some(Offer(high, true, source, map[])), [], Download));
            var again := Round(w, r, Answers(Some(Offer(mid, true, source, map[])), [], NoFault));
            && Lowers(w, s, Answers(Some(Offer(high, true, source, map[])), [], Download))
            && VersionOf(w.f, r.plugin) == Some(low) && VersionOf(w.f, again.plugin) == Some(mid)
  {
    var s := State(Some(two), Some(one));
    assert Round(w, s, Answers(Some(Offer(high, true, source, map[])), [], Download)) == State(Some(one), None);
    var o := Offer(mid, true, source, map[]);
    var q := RequestFor(w, o);
    assert one + map[] == one;
    var m := ReadManifest(w.f, one).m;
    assert ReadManifest(w.f, WithManifest(w.f, q, one)) == Good(m.(version := Words(mid), source := Words(source)));
    assert Finish(w.f, q, one, NoFault).tree == Stamped(w.f, WithManifest(w.f, q, one));
  }

  // ---- Many checks ----

  ghost function Rounds(w: World, s: State, rounds: seq<Answers>): State
    decreases |rounds|
  {
    if rounds == [] then s else Rounds(w, Round(w, s, rounds[0]), rounds[1..])
  }

  /** At each check what goes wrong is gentle. */
  ghost predicate GentleRun(w: World, s: State, rounds: seq<Answers>)
    decreases |rounds|
  {
    rounds != [] ==> Gentle(w.f, s, rounds[0].fault) && GentleRun(w, Round(w, s, rounds[0]), rounds[1..])
  }

  /** No version is below an earlier one, and none comes back that was given up. */
  ghost predicate Rising(trail: seq<Option<string>>, toInt: string -> Option<int>)
  {
    && (forall i, j :: 0 <= i < j < |trail| ==> NotBelow(trail[i], trail[j], toInt))
    && (forall i, j, k :: 0 <= i < j < k < |trail| && trail[i] == trail[k] && trail[k].Some? ==> trail[j] == trail[i])
  }

  lemma {:induction false} RisingSnoc(trail: seq<Option<string>>, v: Option<string>, toInt: string -> Option<int>)
    requires Rising(trail, toInt) && trail != [] && NotBelow(trail[|trail| - 1], v, toInt)
    ensures Rising(trail + [v], toInt)
  {
    var more := trail + [v];
    forall i | 0 <= i < |trail|
      ensures NotBelow(trail[i], v, toInt)
    {
      if i < |trail| - 1 {
        NotBelowTransitive(trail[i], trail[|trail| - 1], v, toInt);
      }
    }
    forall i, j | 0 <= i < j < |trail| && trail[i] == v && v.Some?
      ensures trail[j] == trail[i]
    {
      NotBelowBack(trail[i], trail[j], toInt);
    }
  }

  /**
    However many checks follow, and whatever the registry answers: if no copy is left over at
    the start and what goes wrong is gentle, the versions the plugin shows rise.
  */
  method FollowUpdates(w: World, dirs: PluginDirs, rounds: seq<Answers>) returns (trail: seq<Option<string>>)
    modifies dirs
    ensures StateOf(dirs) == Rounds(w, old(StateOf(dirs)), rounds)
    ensures |trail| == |rounds| + 1 && trail[0] == old(VersionOf(w.f, dirs.plugin))
    ensures trail[|rounds|] == VersionOf(w.f, dirs.plugin)
    ensures Faithful(w.f) && old(dirs.bak).None? && GentleRun(w, old(StateOf(dirs)), rounds) ==>
              Rising(trail, w.toInt) && dirs.bak.None?
  {
    trail := [VersionOf(w.f, dirs.plugin)];
    ghost var calm := Faithful(w.f) && dirs.bak.None? && GentleRun(w, StateOf(dirs), rounds);
    for n := 0 to |rounds|
      invariant Rounds(w, StateOf(dirs), rounds[n..]) == Rounds(w, old(StateOf(dirs)), rounds)
      invariant |trail| == n + 1 && trail[0] == old(VersionOf(w.f, dirs.plugin))
      invariant trail[n] == VersionOf(w.f, dirs.plugin)
      invariant calm ==> dirs.bak.None? && GentleRun(w, StateOf(dirs), rounds[n..]) && Rising(trail, w.toInt)
    {
      assert rounds[n..][1..] == rounds[n + 1..];
      ghost var before := StateOf(dirs);
      if calm {
        RoundRises(w, before, rounds[n]);
        RisingSnoc(trail, VersionOf(w.f, Round(w, before, rounds[n]).plugin), w.toInt);
      }
      var r := CheckSingle(w, dirs, rounds[n]);
      trail := trail + [VersionOf(w.f, dirs.plugin)];
    }
  }
}
