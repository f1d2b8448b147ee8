/**
  Installing a plugin over an existing one: copy aside, extract, write the manifest,
  stamp its integrity, and roll back when a step raises; then the tamper check at load.
*/
module PluginInstall {
  import opened Options

  /** A directory tree: the bytes of every file by relative path. */
  type Dir = map<string, string>

  const MANIFEST := "plugin.json"
  const SHA := "sha256:"

  /** A manifest field that ought to be text. */
  datatype Field = Words(s: string) | NotText

  datatype Permissions = Absent | Null | Accepted | Refused

  /** The fields that matter, with the defaults for those that are missing; rest stands for the others. */
  datatype Manifest = Manifest(named: bool, version: Field, source: Field, entryPoint: Field, checksum: Field,
                               permissions: Permissions, enabled: bool, rest: string)

  /**
    What reading a manifest comes to: an error that is caught where it is read (no JSON, or
    not readable), one that is not (not UTF-8, nested too deep, or no object), or a manifest.
  */
  datatype Contents = Broken | Odd | Good(m: Manifest)

  /** The manifest's text form, the hash of a file's bytes, and the paths for which there is an import loader. */
  datatype Format = Format(parse: string -> Contents, render: Manifest -> string, digest: string -> string,
                           importable: string -> bool)

  ghost predicate Faithful(f: Format)
  {
    forall m :: f.parse(f.render(m)) == Good(m)
  }

  ghost predicate CollisionFree(f: Format)
  {
    forall a, b :: f.digest(a) == f.digest(b) ==> a == b
  }

  /** Where the file system or the network fails, and what the failing step leaves behind. */
  datatype Fault =
    | NoFault
    | Download
    | BadChecksum
    | StaleRemoval(left: Dir)
    | CopyAside(left: Dir)
    | Extract(left: Dir)
    | ManifestWrite(garbage: string)
    | EntryRead
    | StampWrite(garbage: string)
    | BackupRemoval(left: Dir)

  datatype Status = Threw | Skipped | Installed | Failed

  /** What is asked for: version, source and the archive's files below its top-level directory. */
  datatype Request = Request(name: string, version: string, source: string, files: Dir)

  // ---- Reading a tree ----

  /** A directory is there if a file is below it; the empty path is the plugin's directory itself. */
  predicate IsDirectory(d: Dir, path: string)
  {
    path == "" || exists file :: file in d && path + "/" <= file
  }

  predicate HasManifest(d: Dir)
  {
    MANIFEST in d || IsDirectory(d, MANIFEST)
  }

  /** A manifest that is a directory cannot be read. */
  function ReadManifest(f: Format, d: Dir): Contents
  {
    if MANIFEST in d then f.parse(d[MANIFEST]) else Broken
  }

  /** What get_info makes of an installed plugin; an error it does not catch goes straight to the caller. */
  datatype Info = NoInfo | InfoRaises | Info(version: Field, source: Field)

  function GetInfo(f: Format, plugin: Option<Dir>): Info
  {
    if plugin.None? then NoInfo
    else match ReadManifest(f, plugin.value)
      case Broken => NoInfo
      case Odd => InfoRaises
      case Good(m) => if m.named then Info(m.version, m.source) else NoInfo
  }

  // ---- The steps after extraction ----

  function NewManifest(q: Request): Manifest
  {
    Manifest(true, Words(q.version), Words(q.source), Words("plugin.py"), Words(""), Absent, true, q.name)
  }

  /** The tree with its manifest created or brought up to date; one that cannot be read is left alone. */
  function WithManifest(f: Format, q: Request, d: Dir): Dir
  {
    if !HasManifest(d) then d[MANIFEST := f.render(NewManifest(q))]
    else match ReadManifest(f, d)
      case Good(m) => d[MANIFEST := f.render(m.(version := Words(q.version), source := Words(q.source)))]
      case _ => d
  }

  /** stamp_plugin_integrity: record the entry file's hash, and a permissions block if there is none. */
  function Stamped(f: Format, d: Dir): Dir
  {
    match ReadManifest(f, d)
    case Good(m) =>
      var checksum :=
        if m.entryPoint.Words? && m.entryPoint.s in d then Words(SHA + f.digest(d[m.entryPoint.s])) else m.checksum;
      var permissions := if m.permissions.Absent? then Accepted else m.permissions;
      d[MANIFEST := f.render(m.(checksum := checksum, permissions := permissions))]
    case _ => d
  }

  /** Stamping raises on a manifest it cannot look into, and on an entry point that is no text or a directory. */
  predicate StampRaises(f: Format, d: Dir)
  {
    match ReadManifest(f, d)
    case Broken => false
    case Odd => true
    case Good(m) => m.entryPoint.NotText? || IsDirectory(d, m.entryPoint.s)
  }

  /** An install that meets no fault. */
  function Complete(f: Format, q: Request, before: Dir): Dir
  {
    Stamped(f, WithManifest(f, q, before + q.files))
  }

  /** A tree, and whether an exception left it that way. */
  datatype Step = Step(tree: Dir, raised: bool)

  /** Writing the manifest: creating one may fail loudly, updating one fails silently. */
  function ManifestStep(f: Format, q: Request, d: Dir, fault: Fault): Step
  {
    if ReadManifest(f, d).Odd? then Step(d, true)
    else if !fault.ManifestWrite? then Step(WithManifest(f, q, d), false)
    else if !HasManifest(d) then Step(d[MANIFEST := fault.garbage], true)
    else Step(if ReadManifest(f, d).Good? then d[MANIFEST := fault.garbage] else d, false)
  }

  /** Stamping: reading may fail loudly, writing fails silently. */
  function StampStep(f: Format, d: Dir, fault: Fault): Step
  {
    var c := ReadManifest(f, d);
    if StampRaises(f, d) || (fault.EntryRead? && c.Good? && c.m.entryPoint.s in d) then Step(d, true)
    else if fault.StampWrite? && c.Good? then Step(d[MANIFEST := fault.garbage], false)
    else Step(Stamped(f, d), false)
  }

  /** Both of them, on the extracted tree. */
  function Finish(f: Format, q: Request, before: Dir, fault: Fault): (r: Step)
    ensures !r.raised && !fault.ManifestWrite? && !fault.StampWrite? ==> r.tree == Complete(f, q, before)
  {
    var written := ManifestStep(f, q, before + q.files, fault);
    if written.raised then written else StampStep(f, written.tree, fault)
  }

  /** Without faults the manifest and its entry point decide whether an installation goes through. */
  lemma {:induction false} FinishesWithoutFault(f: Format, q: Request, before: Dir)
    requires Faithful(f)
    ensures var d := before + q.files;
            !Finish(f, q, before, NoFault).raised <==>
            if !HasManifest(d) then !IsDirectory(d, "plugin.py")
            else match ReadManifest(f, d)
              case Broken => true
              case Odd => false
              case Good(m) => m.entryPoint.Words? && !IsDirectory(d, m.entryPoint.s)
  {
    var d := before + q.files;
    if HasManifest(d) ==> MANIFEST in d {
      SameDirectories(f, q, d);
    }
    hide IsDirectory;
    assert IsDirectory(d, "") && IsDirectory(WithManifest(f, q, d), "") by {
      EmptyPath(d);
      EmptyPath(WithManifest(f, q, d));
    }
  }

  lemma {:induction false} EmptyPath(d: Dir)
    ensures IsDirectory(d, "")
  {
  }

  /** Writing the manifest into a tree makes no path a directory. */
  lemma {:induction false} SameDirectories(f: Format, q: Request, d: Dir)
    requires HasManifest(d) ==> MANIFEST in d
    ensures forall path :: path != "" ==> (IsDirectory(WithManifest(f, q, d), path) <==> IsDirectory(d, path))
  {
    var e := WithManifest(f, q, d);
    forall path | path != ""
      ensures IsDirectory(e, path) <==> IsDirectory(d, path)
    {
      SlashFree(path);
      assert forall file :: file in e <==> file in d || (file == MANIFEST && MANIFEST in e);
    }
  }

  /** The manifest's name lies below no directory. */
  lemma {:induction false} SlashFree(path: string)
    requires path != ""
    ensures !(path + "/" <= MANIFEST)
  {
    assert '/' !in MANIFEST;
    assert (path + "/")[|path|] == '/';
  }

  // ---- What an installation brings, file by file ----

  /** Apart from the manifest, the tree holds the archive's files, and below them those there were before. */
  ghost predicate Delivered(files: Dir, before: Dir, tree: Dir)
  {
    forall file :: file != "plugin.json" ==>
      && (file in tree <==> file in files || file in before)
      && (file in files ==> tree[file] == files[file])
      && (file in before && file !in files ==> tree[file] == before[file])
  }

  /** A file stands below the path. */
  ghost predicate Below(d: Dir, path: string)
  {
    exists file :: file in d && path + "/" <= file
  }

  /** The manifest n that is stamped over m, once the tree d is there: version, source, checksum and permissions. */
  ghost predicate Records(f: Format, version: string, source: string, d: Dir, m: Manifest, n: Manifest)
  {
    && n.named == m.named && n.enabled == m.enabled && n.entryPoint == m.entryPoint && n.rest == m.rest
    && n.version == Words(version) && n.source == Words(source)
    && n.permissions == (if m.permissions.Absent? then Accepted else m.permissions)
    && m.entryPoint.Words?
    && (m.entryPoint.s in d && m.entryPoint.s != "plugin.json" ==>
          n.checksum == Words("sha256:" + f.digest(d[m.entryPoint.s])))
    && (m.entryPoint.s !in d && m.entryPoint.s != "plugin.json" ==> n.checksum == m.checksum)
  }

  /** What becomes of the extracted tree's manifest: brought up to date, created, or left alone if unreadable. */
  ghost predicate ManifestBrought(f: Format, q: Request, d: Dir, tree: Dir)
  {
    if "plugin.json" in d then
      && "plugin.json" in tree
      && match f.parse(d["plugin.json"])
         case Good(m) =>
           var c := f.parse(tree["plugin.json"]);
           c.Good? && Records(f, q.version, q.source, d, m, c.m)
         case _ => tree["plugin.json"] == d["plugin.json"]
    else if Below(d, "plugin.json") then "plugin.json" !in tree
    else
      && "plugin.json" in tree
      && var c := f.parse(tree["plugin.json"]);
         c.Good? && Records(f, q.version, q.source, d, Fresh(q.name), c.m)
  }

  /** The manifest written for a plugin that brings none. */
  ghost function Fresh(name: string): Manifest
  {
    Manifest(true, NotText, NotText, Words("plugin.py"), Words(""), Absent, true, name)
  }

  lemma {:induction false} FilesDelivered(f: Format, q: Request, before: Dir)
    ensures Delivered(q.files, before, Complete(f, q, before))
  {
  }

  lemma {:induction false} InstallDelivers(f: Format, q: Request, before: Dir)
    requires Faithful(f) && !Finish(f, q, before, NoFault).raised
    ensures ManifestBrought(f, q, before + q.files, Complete(f, q, before))
  {
    var d := before + q.files;
    var e := WithManifest(f, q, d);
    if !HasManifest(d) {
      StampRecords(f, q, d, NewManifest(q), e);
    } else if MANIFEST in d && f.parse(d[MANIFEST]).Good? {
      var m := f.parse(d[MANIFEST]).m;
      StampRecords(f, q, d, m.(version := Words(q.version), source := Words(q.source)), e);
    }
  }

  /** Stamping the tree whose manifest has just been written. */
  lemma {:induction false} StampRecords(f: Format, q: Request, d: Dir, m: Manifest, e: Dir)
    requires Faithful(f) && e == d[MANIFEST := f.render(m)] && !StampRaises(f, e)
    requires m.version == Words(q.version) && m.source == Words(q.source)
    ensures MANIFEST in Stamped(f, e) && f.parse(Stamped(f, e)[MANIFEST]).Good?
    ensures Records(f, q.version, q.source, d, m, f.parse(Stamped(f, e)[MANIFEST]).m)
  {
    assert ReadManifest(f, e) == Good(m);
  }

  /** Without a fault the installation fails on a manifest or an entry point that cannot be looked into. */
  ghost predicate Unusable(f: Format, d: Dir)
  {
    if "plugin.json" in d then
      match f.parse(d["plugin.json"])
      case Broken => false
      case Odd => true
      case Good(m) => m.entryPoint.NotText? || m.entryPoint.s == "" || Below(d, m.entryPoint.s)
    else !Below(d, "plugin.json") && Below(d, "plugin.py")
  }

  /** What is there already: a readable manifest that names the plugin, with this version and source. */
  ghost predicate Shows(f: Format, plugin: Option<Dir>, version: Field, source: Field)
  {
    && plugin.Some? && "plugin.json" in plugin.value && f.parse(plugin.value["plugin.json"]).Good?
    && var m := f.parse(plugin.value["plugin.json"]).m;
       m.named && m.version == version && m.source == source
  }

  lemma {:induction false} InstallsUnlessUnusable(f: Format, q: Request, before: Dir)
    requires Faithful(f)
    ensures Finish(f, q, before, NoFault).raised <==> Unusable(f, before + q.files)
    ensures !Finish(f, q, before, NoFault).raised ==>
              ManifestBrought(f, q, before + q.files, Finish(f, q, before, NoFault).tree)
  {
    hide Finish, ManifestBrought;
    FinishesWithoutFault(f, q, before);
    if !Finish(f, q, before, NoFault).raised {
      InstallDelivers(f, q, before);
    }
  }

  // ---- When it fails, and what is left ----

  function Base(plugin: Option<Dir>): Dir
  {
    if plugin.Some? then plugin.value else map[]
  }

  /** The faults that strike up to extraction. */
  predicate StrikesEarly(plugin: Option<Dir>, bak: Option<Dir>, fault: Fault)
  {
    || fault.Download? || fault.Extract?
    || (fault.StaleRemoval? && plugin.Some? && bak.Some?)
    || (fault.CopyAside? && plugin.Some?)
  }

  /** The copy set aside, old or new, cannot be removed at the end. */
  predicate StrikesLast(f: Format, q: Request, plugin: Option<Dir>, bak: Option<Dir>, fault: Fault)
  {
    fault.BackupRemoval? && (plugin.Some? || bak.Some?) && !Finish(f, q, Base(plugin), fault).raised
  }

  /** An exception reaches the handler. */
  predicate Raises(f: Format, q: Request, plugin: Option<Dir>, bak: Option<Dir>, fault: Fault)
  {
    || StrikesEarly(plugin, bak, fault)
    || Finish(f, q, Base(plugin), fault).raised
    || StrikesLast(f, q, plugin, bak, fault)
  }

  /** The plugin's directory after the exception has been handled. */
  function AfterFailure(f: Format, q: Request, plugin: Option<Dir>, bak: Option<Dir>, fault: Fault): Option<Dir>
  {
    if fault.Download? then if bak.Some? then bak else plugin
    else if (fault.StaleRemoval? || fault.CopyAside?) && StrikesEarly(plugin, bak, fault) then Some(fault.left)
    else if StrikesLast(f, q, plugin, bak, fault) then Some(fault.left)
    else if plugin.Some? then plugin
    else if bak.Some? then bak
    else if fault.Extract? then Some(fault.left)
    else Some(Finish(f, q, map[], fault).tree)
  }

  /** A copy that stops after one of two files: the plugin is left with that file only. */
  lemma {:induction false} PartialCopyRestored(f: Format, q: Request)
    ensures var plugin, fault := map["plugin.py" := "run", "data.txt" := "1"], CopyAside(map["plugin.py" := "run"]);
            && GetInfo(f, Some(plugin)).NoInfo? && Raises(f, q, Some(plugin), None, fault)
            && AfterFailure(f, q, Some(plugin), None, fault) == Some(map["plugin.py" := "run"])
            && "data.txt" !in AfterFailure(f, q, Some(plugin), None, fault).value
  {
    assert MANIFEST != "plugin.py" && MANIFEST != "data.txt" by {
      assert |MANIFEST| == 11 && |"plugin.py"| == 9 && |"data.txt"| == 8;
    }
    assert |"data.txt"| != |"plugin.py"|;
  }

  class PluginDirs {
    var plugin: Option<Dir>   // the plugin's directory
    var bak: Option<Dir>      // its copy set aside

    constructor (plugin: Option<Dir>, bak: Option<Dir>)
      ensures this.plugin == plugin && this.bak == bak
    {
      this.plugin, this.bak := plugin, bak;
    }

    /** The exception handler: put the copy set aside back, if there is one. */
    method Rollback()
      modifies this
      ensures if old(bak).Some? then plugin == old(bak) && bak == None
              else plugin == old(plugin) && bak == old(bak)
    {
      if bak.Some? {
        plugin := bak;
        bak := None;
      }
    }

    /**
      _install_from_url: the plugin is left alone if it is there already, or if what is
      there makes the look at it raise. Otherwise the installation fails exactly on a bad
      checksum or when a step raises. For a plugin that was installed, with no copy left
      over from before, a failure restores its tree exactly unless the copy aside or its
      removal was what failed and left something else.
    */
    method InstallFromUrl(f: Format, q: Request, fault: Fault) returns (status: Status)
      modifies this
      ensures status.Threw? <==> GetInfo(f, old(plugin)).InfoRaises?
      ensures status.Skipped? <==> GetInfo(f, old(plugin)) == Info(Words(q.version), Words(q.source))
      ensures status.Skipped? <==> Shows(f, old(plugin), Words(q.version), Words(q.source))
      ensures status.Threw? <==> old(plugin).Some? && "plugin.json" in old(plugin).value
                                 && f.parse(old(plugin).value["plugin.json"]) == Odd
      ensures fault.NoFault? && Faithful(f) && !status.Threw? && !status.Skipped? ==>
                (status.Failed? <==> Unusable(f, Base(old(plugin)) + q.files))
      ensures fault.NoFault? && status.Installed? ==>
                plugin.Some? && Delivered(q.files, Base(old(plugin)), plugin.value)
                && (Faithful(f) ==> ManifestBrought(f, q, Base(old(plugin)) + q.files, plugin.value))
      ensures status.Threw? || status.Skipped? ==> plugin == old(plugin) && bak == old(bak)
      ensures !status.Threw? && !status.Skipped? ==>
                (status.Failed? <==> fault.BadChecksum? || Raises(f, q, old(plugin), old(bak), fault))
      ensures status.Installed? ==> bak == None && plugin == Some(Finish(f, q, Base(old(plugin)), fault).tree)
      ensures status.Failed? && fault.BadChecksum? ==> plugin == old(plugin) && bak == old(bak)
      ensures status.Failed? && !fault.BadChecksum? ==>
                bak == None && plugin == AfterFailure(f, q, old(plugin), old(bak), fault)
      ensures status.Failed? && !fault.BadChecksum? && old(plugin).Some? && old(bak).None? ==>
                (plugin == old(plugin) <==>
                 (fault.CopyAside? || StrikesLast(f, q, old(plugin), None, fault) ==> Some(fault.left) == old(plugin)))
    {
      hide Finish, Delivered, ManifestBrought, Unusable;
      FilesDelivered(f, q, Base(plugin));
      if fault.NoFault? && Faithful(f) {
        InstallsUnlessUnusable(f, q, Base(plugin));
      }
      match GetInfo(f, plugin) {
        case InfoRaises =>
          return Threw;
        case Info(version, source) =>
          if version == Words(q.version) && source == Words(q.source) {
            return Skipped;
          }
        case NoInfo =>
      }
      if fault.BadChecksum? {
        return Failed;
      }
      var raised := fault.Download?;
      if !raised {
        raised := Steps(f, q, fault);
      }
      if raised {
        Rollback();
        return Failed;
      }
      return Installed;
    }

    /** Everything after the download, up to the first exception. */
    method Steps(f: Format, q: Request, fault: Fault) returns (raised: bool)
      requires !fault.Download? && !fault.BadChecksum?
      modifies this
      ensures raised <==> Raises(f, q, old(plugin), old(bak), fault)
      ensures raised ==> (if bak.Some? then bak else plugin) == AfterFailure(f, q, old(plugin), old(bak), fault)
      ensures !raised ==> bak == None && plugin == Some(Finish(f, q, Base(old(plugin)), fault).tree)
    {
      hide ManifestStep, StampStep, StampRaises;
      raised := SetAside(fault);
      if raised {
        return;
      }
      raised := Unpack(q, fault);
      if raised {
        return;
      }
      raised := Manifest(f, q, fault);
      if raised {
        return;
      }
      raised := Stamp(f, fault);
      if raised {
        return;
      }
      if bak.Some? {
        raised := fault.BackupRemoval?;
        bak := if raised then Some(fault.left) else None;
      }
    }

    /** Back up the existing directory, in place of an older copy. */
    method SetAside(fault: Fault) returns (raised: bool)
      modifies `bak
      ensures raised <==> plugin.Some? && (fault.CopyAside? || (fault.StaleRemoval? && old(bak).Some?))
      ensures bak == if raised then Some(fault.left) else if plugin.Some? then plugin else old(bak)
    {
      if plugin.None? {
        return false;
      }
      if bak.Some? {
        if fault.StaleRemoval? {
          bak := Some(fault.left);
          return true;
        }
        bak := None;
      }
      if fault.CopyAside? {
        bak := Some(fault.left);
        return true;
      }
      bak := plugin;
      return false;
    }

    /** Make the directory if need be and extract the archive into it. */
    method Unpack(q: Request, fault: Fault) returns (raised: bool)
      modifies `plugin
      ensures raised <==> fault.Extract?
      ensures plugin == Some(if raised then fault.left else Base(old(plugin)) + q.files)
    {
      if plugin.None? {
        plugin := Some(map[]);
      }
      raised := fault.Extract?;
      plugin := Some(if raised then fault.left else plugin.value + q.files);
    }

    /** Create the manifest, or bring it up to date; only the update's own errors are caught. */
    method Manifest(f: Format, q: Request, fault: Fault) returns (raised: bool)
      requires plugin.Some?
      modifies `plugin
      ensures var step := ManifestStep(f, q, old(plugin).value, fault);
              plugin == Some(step.tree) && raised == step.raised
    {
      var d := plugin.value;
      if !HasManifest(d) {
        plugin := Some(d[MANIFEST := if fault.ManifestWrite? then fault.garbage else f.render(NewManifest(q))]);
        return fault.ManifestWrite?;
      }
      match ReadManifest(f, d) {
        case Broken =>
          return false;
        case Odd =>
          return true;
        case Good(m) =>
          var updated := m.(version := Words(q.version), source := Words(q.source));
          plugin := Some(d[MANIFEST := if fault.ManifestWrite? then fault.garbage else f.render(updated)]);
          return false;
      }
    }

    /** stamp_plugin_integrity: only the errors of reading and of writing the manifest are caught. */
    method Stamp(f: Format, fault: Fault) returns (raised: bool)
      requires plugin.Some?
      modifies `plugin
      ensures var step := StampStep(f, old(plugin).value, fault); plugin == Some(step.tree) && raised == step.raised
    {
      var d := plugin.value;
      match ReadManifest(f, d) {
        case Broken =>
          return false;
        case Odd =>
          return true;
        case Good(m) =>
          if m.entryPoint.NotText? || IsDirectory(d, m.entryPoint.s) {
            return true;
          }
          var stamped := m;
          if m.entryPoint.s in d {
            if fault.EntryRead? {
              return true;
            }
            stamped := stamped.(checksum := Words(SHA + f.digest(d[m.entryPoint.s])));
          }
          if stamped.permissions.Absent? {
            stamped := stamped.(permissions := Accepted);
          }
          plugin := Some(d[MANIFEST := if fault.StampWrite? then fault.garbage else f.render(stamped)]);
          return false;
      }
    }
  }

  // ---- Loading ----

  /**
    load goes as far as running the entry file: manifest readable and enabled, permissions
    not refused, entry file present and importable, checksum right if one is declared.
  */
  predicate Loads(f: Format, d: Dir)
  {
    match ReadManifest(f, d)
    case Good(m) =>
      && m.enabled && !m.permissions.Refused?
      && m.entryPoint.Words? && m.entryPoint.s in d && f.importable(m.entryPoint.s) && m.checksum.Words?
      && (SHA <= m.checksum.s ==> f.digest(d[m.entryPoint.s]) == m.checksum.s[|SHA|..])
    case _ => false
  }

  /**
    After stamping, and as long as the manifest is left alone, the plugin loads exactly if
    the manifest enables it, its permissions validate, and its entry file is importable and
    there with the bytes it was stamped with.
  */
  lemma {:induction false} LoadsWhileUntouched(f: Format, d: Dir, later: Dir)
    requires Faithful(f) && CollisionFree(f)
    requires ReadManifest(f, d).Good? && ReadManifest(f, d).m.entryPoint.Words?
    requires var entry := ReadManifest(f, d).m.entryPoint.s; entry in d && entry != MANIFEST
    requires MANIFEST in later && later[MANIFEST] == Stamped(f, d)[MANIFEST]
    ensures var m := ReadManifest(f, d).m; var entry := m.entryPoint.s;
            Loads(f, later) <==>
            m.enabled && !m.permissions.Refused? && f.importable(entry) && entry in later && later[entry] == d[entry]
  {
    var m := ReadManifest(f, d).m;
    var stamped := m.(checksum := Words(SHA + f.digest(d[m.entryPoint.s])),
                      permissions := if m.permissions.Absent? then Accepted else m.permissions);
    assert ReadManifest(f, later) == Good(stamped);
    assert stamped.checksum.s[|SHA|..] == f.digest(d[m.entryPoint.s]);
  }

  /**
    A plugin just installed without a fault loads exactly if its manifest can be read,
    enables it, has permissions that validate, and names an importable entry file that is
    there; it has the requested version then.
  */
  lemma {:induction false} InstalledLoads(f: Format, q: Request, before: Dir)
    requires Faithful(f) && CollisionFree(f) && !Finish(f, q, before, NoFault).raised
    requires var c := ReadManifest(f, WithManifest(f, q, before + q.files));
             c.Good? ==> c.m.entryPoint != Words(MANIFEST)
    ensures var d := WithManifest(f, q, before + q.files); var c := ReadManifest(f, d);
            Loads(f, Complete(f, q, before)) <==>
            c.Good? && c.m.enabled && !c.m.permissions.Refused?
            && c.m.entryPoint.s in d && f.importable(c.m.entryPoint.s)
    ensures Loads(f, Complete(f, q, before)) ==> ReadManifest(f, Complete(f, q, before)).m.version == Words(q.version)
  {
    var d := WithManifest(f, q, before + q.files);
    var c := ReadManifest(f, d);
    if c.Good? {
      assert c.m.version == Words(q.version);
      if c.m.entryPoint.s in d {
        LoadsWhileUntouched(f, d, Stamped(f, d));
      }
    }
  }

  /** Without a declared checksum the bytes of the entry file do not matter. */
  lemma {:induction false} LoadsUnstamped(f: Format, d: Dir, m: Manifest, bytes: string)
    requires ReadManifest(f, d) == Good(m) && m.checksum == Words("") && m.entryPoint.Words?
    requires m.entryPoint.s in d && m.entryPoint.s != MANIFEST
    ensures Loads(f, d[m.entryPoint.s := bytes]) <==>
            m.enabled && !m.permissions.Refused? && f.importable(m.entryPoint.s)
  {
  }

  /** A plugin whose manifest names itself as the entry never passes its own stamp. */
  lemma {:induction false} SelfEntryRefused(f: Format, d: Dir)
    requires Faithful(f) && CollisionFree(f)
    requires ReadManifest(f, d).Good? && ReadManifest(f, d).m.entryPoint == Words(MANIFEST)
    ensures Loads(f, Stamped(f, d)) ==> Stamped(f, d) == d
  {
    var m := ReadManifest(f, d).m;
    var stamped := m.(checksum := Words(SHA + f.digest(d[MANIFEST])),
                      permissions := if m.permissions.Absent? then Accepted else m.permissions);
    assert ReadManifest(f, Stamped(f, d)) == Good(stamped);
    assert stamped.checksum.s[|SHA|..] == f.digest(d[MANIFEST]);
  }
}
