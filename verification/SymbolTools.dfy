/**
  The symbol-edit tools on a workspace of source files: replacing a symbol's span,
  inserting beside it, and renaming it at its definition, call sites and imports.
*/
module SymbolTools {
  import opened Options
  import opened Rename
  import opened SourceLines
  import opened Text

  // ---- Renaming within one file ----

  /**
    The replacement on one line, the recorded 1-based lines of the file in the order the
    set of them is visited in, and what counts as an import line.
  */
  datatype Renaming = Renaming(replace: string -> (string, nat), numbers: seq<int>, isImport: string -> bool)

  ghost predicate NoRepeats(numbers: seq<int>)
  {
    forall j, k :: 0 <= j < k < |numbers| ==> numbers[j] != numbers[k]
  }

  /** Line i is a recorded site or an import line, and holds the old word. */
  predicate Touched(lines: seq<string>, r: Renaming, i: int)
  {
    && 0 <= i < |lines| && (i + 1 in r.numbers || r.isImport(lines[i]))
    && r.replace(lines[i]).1 > 0
  }

  ghost function TouchedSet(lines: seq<string>, r: Renaming): (touched: set<int>)
    ensures forall i :: i in touched <==> Touched(lines, r, i)
  {
    set i | 0 <= i < |lines| && Touched(lines, r, i)
  }

  /** The file after the rename: exactly the touched lines are rewritten, each once. */
  function RenamedLines(lines: seq<string>, r: Renaming): seq<string>
  {
    seq(|lines|, i requires 0 <= i < |lines| => if Touched(lines, r, i) then r.replace(lines[i]).0 else lines[i])
  }

  /** One entry of the report: a line index and its hits. The tool adds one to the index when printing. */
  datatype Update = Update(idx: int, hits: nat)

  function Occurrences(updated: seq<Update>): nat
  {
    if updated == [] then 0 else Occurrences(updated[..|updated| - 1]) + updated[|updated| - 1].hits
  }

  ghost predicate Reported(updated: seq<Update>, i: int)
  {
    exists j :: 0 <= j < |updated| && updated[j].idx == i
  }

  /** The report lists exactly the lines in done, once each, with their hits. */
  ghost predicate Reports(lines: seq<string>, r: Renaming, updated: seq<Update>, done: set<int>)
  {
    && (forall i :: Reported(updated, i) <==> i in done)
    && (forall j :: 0 <= j < |updated| ==> HitsRight(lines, r, updated[j]))
    && (forall j, k :: 0 <= j < k < |updated| ==> updated[j].idx != updated[k].idx)
  }

  ghost predicate HitsRight(lines: seq<string>, r: Renaming, u: Update)
  {
    0 <= u.idx < |lines| && u.hits == r.replace(lines[u.idx]).1 && u.hits > 0
  }

  /** Exactly the lines in done have been rewritten and reported. */
  ghost predicate Progress(lines: seq<string>, r: Renaming, now: seq<string>, updated: seq<Update>, done: set<int>)
  {
    && |now| == |lines|
    && (forall i :: 0 <= i < |lines| ==> now[i] == if i in done then r.replace(lines[i]).0 else lines[i])
    && Reports(lines, r, updated, done)
  }

  lemma {:induction false} ProgressMore(lines: seq<string>, r: Renaming, now: seq<string>, updated: seq<Update>,
                                        done: set<int>, i: int)
    requires Progress(lines, r, now, updated, done)
    requires 0 <= i < |lines| && i !in done && r.replace(lines[i]).1 > 0
    ensures Progress(lines, r, now[i := r.replace(lines[i]).0],
                     updated + [Update(i, r.replace(lines[i]).1)], done + {i})
    ensures Occurrences(updated + [Update(i, r.replace(lines[i]).1)]) == Occurrences(updated) + r.replace(lines[i]).1
  {
    var more := updated + [Update(i, r.replace(lines[i]).1)];
    assert more[..|updated|] == updated;
    forall k
      ensures Reported(more, k) <==> Reported(updated, k) || k == i
    {
      if Reported(updated, k) {
        var j :| 0 <= j < |updated| && updated[j].idx == k;
        assert more[j].idx == k;
      }
      assert more[|updated|].idx == i;
    }
    assert !Reported(updated, i);
  }

  /** Rewrite line idx if it holds the old word. */
  method RenameLine(ghost was: seq<string>, lines: array<string>, r: Renaming, idx: nat, updated: seq<Update>,
                    fileHits: nat, ghost done: set<int>) returns (updated': seq<Update>, fileHits': nat, hit: bool)
    requires idx < lines.Length && Progress(was, r, lines[..], updated, done) && idx !in done
    requires fileHits == Occurrences(updated)
    modifies lines
    ensures hit <==> r.replace(was[idx]).1 > 0
    ensures Progress(was, r, lines[..], updated', if hit then done + {idx} else done)
    ensures fileHits' == Occurrences(updated')
  {
    updated', fileHits' := updated, fileHits;
    assert lines[idx] == lines[..][idx] == was[idx];
    var (text, hits) := r.replace(lines[idx]);
    hit := hits > 0;
    if hit {
      ProgressMore(was, r, lines[..], updated, done, idx);
      ghost var next := lines[..][idx := text];
      lines[idx] := text;
      assert lines[..] == next;
      fileHits' := fileHits + hits;
      updated' := updated + [Update(idx, hits)];
    }
  }

  /** The lines in done are the touched ones among the first k recorded sites. */
  ghost predicate SitesDone(was: seq<string>, r: Renaming, k: nat, done: set<int>)
    requires k <= |r.numbers|
  {
    forall i :: i in done <==> Touched(was, r, i) && i + 1 in r.numbers[..k]
  }

  lemma {:induction false} SiteStep(was: seq<string>, r: Renaming, k: nat, done: set<int>)
    requires k < |r.numbers| && NoRepeats(r.numbers) && SitesDone(was, r, k, done)
    ensures var idx := r.numbers[k] - 1;
            idx !in done && SitesDone(was, r, k + 1, if Touched(was, r, idx) then done + {idx} else done)
  {
    assert r.numbers[..k + 1] == r.numbers[..k] + [r.numbers[k]];
  }

  /** The first loop: the recorded sites. */
  method RenameSites(lines: array<string>, r: Renaming)
    returns (updated: seq<Update>, fileHits: nat, rewrittenIdxs: set<int>)
    requires NoRepeats(r.numbers)
    modifies lines
    ensures Progress(old(lines[..]), r, lines[..], updated, rewrittenIdxs) && fileHits == Occurrences(updated)
    ensures forall i :: i in rewrittenIdxs <==> Touched(old(lines[..]), r, i) && i + 1 in r.numbers
  {
    assert Progress(lines[..], r, lines[..], [], {}) && Occurrences([]) == 0;
    updated, fileHits, rewrittenIdxs := [], 0, {};
    hide Progress, Occurrences;
    for k := 0 to |r.numbers|
      invariant Progress(old(lines[..]), r, lines[..], updated, rewrittenIdxs) && fileHits == Occurrences(updated)
      invariant SitesDone(old(lines[..]), r, k, rewrittenIdxs)
    {
      var idx := r.numbers[k] - 1;
      SiteStep(old(lines[..]), r, k, rewrittenIdxs);
      if 0 <= idx < lines.Length {
        var hit;
        updated, fileHits, hit := RenameLine(old(lines[..]), lines, r, idx, updated, fileHits, rewrittenIdxs);
        if hit {
          rewrittenIdxs := rewrittenIdxs + {idx};
        }
      }
    }
    assert r.numbers[..|r.numbers|] == r.numbers;
  }

  /** The second loop: the import lines not yet rewritten. */
  method RenameImports(ghost was: seq<string>, lines: array<string>, r: Renaming, rewrittenIdxs: set<int>,
                       sites: seq<Update>, siteHits: nat) returns (updated: seq<Update>, fileHits: nat)
    requires Progress(was, r, lines[..], sites, rewrittenIdxs) && siteHits == Occurrences(sites)
    requires forall i :: i in rewrittenIdxs <==> Touched(was, r, i) && i + 1 in r.numbers
    modifies lines
    ensures Progress(was, r, lines[..], updated, TouchedSet(was, r)) && fileHits == Occurrences(updated)
  {
    hide Reports, Occurrences;
    updated, fileHits := sites, siteHits;
    ghost var done := rewrittenIdxs;
    for idx := 0 to lines.Length
      invariant Progress(was, r, lines[..], updated, done) && fileHits == Occurrences(updated)
      invariant forall i :: i in done <==> Touched(was, r, i) && (i in rewrittenIdxs || i < idx)
    {
      assert lines[idx] == lines[..][idx];
      if idx in rewrittenIdxs || !r.isImport(lines[idx]) {
        continue;
      }
      var hit;
      updated, fileHits, hit := RenameLine(was, lines, r, idx, updated, fileHits, done);
      done := if hit then done + {idx} else done;
    }
    assert done == TouchedSet(was, r);
  }

  /** Renaming in one file's lines. */
  method RenameInLines(lines: array<string>, r: Renaming) returns (updated: seq<Update>, fileHits: nat)
    requires NoRepeats(r.numbers)
    modifies lines
    ensures lines[..] == RenamedLines(old(lines[..]), r)
    ensures Reports(old(lines[..]), r, updated, TouchedSet(old(lines[..]), r))
    ensures fileHits == Occurrences(updated)
  {
    var sites, siteHits, rewrittenIdxs := RenameSites(lines, r);
    updated, fileHits := RenameImports(old(lines[..]), lines, r, rewrittenIdxs, sites, siteHits);
  }

  // ---- Whole files ----

  /** What the rename leaves in a file. */
  function RenamedText(text: string, r: Renaming): string
  {
    var (lines, trailing) := SplitLines(text);
    if RenamedLines(lines, r) == lines then text else JoinLines(RenamedLines(lines, r), trailing)
  }

  /** The replacement the tool makes: one identifier by another, as whole words. */
  function ByIdentifier(oldName: string, newName: string): string -> (string, nat)
    requires oldName != ""
  {
    (line: string) => ReplaceIdentifier(line, oldName, newName)
  }

  /**
    Read back, a renamed file has the renamed lines and the trailing-newline flag it had:
    no line is gained, lost or shifted.
  */
  lemma {:induction false} RenameKeepsLines(text: string, oldName: string, newName: string, r: Renaming)
    requires IsWord(oldName) && newName != "" && NL !in newName && r.replace == ByIdentifier(oldName, newName)
    ensures var (lines, trailing) := SplitLines(text);
            SplitLines(RenamedText(text, r)) == (RenamedLines(lines, r), trailing)
  {
    var (lines, trailing) := SplitLines(text);
    var after := RenamedLines(lines, r);
    SplitLinesFree(text);
    ReadIsCanonical(text);
    if after != lines {
      forall i | 0 <= i < |lines|
        ensures Free(after[i], NL) && (after[i] == "" <==> lines[i] == "")
      {
        RewriteShape(lines[i], oldName, newName);
      }
      assert lines != [] && text != [NL];
      SplitInvertsJoin(after, trailing);
    }
  }

  /** Where the graph has a symbol: its file and its 1-based inclusive span. */
  datatype Node = Node(path: string, line: int, endLine: int)

  datatype EditResult =
    | Edited(applied: bool, first: int, last: int)
    | Denied | MissingText | NotFound | Unreadable | OutOfRange | BadSyntax | Raised

  datatype WriteResult = Rewritten | Same | Refused

  /** What replacing the node's span makes of a text. */
  function ReplacedText(text: string, node: Node, body: string): string
    requires SpanFits(text, node)
  {
    var (lines, trailing) := SplitLines(text);
    JoinLines(Splice(lines, node.line - 1, node.endLine, SplitLines(body).0), trailing)
  }

  predicate SpanFits(text: string, node: Node)
  {
    0 <= node.line - 1 < node.endLine <= |SplitLines(text).0|
  }

  /** Where an insert goes: beside the span, but within the file. */
  function InsertAt(lines: seq<string>, node: Node, after: bool): (at: nat)
    ensures at <= |lines|
  {
    var at := if after then node.endLine else node.line - 1;
    if at < 0 then 0 else if at > |lines| then |lines| else at
  }

  /** The lines with the block beside the node's span. */
  function InsertedLines(text: string, node: Node, after: bool, content: string): seq<string>
  {
    var lines := SplitLines(text).0;
    var at := InsertAt(lines, node, after);
    Splice(lines, at, at, SplitLines(content).0)
  }

  /**
    Where a block belongs beside a symbol, and the 1-based line it begins at: after the
    span's last line or before its first, and at the end or the start of a file that does
    not reach there.
  */
  ghost function Beside(lines: seq<string>, n: Node, after: bool, block: seq<string>): (seq<string>, int)
  {
    if after then
      if n.endLine > |lines| then (lines + block, |lines| + 1)
      else if n.endLine < 0 then (block + lines, 1)
      else (lines[..n.endLine] + block + lines[n.endLine..], n.endLine + 1)
    else
      if n.line > |lines| then (lines + block, |lines| + 1)
      else if n.line < 1 then (block + lines, 1)
      else (lines[..n.line - 1] + block + lines[n.line - 1..], n.line)
  }

  lemma {:induction false} InsertedBeside(text: string, n: Node, after: bool, content: string)
    ensures var (lines, trailing) := SplitLines(text);
            Beside(lines, n, after, SplitLines(content).0)
            == (InsertedLines(text, n, after, content), InsertAt(lines, n, after) + 1)
  {
    var (lines, trailing) := SplitLines(text);
    var block := SplitLines(content).0;
    assert lines[..|lines|] == lines && lines[|lines|..] == [] && lines[..0] == [] && lines[0..] == lines;
    assert lines[..|lines|] + block + lines[|lines|..] == lines + block;
    assert lines[..0] + block + lines[0..] == block + lines;
  }

  /** A target that cannot be renamed: a symbolic link with something to rewrite in it. */
  ghost predicate Blocked(files: map<string, string>, links: set<string>, path: string, r: Renaming)
  {
    path in files && path in links && TouchedSet(SplitLines(files[path]).0, r) != {}
  }

  class Workspace {
    var files: map<string, string>
    const links: set<string>        // the paths that are symbolic links

    constructor (files: map<string, string>, links: set<string>)
      ensures this.files == files && this.links == links
    {
      this.files, this.links := files, links;
    }

    /** _write_file_lines: refuse a symbolic link by raising, or report whether the text on disk changed. */
    method WriteLines(path: string, lines: seq<string>, trailing: bool) returns (result: WriteResult)
      modifies this
      ensures result.Refused? <==> path in links
      ensures files == if result.Refused? then old(files) else old(files)[path := JoinLines(lines, trailing)]
      ensures result.Rewritten? <==> files != old(files)
    {
      if path in links {
        return Refused;
      }
      var text := JoinLines(lines, trailing);
      if path in files && files[path] == text {
        assert files == files[path := text];
        return Same;
      }
      assert path in files[path := text];
      files := files[path := text];
      return Rewritten;
    }

    /**
      _handle_replace_symbol_body, given whether approval is missing and where the symbol
      resolves to: the file is written only with that span replaced and only if the result
      parses; in every other case nothing is.
    */
    method ReplaceSymbolBody(denied: bool, body: Option<string>, node: Option<Node>, parses: (string, string) -> bool)
      returns (result: EditResult)
      modifies this
      ensures result.Denied? <==> denied
      ensures result.MissingText? <==> !denied && body.None?
      ensures result.NotFound? <==> !denied && body.Some? && node.None?
      ensures !result.Edited? ==> files == old(files)
      ensures !denied && body.Some? && node.Some? ==>
                var n := node.value;
                if n.path !in old(files) then result.Unreadable?
                else if !SpanFits(old(files)[n.path], n) then result.OutOfRange?
                else
                  var text := ReplacedText(old(files)[n.path], n, body.value);
                  if !parses(n.path, text) then result.BadSyntax?
                  else if n.path in links then result.Raised?
                  else files == old(files)[n.path := text] && result == Edited(files != old(files), n.line, n.endLine)
      ensures result.Edited? ==>
                && body.Some? && node.Some? && node.value.path in old(files) && node.value.path in files
                && var n := node.value;
                   var (lines, trailing) := SplitLines(old(files)[n.path]);
                   && 1 <= n.line <= n.endLine <= |lines|
                   && files[n.path] ==
                      JoinLines(lines[..n.line - 1] + SplitLines(body.value).0 + lines[n.endLine..], trailing)
    {
      if denied {
        return Denied;
      }
      if body.None? {
        return MissingText;
      }
      if node.None? {
        return NotFound;
      }
      var Node(path, line, endLine) := node.value;
      if path !in files {
        return Unreadable;
      }
      var (lines, trailing) := SplitLines(files[path]);
      var start, end := line - 1, endLine;
      if start < 0 || end > |lines| || start >= end {
        return OutOfRange;
      }
      var replacement := SplitLines(body.value).0;
      var newLines := lines[..start] + replacement + lines[end..];
      if !parses(path, JoinLines(newLines, trailing)) {
        return BadSyntax;
      }
      var written := WriteLines(path, newLines, trailing);
      return if written.Refused? then Raised else Edited(written.Rewritten?, line, endLine);
    }

    /** _insert_relative_to_symbol, given the same. */
    method InsertBesideSymbol(denied: bool, content: Option<string>, node: Option<Node>, after: bool,
                              parses: (string, string) -> bool) returns (result: EditResult)
      modifies this
      ensures result.Denied? <==> denied
      ensures result.MissingText? <==> !denied && content.None?
      ensures result.NotFound? <==> !denied && content.Some? && node.None?
      ensures !result.Edited? ==> files == old(files)
      ensures !denied && content.Some? && node.Some? ==>
                var n := node.value;
                if n.path !in old(files) then result.Unreadable?
                else
                  var (lines, trailing) := SplitLines(old(files)[n.path]);
                  var block := SplitLines(content.value).0;
                  var (grown, first) := Beside(lines, n, after, block);
                  var text := JoinLines(grown, trailing);
                  if !parses(n.path, text) then result.BadSyntax?
                  else if n.path in links then result.Raised?
                  else files == old(files)[n.path := text]
                       && result == Edited(files != old(files), first, first - 1 + |block|)
      ensures result.Edited? ==>
                && content.Some? && node.Some? && node.value.path in old(files) && node.value.path in files
                && var n, text := node.value, files[node.value.path];
                   var (lines, trailing) := SplitLines(old(files)[n.path]);
                   var block := SplitLines(content.value).0;
                   1 <= n.line <= n.endLine <= |lines| ==>
                     if after then
                       && text == JoinLines(lines[..n.endLine] + block + lines[n.endLine..], trailing)
                       && result.first == n.endLine + 1
                     else
                       && text == JoinLines(lines[..n.line - 1] + block + lines[n.line - 1..], trailing)
                       && result.first == n.line
      ensures result.Edited? ==>
                && content.Some? && node.Some? && node.value.path in old(files) && node.value.path in files
                && var was := old(files)[node.value.path];
                   var (lines, trailing) := SplitLines(was);
                   DeletesTo(files[node.value.path], result.first, result.last, lines, trailing)
                   <==> Canonical(Beside(lines, node.value, after, SplitLines(content.value).0).0, trailing)
    {
      hide SplitLines, JoinLines, Canonical, DeletesTo;
      if denied {
        return Denied;
      }
      if content.None? {
        return MissingText;
      }
      if node.None? {
        return NotFound;
      }
      var path := node.value.path;
      if path !in files {
        return Unreadable;
      }
      var (lines, trailing) := SplitLines(files[path]);
      var insertAt := InsertAt(lines, node.value, after);
      var block := SplitLines(content.value).0;
      var newLines := lines[..insertAt] + block + lines[insertAt..];
      assert newLines == InsertedLines(files[path], node.value, after, content.value);
      InsertedBeside(files[path], node.value, after, content.value);
      SplitLinesFree(content.value);
      InsertThenDelete(files[path], insertAt, block);
      if !parses(path, JoinLines(newLines, trailing)) {
        return BadSyntax;
      }
      var written := WriteLines(path, newLines, trailing);
      return if written.Refused? then Raised else Edited(written.Rewritten?, insertAt + 1, insertAt + |block|);
    }

    /**
      _handle_rename_symbol, from the collected targets on. It raises exactly if some target
      is a symbolic link with something to rewrite; then some of the other targets may have
      been renamed already. Otherwise every readable target file gets its renamed text, every
      other file is untouched, and the report lists exactly the touched lines of those files
      with their hits.
    */
    method RenameSymbol(targets: map<string, Renaming>)
      returns (updated: map<string, seq<Update>>, filesTouched: nat, raised: bool)
      requires forall path :: path in targets ==> NoRepeats(targets[path].numbers)
      modifies this
      ensures raised <==> exists path :: path in targets && Blocked(old(files), links, path, targets[path])
      ensures !raised ==> Mapped(old(files), files, targets, RenamedText)
      ensures !raised ==> Related(old(files), targets, updated, FileReports)
      ensures !raised ==> filesTouched == |Changed(old(files), files)|
      ensures raised ==>
                exists done :: done <= targets.Keys
                               && Mapped(old(files), files, Without(targets, targets.Keys - done), RenamedText)
                               && forall path :: path in done ==> !Blocked(old(files), links, path, targets[path])
    {
      ghost var before := files;
      ghost var left;
      updated, filesTouched, raised, left := RenameTargets(targets);
      RenamedMeans(before, files, Without(targets, left), updated, filesTouched);
      hide Mapped, Related, Blocked, Changed;
      if raised {
        assert left == targets.Keys - (targets.Keys - left);
      } else {
        assert Without(targets, left) == targets;
      }
    }

    /** The loop over the target files, in any order; left are those it has not come to when it ends. */
    method RenameTargets(targets: map<string, Renaming>)
      returns (updated: map<string, seq<Update>>, filesTouched: nat, raised: bool, ghost left: set<string>)
      requires forall path :: path in targets ==> NoRepeats(targets[path].numbers)
      modifies this
      ensures left <= targets.Keys && (!raised ==> left == {})
      ensures RenamedSoFar(old(files), files, Without(targets, left), updated, filesTouched)
      ensures forall path :: path in targets && path !in left ==> !Blocked(old(files), links, path, targets[path])
      ensures raised ==> exists path :: path in left && Blocked(old(files), links, path, targets[path])
    {
      updated, filesTouched, raised := map[], 0, false;
      var todo := targets.Keys;
      ghost var before := files;
      RenamedNone(before);
      assert Without(targets, todo) == map[];
      hide RenamedSoFar, Blocked;
      while todo != {}
        invariant todo <= targets.Keys
        invariant RenamedSoFar(before, files, Without(targets, todo), updated, filesTouched)
        invariant forall path :: path in targets && path !in todo ==> !Blocked(before, links, path, targets[path])
        decreases todo
      {
        var path :| path in todo;
        left := todo;
        todo := todo - {path};
        WithoutOne(targets, left, path);
        updated, filesTouched, raised :=
          RenameTarget(before, Without(targets, left), path, targets[path], updated, filesTouched);
        if raised {
          return;
        }
      }
      left := {};
      return updated, filesTouched, false, left;
    }

    /** One round of the rename loop on the whole state; a file that cannot be read is passed over. */
    method RenameTarget(ghost before: map<string, string>, ghost done: map<string, Renaming>, path: string, r: Renaming,
                        updated: map<string, seq<Update>>, touched: nat)
      returns (updated': map<string, seq<Update>>, touched': nat, refused: bool)
      requires RenamedSoFar(before, files, done, updated, touched) && path !in done && NoRepeats(r.numbers)
      modifies this
      ensures refused <==> Blocked(before, links, path, r)
      ensures refused ==> files == old(files) && updated' == updated && touched' == touched
      ensures !refused ==> RenamedSoFar(before, files, done[path := r], updated', touched')
    {
      hide RenamedText, FileReports, SplitLines;
      updated', touched', refused := updated, touched, false;
      if path in files {
        ghost var was := files;
        var report, written;
        report, written, refused := RenameFile(path, r);
        if refused {
          return;
        }
        MapOneMore(before, was, done, RenamedText, path, r);
        RelateOneMore(before, done, updated, FileReports, path, r, report);
        updated' := updated[path := report];
        touched' := touched + if written then 1 else 0;
      } else {
        MapNoFile(before, files, done, RenamedText, path, r);
        RelateNoFile(before, done, updated, FileReports, path, r);
      }
    }

    /** One round of the rename loop: read the file, rename in its lines, write it back if there were hits. */
    method RenameFile(path: string, r: Renaming) returns (report: seq<Update>, written: bool, refused: bool)
      requires path in files && NoRepeats(r.numbers)
      modifies this
      ensures refused <==> Blocked(old(files), links, path, r)
      ensures files == if refused then old(files) else old(files)[path := RenamedText(old(files)[path], r)]
      ensures FileReports(old(files)[path], r, report)
      ensures written <==> files[path] != old(files)[path]
    {
      var (lines, trailing) := SplitLines(files[path]);
      var buffer := new string[|lines|](i requires 0 <= i < |lines| => lines[i]);
      assert buffer[..] == lines;
      var fileHits;
      report, fileHits := RenameInLines(buffer, r);
      HitsMeanTouched(lines, r, report);
      written, refused := false, false;
      assert files == files[path := files[path]];
      if fileHits > 0 {
        RejoinUnchanged(files[path], r);
        var result := WriteLines(path, buffer[..], trailing);
        written, refused := result.Rewritten?, result.Refused?;
      }
    }
  }

  /** The targets in done have been renamed, reported and counted, and nothing else has changed. */
  ghost predicate RenamedSoFar(before: map<string, string>, now: map<string, string>, done: map<string, Renaming>,
                               updated: map<string, seq<Update>>, touched: nat)
  {
    && Mapped(before, now, done, RenamedText) && Related(before, done, updated, FileReports)
    && touched == |Changed(before, now)|
  }

  lemma {:induction false} RenamedNone(files: map<string, string>)
    ensures RenamedSoFar(files, files, map[], map[], 0)
  {
    assert Changed(files, files) == {};
  }

  lemma {:induction false} RenamedMeans(before: map<string, string>, now: map<string, string>,
                                        done: map<string, Renaming>, updated: map<string, seq<Update>>, touched: nat)
    requires RenamedSoFar(before, now, done, updated, touched)
    ensures Mapped(before, now, done, RenamedText) && Related(before, done, updated, FileReports)
    ensures touched == |Changed(before, now)|
  {
  }

  /** The targets already visited. */
  ghost function Without<R>(targets: map<string, R>, todo: set<string>): map<string, R>
  {
    map path | path in targets && path !in todo :: targets[path]
  }

  lemma {:induction false} WithoutOne<R>(targets: map<string, R>, todo: set<string>, path: string)
    requires path in targets && path in todo
    ensures Without(targets, todo - {path}) == Without(targets, todo)[path := targets[path]]
    ensures path !in Without(targets, todo)
  {
  }

  /** What a tool with targets makes of the files: f changes the text of each target, the rest stay. */
  ghost predicate Mapped<R>(before: map<string, string>, after: map<string, string>, targets: map<string, R>,
                            f: (string, R) -> string)
  {
    && after.Keys == before.Keys
    && forall path :: path in after ==>
                        after[path] == if path in targets then f(before[path], targets[path]) else before[path]
  }

  /** For every target file that could be read, and no other, there is a report as g asks. */
  ghost predicate Related<R, U>(before: map<string, string>, targets: map<string, R>, updated: map<string, U>,
                                g: (string, R, U) -> bool)
  {
    && updated.Keys == targets.Keys * before.Keys
    && forall path :: path in updated ==> g(before[path], targets[path], updated[path])
  }

  lemma {:induction false} MapOneMore<R>(before: map<string, string>, now: map<string, string>, done: map<string, R>,
                                         f: (string, R) -> string, path: string, r: R)
    requires Mapped(before, now, done, f) && path in now && path !in done
    ensures now[path] == before[path]
    ensures var after := now[path := f(now[path], r)];
            && Mapped(before, after, done[path := r], f)
            && |Changed(before, after)| == |Changed(before, now)| + if after[path] != now[path] then 1 else 0
  {
    ChangedOne(before, now, path, f(now[path], r));
  }

  lemma {:induction false} RelateOneMore<R, U>(before: map<string, string>, done: map<string, R>,
                                               updated: map<string, U>,
                                               g: (string, R, U) -> bool, path: string, r: R, report: U)
    requires Related(before, done, updated, g) && path in before && path !in done && g(before[path], r, report)
    ensures Related(before, done[path := r], updated[path := report], g)
  {
    assert updated[path := report].Keys == done[path := r].Keys * before.Keys;
  }

  lemma {:induction false} MapNoFile<R>(before: map<string, string>, now: map<string, string>, done: map<string, R>,
                                        f: (string, R) -> string, path: string, r: R)
    requires Mapped(before, now, done, f) && path !in now
    ensures Mapped(before, now, done[path := r], f)
  {
  }

  lemma {:induction false} RelateNoFile<R, U>(before: map<string, string>, done: map<string, R>,
                                              updated: map<string, U>,
                                              g: (string, R, U) -> bool, path: string, r: R)
    requires Related(before, done, updated, g) && path !in before
    ensures Related(before, done[path := r], updated, g)
  {
    assert updated.Keys == done[path := r].Keys * before.Keys;
  }

  ghost predicate FileReports(text: string, r: Renaming, report: seq<Update>)
  {
    var lines := SplitLines(text).0;
    Reports(lines, r, report, TouchedSet(lines, r))
  }

  ghost function Changed(before: map<string, string>, after: map<string, string>): set<string>
  {
    set path | path in after && path in before && after[path] != before[path]
  }

  lemma {:induction false} ChangedOne(before: map<string, string>, was: map<string, string>, path: string, text: string)
    requires path in before && path in was && was[path] == before[path]
    ensures |Changed(before, was[path := text])| == |Changed(before, was)| + if text != was[path] then 1 else 0
  {
    var now := was[path := text];
    if text != was[path] {
      assert Changed(before, now) == Changed(before, was) + {path};
    } else {
      assert Changed(before, now) == Changed(before, was);
    }
  }

  /** No hits, no change. */
  lemma {:induction false} HitsMeanTouched(lines: seq<string>, r: Renaming, report: seq<Update>)
    requires Reports(lines, r, report, TouchedSet(lines, r))
    ensures Occurrences(report) == 0 ==> RenamedLines(lines, r) == lines
    ensures Occurrences(report) > 0 ==> lines != []
    ensures Occurrences(report) > 0 <==> TouchedSet(lines, r) != {}
  {
    OccurrencesPositive(lines, r, report);
    if report == [] {
      forall i | 0 <= i < |lines|
        ensures !Touched(lines, r, i)
      {
        assert !Reported(report, i);
      }
    } else {
      assert HitsRight(lines, r, report[0]);
      assert Reported(report, report[0].idx);
    }
  }

  lemma {:induction false} OccurrencesPositive(lines: seq<string>, r: Renaming, report: seq<Update>)
    requires forall j :: 0 <= j < |report| ==> HitsRight(lines, r, report[j])
    ensures Occurrences(report) > 0 <==> report != []
  {
    if report != [] {
      OccurrencesPositive(lines, r, report[..|report| - 1]);
    }
  }

  /** Writing back unchanged lines writes the text that was there, if there are any lines. */
  lemma {:induction false} RejoinUnchanged(text: string, r: Renaming)
    requires SplitLines(text).0 != []
    ensures var (lines, trailing) := SplitLines(text);
            RenamedText(text, r) == JoinLines(RenamedLines(lines, r), trailing)
  {
    JoinInvertsSplit(text);
  }
}
