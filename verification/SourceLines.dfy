/**
  Source text as lines plus a trailing-newline flag, the form in which the symbol-edit
  tools read and write files.
*/
module SourceLines {
  import opened Text

  const NL: char := '\n'

  predicate EndsWithNewline(text: string)
  {
    text != "" && text[|text| - 1] == NL
  }

  function Body(text: string): string
  {
    if EndsWithNewline(text) then text[..|text| - 1] else text
  }

  /** _split_lines */
  function SplitLines(text: string): (seq<string>, bool)
  {
    (if Body(text) == "" then [] else Split(Body(text), NL), EndsWithNewline(text))
  }

  /** _join_lines */
  function JoinLines(lines: seq<string>, trailing: bool): string
  {
    var text := Join(lines, NL);
    if trailing && (text != "" || lines != []) then text + [NL] else text
  }

  /** No lines give the empty text; otherwise the flag adds one newline at the end, an empty last line included. */
  lemma {:induction false} FlagAddsNewline(lines: seq<string>, trailing: bool)
    ensures JoinLines([], trailing) == ""
    ensures JoinLines(lines, false) == Join(lines, '\n')
    ensures lines != [] ==> JoinLines(lines, true) == Join(lines, '\n') + ['\n']
  {
  }

  lemma {:induction false} SplitLinesFree(text: string)
    ensures AllFree(SplitLines(text).0, '\n')
  {
    SplitIsFree(Body(text), NL);
  }

  /** Joining inverts splitting on every text but one: the lone newline. */
  lemma {:induction false} JoinInvertsSplit(text: string)
    ensures var (lines, trailing) := SplitLines(text); JoinLines(lines, trailing) == text <==> text != [NL]
  {
    var body := Body(text);
    JoinOfSplit(body, NL);
    if EndsWithNewline(text) {
      assert text == body + [NL];
    } else {
      assert text == body;
    }
  }

  /** The pairs that some text splits into, the lone newline aside. */
  predicate Canonical(lines: seq<string>, trailing: bool)
  {
    if lines == [] then !trailing
    else lines != [""] && (trailing || lines[|lines| - 1] != "")
  }

  lemma {:induction false} JoinEnd(lines: seq<string>)
    requires lines != [] && AllFree(lines, NL)
    ensures Join(lines, NL) == "" <==> lines == [""]
    ensures Join(lines, NL) != "" ==>
              (Join(lines, NL)[|Join(lines, NL)| - 1] == NL <==> lines[|lines| - 1] == "")
  {
    if |lines| > 1 {
      JoinEnd(lines[1..]);
    }
  }

  /** Splitting inverts joining exactly on the canonical pairs. */
  lemma {:induction false} SplitInvertsJoin(lines: seq<string>, trailing: bool)
    requires AllFree(lines, NL)
    ensures SplitLines(JoinLines(lines, trailing)) == (lines, trailing) <==> Canonical(lines, trailing)
  {
    if lines != [] {
      var text := Join(lines, NL);
      SplitOfJoin(lines, NL);
      JoinEnd(lines);
      if trailing {
        assert (text + [NL])[..|text|] == text;
      }
    }
  }

  /** What is read from a file is canonical, the lone newline aside. */
  lemma {:induction false} ReadIsCanonical(text: string)
    ensures var (lines, trailing) := SplitLines(text); Canonical(lines, trailing) <==> text != [NL]
  {
    var (lines, trailing) := SplitLines(text);
    JoinInvertsSplit(text);
    SplitLinesFree(text);
    SplitInvertsJoin(lines, trailing);
  }

  // ---- Splices ----

  /** lines with the span from start up to end replaced. */
  function Splice(lines: seq<string>, start: nat, end: nat, block: seq<string>): seq<string>
    requires start <= end <= |lines|
  {
    lines[..start] + block + lines[end..]
  }

  /** lines without the 1-based inclusive range. */
  function DeleteRange(lines: seq<string>, first: nat, last: nat): seq<string>
    requires 1 <= first && first - 1 <= last <= |lines|
  {
    lines[..first - 1] + lines[last..]
  }

  /** Every line outside a replaced span is still there, the later ones shifted. */
  lemma {:induction false} SpliceKeepsOutside(lines: seq<string>, start: nat, end: nat, block: seq<string>)
    requires start <= end <= |lines|
    ensures var after := Splice(lines, start, end, block);
            && (forall i :: 0 <= i < start ==> after[i] == lines[i])
            && (forall i {:trigger lines[i]} :: end <= i < |lines| ==> after[i + |block| - (end - start)] == lines[i])
            && after[start..start + |block|] == block
            && |after| == |lines| + |block| - (end - start)
  {
  }

  /** Read from the text, and with the 1-based range deleted, these are the lines and the flag. */
  predicate DeletesTo(text: string, first: int, last: int, lines: seq<string>, trailing: bool)
  {
    var (again, flag) := SplitLines(text);
    1 <= first && first - 1 <= last <= |again| && DeleteRange(again, first, last) == lines && flag == trailing
  }

  /**
    Inserting a block, writing the file, reading it again and deleting the range reported
    gives the lines and the flag back exactly when what was written is canonical.
  */
  lemma {:induction false} InsertThenDelete(text: string, at: nat, block: seq<string>)
    requires at <= |SplitLines(text).0| && AllFree(block, NL)
    ensures var (lines, trailing) := SplitLines(text); var longer := Splice(lines, at, at, block);
            DeletesTo(JoinLines(longer, trailing), at + 1, at + |block|, lines, trailing)
            <==> Canonical(longer, trailing)
  {
    var (lines, trailing) := SplitLines(text);
    var longer := Splice(lines, at, at, block);
    SplitLinesFree(text);
    SpliceFree(lines, at, block);
    SplitInvertsJoin(longer, trailing);
    assert DeleteRange(longer, at + 1, at + |block|) == lines;
    if !Canonical(longer, trailing) {
      NonCanonicalRead(longer, trailing);
    }
  }

  /** What is not canonical comes back with another flag, or as no lines at all in place of an empty one. */
  lemma {:induction false} NonCanonicalRead(lines: seq<string>, trailing: bool)
    requires AllFree(lines, NL) && !Canonical(lines, trailing)
    ensures var (again, flag) := SplitLines(JoinLines(lines, trailing));
            flag != trailing || (again == [] && lines == [""])
  {
    if lines != [] && lines != [""] {
      JoinEnd(lines);
    }
  }

  lemma {:induction false} SpliceFree(lines: seq<string>, at: nat, block: seq<string>)
    requires at <= |lines| && AllFree(lines, NL) && AllFree(block, NL)
    ensures AllFree(Splice(lines, at, at, block), NL)
  {
  }
}
