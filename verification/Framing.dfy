/**
  Cutting the input stream into lines, whatever the chunks it arrives in and wherever a
  wait for more input runs out.
*/
module Framing {
  import opened Options
  import opened Text

  const NL: char := '\n'

  /** What the server can see of its input: a chunk of decoded text, or a silence longer than it would wait. */
  datatype Arrival = Chunk(text: string) | Silence

  /** All the text in a stream of arrivals; the stream ends with end of file. */
  function TextOf(input: seq<Arrival>): string
  {
    if input == [] then ""
    else (if input[0].Chunk? then input[0].text else "") + TextOf(input[1..])
  }

  /** How often the stream falls silent. */
  function Silences(input: seq<Arrival>): nat
  {
    if input == [] then 0 else (if input[0].Silence? then 1 else 0) + Silences(input[1..])
  }

  /** The lines of a text: its pieces between newlines, without the empty piece after a final newline. */
  function Lines(s: string): (lines: seq<string>)
    ensures |lines| <= |Split(s, NL)|
  {
    var parts := Split(s, NL);
    if parts[|parts| - 1] == "" then parts[..|parts| - 1] else parts
  }

  /** The lines still to be delivered. */
  function Pending(inbuf: string, input: seq<Arrival>): seq<string>
  {
    Lines(inbuf + TextOf(input))
  }

  lemma {:induction false} SplitLast(s: string, c: char)
    ensures |Split(s, c)| == 1 ==> Split(s, c) == [s]
    ensures |Split(s, c)| == 1 <==> Free(s, c)
  {
    if s != "" {
      SplitLast(s[1..], c);
      assert s == [s[0]] + s[1..];
    }
  }

  /** A text that starts with a whole line. */
  lemma {:induction false} LinesTakeOne(line: string, rest: string)
    requires '\n' !in line
    ensures Lines(line + ['\n'] + rest) == [line] + Lines(rest)
  {
    SplitAtSeparator(line, rest, NL);
    var whole, parts := Split(line + [NL] + rest, NL), Split(rest, NL);
    assert whole == [line] + parts;
    assert whole[|whole| - 1] == parts[|parts| - 1];
    assert whole[..|whole| - 1] == [line] + parts[..|parts| - 1];
  }

  /** A text without a newline is one line, unless it is empty. */
  lemma {:induction false} LinesOfPartial(s: string)
    requires Free(s, NL)
    ensures Lines(s) == if s == "" then [] else [s]
  {
    SplitOfFree(s, NL);
  }

  /** Only the empty text has no lines. */
  lemma {:induction false} NoLines(s: string)
    ensures Lines(s) == [] <==> s == ""
  {
    SplitLast(s, NL);
  }

  function IndexOf(s: string, c: char): (i: nat)
    requires c in s
    ensures i < |s| && s[i] == c && Free(s[..i], c)
  {
    if s[0] == c then 0 else IndexOf(s[1..], c) + 1
  }

  /** A text given back line by line, each with its newline. */
  function Unlines(lines: seq<string>): string
  {
    if lines == [] then "" else lines[0] + [NL] + Unlines(lines[1..])
  }

  lemma {:induction false} UnlinesSnoc(lines: seq<string>, line: string)
    ensures Unlines(lines + [line]) == Unlines(lines) + line + [NL]
  {
    if lines != [] {
      assert (lines + [line])[1..] == lines[1..] + [line];
      UnlinesSnoc(lines[1..], line);
    } else {
      assert (lines + [line])[1..] == [];
    }
  }

  // ---- The reader ----

  class LineReader {
    var inbuf: string
    var input: seq<Arrival>
    ghost const arrivals: seq<Arrival> // all there is to read
    ghost const whole: string         // its text
    ghost var delivered: seq<string>  // the lines handed out so far
    ghost var partial: bool           // the last of them ended with the file and not with a newline

    constructor (input: seq<Arrival>)
      ensures this.input == input && inbuf == "" && delivered == [] && !partial && whole == TextOf(input)
      ensures arrivals == input && Valid()
    {
      this.input, inbuf, arrivals, whole := input, "", input, TextOf(input);
      delivered, partial := [], false;
    }

    /** Delivered lines, newlines restored, then the buffer, are the text read so far; the rest is still to come. */
    ghost predicate Valid()
      reads this
    {
      && |input| <= |arrivals| && input == arrivals[|arrivals| - |input|..]
      && (!partial ==> whole == Unlines(delivered) + (inbuf + TextOf(input)))
      && (partial ==> input == [] && inbuf == "" && delivered != []
                      && whole + [NL] == Unlines(delivered))
    }

    ghost function Rest(): seq<string>
      reads this
    {
      Pending(inbuf, input)
    }

    /** The last thing to arrive was a silence. */
    ghost predicate FellSilent()
      reads this
    {
      |input| < |arrivals| && arrivals[|arrivals| - |input| - 1].Silence?
    }

    /** Read on until a newline is buffered; stop at end of file, or at a silence when there is a limit. */
    method Fill(timed: bool) returns (ready: bool)
      requires |input| <= |arrivals| && input == arrivals[|arrivals| - |input|..]
      modifies `inbuf, `input
      ensures |input| <= |arrivals| && input == arrivals[|arrivals| - |input|..]
      ensures inbuf + TextOf(input) == old(inbuf + TextOf(input)) && |input| <= |old(input)|
      ensures partial && old(input) == [] ==> input == [] && inbuf == old(inbuf)
      ensures ready ==> NL in inbuf || input == []
      ensures !ready ==> timed && |input| < |old(input)| && FellSilent()
      ensures timed ==> Silences(old(input)) == Silences(input) + if ready then 0 else 1
    {
      while NL !in inbuf && input != []
        invariant inbuf + TextOf(input) == old(inbuf + TextOf(input)) && |input| <= |old(input)|
        invariant |input| <= |arrivals| && input == arrivals[|arrivals| - |input|..]
        invariant old(input) == [] ==> input == [] && inbuf == old(inbuf)
        invariant timed ==> Silences(old(input)) == Silences(input)
        decreases |input|
      {
        var next := input[0];
        input := input[1..];
        match next {
          case Silence =>
            if timed {
              assert "" + TextOf(input) == TextOf(input);
              return false;
            }
          case Chunk(text) =>
            inbuf := inbuf + text;
        }
      }
      return true;
    }

    /**
      _next_line: hand out the next pending line. Without a limit the only reason for none
      is that there is none; with one, a silence before a whole line arrived is another.
    */
    method NextLine(timed: bool) returns (line: Option<string>)
      requires Valid()
      modifies `inbuf, `input, `delivered, `partial
      ensures Valid() && |input| <= |old(input)|
      ensures line.Some? ==> delivered == old(delivered) + [line.value] && old(Rest()) == [line.value] + Rest()
      ensures line.None? ==> delivered == old(delivered) && old(Rest()) == Rest()
      ensures line.None? ==> AtEnd() || (timed && |input| < |old(input)| && FellSilent())
      ensures timed ==> Silences(old(input)) <= Silences(input) + if line.Some? then 0 else 1
    {
      var ready := Fill(timed);
      if !ready {
        return None;
      }
      if NL in inbuf {
        line := TakeLine();
      } else if inbuf != "" {
        LastLine(delivered, inbuf);
        line := Some(inbuf);
        inbuf := "";
        delivered := delivered + [line.value];
        partial := true;
      } else {
        line := None;
      }
    }

    /** Take the first whole line off the buffer. */
    method TakeLine() returns (line: Option<string>)
      requires Valid() && NL in inbuf
      modifies `inbuf, `delivered
      ensures Valid() && line.Some?
      ensures delivered == old(delivered) + [line.value] && old(Rest()) == [line.value] + Rest()
    {
      var i := IndexOf(inbuf, NL);
      TakeWhole(delivered, inbuf, input);
      line := Some(inbuf[..i]);
      inbuf := inbuf[i + 1..];
      delivered := delivered + [line.value];
    }

    ghost predicate AtEnd()
      reads this
    {
      input == [] && inbuf == ""
    }

    /**
      Any schedule of limited and unlimited reads, carried on to the end of the input,
      delivers the line split of the whole text, however it was cut into chunks.
    */
    method ReadAll(timed: nat -> bool) returns (lines: seq<string>)
      requires Valid()
      modifies this
      ensures Valid() && AtEnd()
      ensures lines == old(Rest())
    {
      hide Unlines, Lines, TextOf;
      lines := [];
      var n := 0;
      ghost var rest := Rest();
      while true
        invariant Valid() && rest == Rest()
        invariant old(Rest()) == lines + rest
        decreases |rest| + |input|
      {
        var line := NextLine(timed(n));
        n := n + 1;
        ghost var left := rest;
        rest := Rest();
        if line.Some? {
          assert lines + left == lines + [line.value] + rest;
          lines := lines + [line.value];
        } else if input == [] && inbuf == "" {
          NothingPending();
          return;
        }
      }
    }
  }

  lemma {:induction false} NothingPending()
    ensures Pending("", []) == []
  {
    NoLines("");
  }

  /** Taking the first whole line from the buffer. */
  lemma {:induction false} TakeWhole(delivered: seq<string>, inbuf: string, input: seq<Arrival>)
    requires NL in inbuf
    ensures var i := IndexOf(inbuf, NL);
            && Pending(inbuf, input) == [inbuf[..i]] + Pending(inbuf[i + 1..], input)
            && Unlines(delivered) + (inbuf + TextOf(input))
               == Unlines(delivered + [inbuf[..i]]) + (inbuf[i + 1..] + TextOf(input))
  {
    var i := IndexOf(inbuf, NL);
    assert inbuf == inbuf[..i] + [NL] + inbuf[i + 1..];
    TakeFirst(delivered, inbuf[..i], inbuf[i + 1..], TextOf(input));
  }

  lemma {:induction false} TakeFirst(delivered: seq<string>, first: string, buffered: string, more: string)
    requires Free(first, NL)
    ensures Lines(first + [NL] + buffered + more) == [first] + Lines(buffered + more)
    ensures Unlines(delivered) + (first + [NL] + buffered + more) == Unlines(delivered + [first]) + (buffered + more)
  {
    assert first + [NL] + buffered + more == first + [NL] + (buffered + more);
    LinesTakeOne(first, buffered + more);
    UnlinesSnoc(delivered, first);
    Reassociate(Unlines(delivered), first, buffered + more);
  }

  lemma {:induction false} Reassociate(a: string, first: string, rest: string)
    ensures a + (first + [NL] + rest) == a + first + [NL] + rest
  {
  }

  /** Taking what is left at the end of file, when no newline ends it. */
  lemma {:induction false} LastLine(delivered: seq<string>, last: string)
    requires Free(last, NL) && last != ""
    ensures Pending(last, []) == [last] && Pending("", []) == []
    ensures Unlines(delivered) + (last + TextOf([])) + [NL] == Unlines(delivered + [last])
  {
    assert last + TextOf([]) == last;
    LinesOfPartial(last);
    NothingPending();
    UnlinesSnoc(delivered, last);
  }

  /** Two streams with the same text have the same lines to deliver, wherever it is cut. */
  lemma {:induction false} ChunkIndependent(a: seq<Arrival>, b: seq<Arrival>, inbufA: string, inbufB: string)
    ensures inbufA + TextOf(a) == inbufB + TextOf(b) ==> Pending(inbufA, a) == Pending(inbufB, b)
    ensures Pending(inbufA, a) == Pending(inbufB, b) ==>
              Complete(inbufA + TextOf(a)) == Complete(inbufB + TextOf(b))
  {
    CompleteIsUnlines(inbufA + TextOf(a));
    CompleteIsUnlines(inbufB + TextOf(b));
  }

  /** The text with a newline put after its last line if that lacks one. */
  function Complete(s: string): string
  {
    if s == "" || s[|s| - 1] == NL then s else s + [NL]
  }

  /** The lines hold no newline, and give the text back up to a missing final newline. */
  lemma {:induction false} CompleteIsUnlines(s: string)
    ensures AllFree(Lines(s), NL)
    ensures Unlines(Lines(s)) == Complete(s)
  {
    var parts := Split(s, NL);
    var n := |parts| - 1;
    SplitIsFree(s, NL);
    JoinOfSplit(s, NL);
    JoinAsUnlines(parts);
    LastPiece(s);
    if parts[n] == "" {
      assert parts == parts[..n] + [""];
      UnlinesSnoc(parts[..n], "");
      assert s + [NL] == Unlines(parts[..n]) + "" + [NL];
      assert s == (s + [NL])[..|s|] == Unlines(parts[..n]);
    }
  }

  /** The last piece is empty just when the text is empty or ends with the separator. */
  lemma {:induction false} LastPiece(s: string)
    ensures var parts := Split(s, NL); parts[|parts| - 1] == "" <==> s == "" || s[|s| - 1] == NL
  {
    if s != "" {
      LastPiece(s[1..]);
    }
  }

  lemma {:induction false} JoinAsUnlines(parts: seq<string>)
    requires parts != []
    ensures Join(parts, NL) + [NL] == Unlines(parts)
  {
    if |parts| > 1 {
      JoinAsUnlines(parts[1..]);
    } else {
      assert parts[1..] == [];
    }
  }
}
