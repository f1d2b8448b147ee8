/**
  Whole-word replacement on one line: the left-to-right scan of _replace_identifier,
  and the map over word runs that it amounts to.
*/
module Rename {

  predicate WordChar(c: char)
  {
    'A' <= c <= 'Z' || 'a' <= c <= 'z' || '0' <= c <= '9' || c == '_'
  }

  /** The ASCII digits, letters and the underscore, by their codes, and nothing else. */
  lemma {:induction false} WordCharCodes(c: char)
    ensures WordChar(c) <==> c as int == 95 || 48 <= c as int < 58 || 65 <= c as int < 91 || 97 <= c as int < 123
  {
    assert '_' as int == 95 && '0' as int == 48 && 'A' as int == 65 && 'a' as int == 97;
  }

  /** A non-empty run of word characters. */
  predicate IsWord(s: string)
  {
    s != "" && forall i :: 0 <= i < |s| ==> WordChar(s[i])
  }

  /** old stands at position i with no word character on either side. */
  predicate MatchAt(line: string, oldName: string, i: nat)
  {
    && i + |oldName| <= |line| && line[i..i + |oldName|] == oldName
    && (i == 0 || !WordChar(line[i - 1]))
    && (i + |oldName| == |line| || !WordChar(line[i + |oldName|]))
  }

  /** The scan from position i on: the rewritten rest of the line and the number of matches. */
  function ReplaceFrom(line: string, oldName: string, newName: string, i: nat): (string, nat)
    requires oldName != "" && i <= |line|
    decreases |line| - i
  {
    if i == |line| then ("", 0)
    else if MatchAt(line, oldName, i) then
      var (rest, hits) := ReplaceFrom(line, oldName, newName, i + |oldName|);
      (newName + rest, hits + 1)
    else
      var (rest, hits) := ReplaceFrom(line, oldName, newName, i + 1);
      ([line[i]] + rest, hits)
  }

  /** _replace_identifier */
  function ReplaceIdentifier(line: string, oldName: string, newName: string): (string, nat)
    requires oldName != ""
  {
    ReplaceFrom(line, oldName, newName, 0)
  }

  // ---- The reference: a line as word runs and other characters ----

  datatype Token = Word(s: string) | Other(c: char)

  function RunLength(line: string): (n: nat)
    ensures n <= |line| && (forall i :: 0 <= i < n ==> WordChar(line[i])) && (n < |line| ==> !WordChar(line[n]))
  {
    if line == "" || !WordChar(line[0]) then 0 else 1 + RunLength(line[1..])
  }

  function Tokenize(line: string): seq<Token>
  {
    if line == "" then []
    else if WordChar(line[0]) then
      var n := RunLength(line);
      [Word(line[..n])] + Tokenize(line[n..])
    else [Other(line[0])] + Tokenize(line[1..])
  }

  function Flatten(ts: seq<Token>): string
  {
    if ts == [] then "" else (if ts[0].Word? then ts[0].s else [ts[0].c]) + Flatten(ts[1..])
  }

  function RenameToken(t: Token, oldName: string, newName: string): Token
  {
    if t == Word(oldName) then Word(newName) else t
  }

  function RenameTokens(ts: seq<Token>, oldName: string, newName: string): seq<Token>
  {
    seq(|ts|, i requires 0 <= i < |ts| => RenameToken(ts[i], oldName, newName))
  }

  function CountWord(ts: seq<Token>, w: string): nat
  {
    if ts == [] then 0 else (if ts[0] == Word(w) then 1 else 0) + CountWord(ts[1..], w)
  }

  // ---- The scan is the map ----

  /** Characters with no match at them are copied. */
  lemma {:induction false} ScanCopies(line: string, oldName: string, newName: string, i: nat, j: nat)
    requires oldName != "" && i <= j <= |line|
    requires forall k :: i <= k < j ==> !MatchAt(line, oldName, k)
    ensures var (rest, hits) := ReplaceFrom(line, oldName, newName, j);
            ReplaceFrom(line, oldName, newName, i) == (line[i..j] + rest, hits)
    decreases j - i
  {
    var (rest, hits) := ReplaceFrom(line, oldName, newName, j);
    if i < j {
      ScanCopies(line, oldName, newName, i + 1, j);
      assert line[i..j] + rest == [line[i]] + (line[i + 1..j] + rest);
    } else {
      assert line[i..j] + rest == rest;
    }
  }

  function TokenText(t: Token): string
  {
    if t.Word? then t.s else [t.c]
  }

  /** The text a list of tokens is renamed to, and the number of old words in it. */
  function Renamed(ts: seq<Token>, oldName: string, newName: string): (string, nat)
  {
    (Flatten(RenameTokens(ts, oldName, newName)), CountWord(ts, oldName))
  }

  lemma {:induction false} RenamedCons(t: Token, tail: seq<Token>, oldName: string, newName: string)
    ensures Renamed([t] + tail, oldName, newName) ==
            (TokenText(RenameToken(t, oldName, newName)) + Renamed(tail, oldName, newName).0,
             (if t == Word(oldName) then 1 else 0) + Renamed(tail, oldName, newName).1)
  {
    var ts := [t] + tail;
    assert ts[1..] == tail;
    assert RenameTokens(ts, oldName, newName)[1..] == RenameTokens(tail, oldName, newName);
  }

  /** From the start of a word run to its end. */
  lemma {:induction false} ScanRun(line: string, oldName: string, newName: string, i: nat, n: nat)
    requires IsWord(oldName) && 0 < n && i + n <= |line| && (i == 0 || !WordChar(line[i - 1]))
    requires forall k :: i <= k < i + n ==> WordChar(line[k])
    requires i + n < |line| ==> !WordChar(line[i + n])
    ensures var (rest, hits) := ReplaceFrom(line, oldName, newName, i + n);
            var w := line[i..i + n];
            ReplaceFrom(line, oldName, newName, i) ==
            (TokenText(RenameToken(Word(w), oldName, newName)) + rest, (if w == oldName then 1 else 0) + hits)
  {
    if line[i..i + n] == oldName {
      assert MatchAt(line, oldName, i);
    } else {
      NoMatchInRun(line, oldName, i, n);
      ScanCopies(line, oldName, newName, i, i + n);
    }
  }

  /** No word run goes on across position i. */
  ghost predicate Boundary(line: string, i: nat)
  {
    i == 0 || i >= |line| || !WordChar(line[i - 1]) || !WordChar(line[i])
  }

  /** The scan from position i on maps the tokens from there on. */
  ghost predicate ScansAsMap(line: string, oldName: string, newName: string, i: nat)
    requires oldName != "" && i <= |line|
  {
    ReplaceFrom(line, oldName, newName, i) == Renamed(Tokenize(line[i..]), oldName, newName)
  }

  /** Where the token at position i ends. */
  function TokenEnd(line: string, i: nat): (j: nat)
    requires i < |line|
    ensures i < j <= |line| && Boundary(line, j)
  {
    if WordChar(line[i]) then RunAt(line, i); i + RunLength(line[i..]) else i + 1
  }

  lemma {:induction false} ScanIsMap(line: string, oldName: string, newName: string, i: nat)
    requires IsWord(oldName) && i <= |line| && Boundary(line, i)
    ensures ScansAsMap(line, oldName, newName, i)
    decreases |line| - i
  {
    if i == |line| {
      assert line[i..] == "";
    } else {
      var j := TokenEnd(line, i);
      ScanIsMap(line, oldName, newName, j);
      ScanStep(line, oldName, newName, i, j);
    }
  }

  lemma {:induction false} ScanStep(line: string, oldName: string, newName: string, i: nat, j: nat)
    requires IsWord(oldName) && i < |line| && Boundary(line, i)
    requires j == TokenEnd(line, i) && ScansAsMap(line, oldName, newName, j)
    ensures ScansAsMap(line, oldName, newName, i)
  {
    hide ReplaceFrom, Tokenize, Renamed, RunLength;
    if WordChar(line[i]) {
      RunAt(line, i);
      TokenizeRun(line, i);
      PrependRun(line, oldName, newName, i, j - i, Tokenize(line[j..]));
    } else {
      TokenizeOther(line, i);
      PrependOther(line, oldName, newName, i, Tokenize(line[j..]));
    }
  }

  lemma {:induction false} PrependRun(line: string, oldName: string, newName: string, i: nat, n: nat, tail: seq<Token>)
    requires IsWord(oldName) && 0 < n && i + n <= |line| && (i == 0 || !WordChar(line[i - 1]))
    requires forall k :: i <= k < i + n ==> WordChar(line[k])
    requires i + n < |line| ==> !WordChar(line[i + n])
    requires ReplaceFrom(line, oldName, newName, i + n) == Renamed(tail, oldName, newName)
    ensures ReplaceFrom(line, oldName, newName, i) == Renamed([Word(line[i..i + n])] + tail, oldName, newName)
  {
    ScanRun(line, oldName, newName, i, n);
    RenamedCons(Word(line[i..i + n]), tail, oldName, newName);
  }

  lemma {:induction false} PrependOther(line: string, oldName: string, newName: string, i: nat, tail: seq<Token>)
    requires IsWord(oldName) && i < |line| && !WordChar(line[i])
    requires ReplaceFrom(line, oldName, newName, i + 1) == Renamed(tail, oldName, newName)
    ensures ReplaceFrom(line, oldName, newName, i) == Renamed([Other(line[i])] + tail, oldName, newName)
  {
    NoMatchAtOther(line, oldName, i);
    RenamedCons(Other(line[i]), tail, oldName, newName);
  }

  lemma {:induction false} TokenizeOther(line: string, i: nat)
    requires i < |line| && !WordChar(line[i])
    ensures Tokenize(line[i..]) == [Other(line[i])] + Tokenize(line[i + 1..])
  {
    assert line[i..][1..] == line[i + 1..];
  }

  /** The word run that starts at position i. */
  lemma {:induction false} RunAt(line: string, i: nat)
    requires i < |line| && WordChar(line[i])
    ensures var n := RunLength(line[i..]);
            && 0 < n && i + n <= |line| && (forall k :: i <= k < i + n ==> WordChar(line[k]))
            && (i + n < |line| ==> !WordChar(line[i + n]))
  {
    var rest := line[i..];
    var n := RunLength(rest);
    forall k | i <= k < i + n
      ensures WordChar(line[k])
    {
      assert line[k] == rest[k - i];
    }
    assert i + n < |line| ==> line[i + n] == rest[n];
  }

  /** It is the first token there. */
  lemma {:induction false} TokenizeRun(line: string, i: nat)
    requires i < |line| && WordChar(line[i])
    ensures var n := RunLength(line[i..]);
            i + n <= |line| && Tokenize(line[i..]) == [Word(line[i..i + n])] + Tokenize(line[i + n..])
  {
    var rest := line[i..];
    var n := RunLength(rest);
    TokenizeWord(rest);
    hide Tokenize, RunLength, WordChar;
    assert rest[..n] == line[i..i + n] && rest[n..] == line[i + n..];
  }

  lemma {:induction false} TokenizeWord(rest: string)
    requires rest != "" && WordChar(rest[0])
    ensures Tokenize(rest) == [Word(rest[..RunLength(rest)])] + Tokenize(rest[RunLength(rest)..])
  {
  }

  lemma {:induction false} NoMatchAtOther(line: string, oldName: string, i: nat)
    requires IsWord(oldName) && i < |line| && !WordChar(line[i])
    ensures !MatchAt(line, oldName, i)
  {
    assert i + |oldName| <= |line| ==> line[i..i + |oldName|][0] == line[i];
  }

  /** A maximal run that is not the old word holds no match. */
  lemma {:induction false} NoMatchInRun(line: string, oldName: string, i: nat, n: nat)
    requires IsWord(oldName) && i + n <= |line| && line[i..i + n] != oldName
    requires forall k :: i <= k < i + n ==> WordChar(line[k])
    requires i + n < |line| ==> !WordChar(line[i + n])
    ensures forall k :: i <= k < i + n ==> !MatchAt(line, oldName, k)
  {
    var m := |oldName|;
    assert i + m <= |line| && n < m ==> line[i..i + m][n] == line[i + n];
    assert i + m <= |line| && m == n ==> line[i..i + m] != oldName;
    assert m < n ==> WordChar(line[i + m]);
  }

  /** The scan equals mapping old to new over the line's word runs, and its count is the number of such runs. */
  lemma {:induction false} ReplaceIsTokenMap(line: string, oldName: string, newName: string)
    requires IsWord(oldName)
    ensures ReplaceIdentifier(line, oldName, newName) ==
            (Flatten(RenameTokens(Tokenize(line), oldName, newName)), CountWord(Tokenize(line), oldName))
  {
    ScanIsMap(line, oldName, newName, 0);
    assert line[0..] == line;
  }

  // ---- Undoing a rename ----

  /** Tokens as a line splits into them: words are runs, and no two words touch. */
  ghost predicate Proper(ts: seq<Token>)
  {
    && (forall i :: 0 <= i < |ts| ==> if ts[i].Word? then IsWord(ts[i].s) else !WordChar(ts[i].c))
    && (forall i :: 0 <= i < |ts| - 1 ==> ts[i].Word? ==> ts[i + 1].Other?)
  }

  lemma {:induction false} TokenizeProper(line: string)
    ensures Proper(Tokenize(line)) && Flatten(Tokenize(line)) == line
    ensures line != "" ==> Tokenize(line) != [] && (Tokenize(line)[0].Word? <==> WordChar(line[0]))
    decreases |line|
  {
    if line != "" {
      var n := if WordChar(line[0]) then RunLength(line) else 1;
      var rest := line[n..];
      TokenizeProper(rest);
      var t := if WordChar(line[0]) then Word(line[..n]) else Other(line[0]);
      assert Tokenize(line) == [t] + Tokenize(rest);
      assert rest != "" && WordChar(line[0]) ==> rest[0] == line[n];
      ProperCons(t, Tokenize(rest));
      assert line == line[..n] + rest;
    }
  }

  lemma {:induction false} ProperCons(t: Token, tail: seq<Token>)
    requires Proper(tail) && (if t.Word? then IsWord(t.s) else !WordChar(t.c))
    requires t.Word? && tail != [] ==> tail[0].Other?
    ensures Proper([t] + tail) && Flatten([t] + tail) == TokenText(t) + Flatten(tail)
  {
    assert ([t] + tail)[1..] == tail;
  }

  lemma {:induction false} RunAtStart(w: string, rest: string)
    requires IsWord(w) && (rest != "" ==> !WordChar(rest[0]))
    ensures RunLength(w + rest) == |w|
    decreases |w|
  {
    if |w| == 1 {
      assert (w + rest)[1..] == rest;
    } else {
      assert (w + rest)[1..] == w[1..] + rest;
      RunAtStart(w[1..], rest);
    }
  }

  lemma {:induction false} TokenizeOfFlatten(ts: seq<Token>)
    requires Proper(ts)
    ensures Tokenize(Flatten(ts)) == ts
    ensures ts != [] ==> Flatten(ts) != "" && (ts[0].Word? <==> WordChar(Flatten(ts)[0]))
  {
    if ts != [] {
      var tail := Flatten(ts[1..]);
      TokenizeOfFlatten(ts[1..]);
      if ts[0].Word? {
        assert WordChar(ts[0].s[0]);
        RunAtStart(ts[0].s, tail);
        assert (ts[0].s + tail)[..|ts[0].s|] == ts[0].s && (ts[0].s + tail)[|ts[0].s|..] == tail;
      } else {
        assert ([ts[0].c] + tail)[1..] == tail;
      }
    }
  }

  /** The tokens with every old word replaced by those of the new name. */
  function Substituted(ts: seq<Token>, oldName: string, name: seq<Token>): seq<Token>
  {
    if ts == [] then [] else (if ts[0] == Word(oldName) then name else [ts[0]]) + Substituted(ts[1..], oldName, name)
  }

  lemma {:induction false} Reassociate(a: string, b: string, c: string)
    ensures a + (b + c) == a + b + c
  {
  }

  lemma {:induction false} FlattenConcat(a: seq<Token>, b: seq<Token>)
    ensures Flatten(a + b) == Flatten(a) + Flatten(b)
  {
    if a == [] {
      assert a + b == b;
    } else {
      FlattenConcat(a[1..], b);
      assert (a + b)[1..] == a[1..] + b;
      Reassociate(TokenText(a[0]), Flatten(a[1..]), Flatten(b));
    }
  }

  /** Between other characters the tokens of the new name stay as they are. */
  lemma {:induction false} SubstitutedProper(ts: seq<Token>, oldName: string, newName: string)
    requires Proper(ts)
    ensures Proper(Substituted(ts, oldName, Tokenize(newName)))
    ensures ts != [] && ts[0].Other? ==>
              Substituted(ts, oldName, Tokenize(newName)) != []
              && Substituted(ts, oldName, Tokenize(newName))[0] == ts[0]
    ensures Flatten(Substituted(ts, oldName, Tokenize(newName))) == Flatten(RenameTokens(ts, oldName, newName))
  {
    if ts != [] {
      var t, rest, name := ts[0], ts[1..], Tokenize(newName);
      SubstitutedProper(rest, oldName, newName);
      TokenizeProper(newName);
      RenamedCons(t, rest, oldName, newName);
      assert [t] + rest == ts;
      var head := if t == Word(oldName) then name else [t];
      FlattenConcat(head, Substituted(rest, oldName, name));
      assert rest == [] ==> Substituted(rest, oldName, name) == [];
      ProperConcat(head, Substituted(rest, oldName, name));
      assert t != Word(oldName) ==> [t][1..] == [];
    }
  }

  lemma {:induction false} ProperConcat(a: seq<Token>, b: seq<Token>)
    requires Proper(a) && Proper(b) && (a != [] && a[|a| - 1].Word? && b != [] ==> b[0].Other?)
    ensures Proper(a + b)
  {
  }

  /** The words of the rewritten line are its words with those of the new name for each old one. */
  lemma {:induction false} WordsOfRenamed(line: string, oldName: string, newName: string)
    requires IsWord(oldName)
    ensures Tokenize(ReplaceIdentifier(line, oldName, newName).0)
            == Substituted(Tokenize(line), oldName, Tokenize(newName))
  {
    ReplaceIsTokenMap(line, oldName, newName);
    TokenizeProper(line);
    SubstitutedProper(Tokenize(line), oldName, newName);
    TokenizeOfFlatten(Substituted(Tokenize(line), oldName, Tokenize(newName)));
  }

  // ---- Renaming back ----

  /** The new name stands somewhere in a rewritten line, after pre, where no old word was replaced. */
  ghost predicate Stray(pre: string, ts: seq<Token>, oldName: string, newName: string)
    decreases |ts|
  {
    && ts != []
    && ((ts[0] != Word(oldName)
         && MatchWithin(pre + Flatten(RenameTokens(ts, oldName, newName)), newName, |pre|, |TokenText(ts[0])|))
        || Stray(pre + TokenText(RenameToken(ts[0], oldName, newName)), ts[1..], oldName, newName))
  }

  /** A match begins among the n characters from position i on. */
  ghost predicate MatchWithin(line: string, name: string, i: nat, n: nat)
  {
    exists k :: i <= k < i + n && MatchAt(line, name, k)
  }

  /** The first of them. */
  lemma {:induction false} FirstMatch(line: string, name: string, i: nat, n: nat) returns (k: nat)
    requires MatchWithin(line, name, i, n)
    ensures i <= k < i + n && MatchAt(line, name, k) && forall j :: i <= j < k ==> !MatchAt(line, name, j)
    decreases n
  {
    if MatchAt(line, name, i) {
      k := i;
    } else {
      k := FirstMatch(line, name, i + 1, n - 1);
    }
  }

  /** What comes before does not run into the first token. */
  predicate Apart(pre: string, ts: seq<Token>)
  {
    pre != "" && ts != [] && ts[0].Word? ==> !WordChar(pre[|pre| - 1])
  }

  /** Scanning back over the rewritten tokens, after pre, gives them back. */
  ghost predicate ComesBack(pre: string, ts: seq<Token>, oldName: string, newName: string)
    requires newName != ""
  {
    ReplaceFrom(pre + Flatten(RenameTokens(ts, oldName, newName)), newName, oldName, |pre|).0 == Flatten(ts)
  }

  /** It does exactly when there is no stray match. */
  lemma {:induction false} ScanBack(pre: string, ts: seq<Token>, oldName: string, newName: string)
    requires IsWord(oldName) && newName != "" && Proper(ts) && Apart(pre, ts)
    ensures ComesBack(pre, ts, oldName, newName) <==> !Stray(pre, ts, oldName, newName)
    decreases |ts|
  {
    if ts != [] {
      var t, rest := ts[0], ts[1..];
      var text := TokenText(RenameToken(t, oldName, newName));
      assert ts == [t] + rest;
      assert Stray(pre, ts, oldName, newName) <==>
             (t != Word(oldName)
              && MatchWithin(pre + Flatten(RenameTokens(ts, oldName, newName)), newName, |pre|, |TokenText(t)|))
             || Stray(pre + text, rest, oldName, newName);
      hide ReplaceFrom, Flatten, RenameTokens, MatchWithin, Stray;
      ScanBack(pre + text, rest, oldName, newName);
      if t == Word(oldName) {
        BackOverName(pre, rest, oldName, newName);
      } else if MatchWithin(pre + Flatten(RenameTokens(ts, oldName, newName)), newName, |pre|, |TokenText(t)|) {
        BackAtStray(pre, t, rest, oldName, newName);
      } else {
        BackOverOther(pre, t, rest, oldName, newName);
      }
    } else {
      assert Flatten(RenameTokens(ts, oldName, newName)) == "";
    }
  }

  /** Where the new name was put it is found. */
  lemma {:induction false} BackOverName(pre: string, rest: seq<Token>, oldName: string, newName: string)
    requires IsWord(oldName) && newName != "" && Proper([Word(oldName)] + rest) && Apart(pre, [Word(oldName)] + rest)
    ensures ComesBack(pre, [Word(oldName)] + rest, oldName, newName) <==>
            ComesBack(pre + newName, rest, oldName, newName)
  {
    var ts := [Word(oldName)] + rest;
    assert pre != "" ==> !WordChar(pre[|pre| - 1]);
    assert rest != [] ==> ts[0].Word? && ts[0 + 1] == rest[0];
    assert rest != [] ==> !WordChar(rest[0].c);
    hide IsWord, Proper, Apart;
    RestStartsApart(rest, oldName, newName);
    RenamedCons(Word(oldName), rest, oldName, newName);
    FlattenCons(Word(oldName), rest);
    BackOverText(pre, ts, rest, oldName, newName);
  }

  /** The same with the texts of the tokens known. */
  lemma {:induction false} BackOverText(pre: string, ts: seq<Token>, rest: seq<Token>, oldName: string, newName: string)
    requires newName != "" && (pre != "" ==> !WordChar(pre[|pre| - 1]))
    requires Flatten(ts) == oldName + Flatten(rest)
    requires Flatten(RenameTokens(ts, oldName, newName)) == newName + Flatten(RenameTokens(rest, oldName, newName))
    requires var more := Flatten(RenameTokens(rest, oldName, newName)); more != "" ==> !WordChar(more[0])
    ensures ComesBack(pre, ts, oldName, newName) <==> ComesBack(pre + newName, rest, oldName, newName)
  {
    hide Flatten, RenameTokens;
    var more := Flatten(RenameTokens(rest, oldName, newName));
    assert pre + (newName + more) == pre + newName + more;
    ScanName(pre, newName, more, oldName);
    hide ReplaceFrom;
    SamePrefix(oldName, ReplaceFrom(pre + newName + more, newName, oldName, |pre + newName|).0, Flatten(rest));
  }

  lemma {:induction false} ScanName(pre: string, name: string, more: string, oldName: string)
    requires name != "" && (pre != "" ==> !WordChar(pre[|pre| - 1])) && (more != "" ==> !WordChar(more[0]))
    ensures ReplaceFrom(pre + name + more, name, oldName, |pre|).0
            == oldName + ReplaceFrom(pre + name + more, name, oldName, |pre + name|).0
  {
    ReplacedMatches(pre, name, more);
  }

  /** A token in which no match begins is copied. */
  lemma {:induction false} BackOverOther(pre: string, t: Token, rest: seq<Token>, oldName: string, newName: string)
    requires newName != "" && t != Word(oldName)
    requires !MatchWithin(pre + Flatten(RenameTokens([t] + rest, oldName, newName)), newName, |pre|, |TokenText(t)|)
    ensures ComesBack(pre, [t] + rest, oldName, newName) <==> ComesBack(pre + TokenText(t), rest, oldName, newName)
  {
    var text, more := TokenText(t), Flatten(RenameTokens(rest, oldName, newName));
    var line := pre + text + more;
    RenamedCons(t, rest, oldName, newName);
    assert pre + Flatten(RenameTokens([t] + rest, oldName, newName)) == line;
    ScanCopies(line, newName, oldName, |pre|, |pre + text|);
    assert line[|pre|..|pre + text|] == text;
    FlattenCons(t, rest);
    SamePrefix(text, ReplaceFrom(line, newName, oldName, |pre + text|).0, Flatten(rest));
  }

  lemma {:induction false} BackAtStray(pre: string, t: Token, rest: seq<Token>, oldName: string, newName: string)
    requires IsWord(oldName) && newName != "" && t != Word(oldName) && Proper([t] + rest)
    requires MatchWithin(pre + Flatten(RenameTokens([t] + rest, oldName, newName)), newName, |pre|, |TokenText(t)|)
    ensures !ComesBack(pre, [t] + rest, oldName, newName)
  {
    var ts, more := [t] + rest, Flatten(RenameTokens(rest, oldName, newName));
    assert ts[0] == t && (rest != [] ==> ts[1] == rest[0]);
    RenamedCons(t, rest, oldName, newName);
    assert pre + Flatten(RenameTokens(ts, oldName, newName)) == pre + TokenText(t) + more;
    RestStartsApart(rest, oldName, newName);
    FlattenCons(t, rest);
    assert rest == [] ==> Flatten(rest) == "";
    StraySpoils(pre, t, Flatten(rest), oldName, newName, more);
  }

  lemma {:induction false} FlattenCons(t: Token, rest: seq<Token>)
    ensures Flatten([t] + rest) == TokenText(t) + Flatten(rest)
  {
    assert ([t] + rest)[1..] == rest;
  }

  lemma {:induction false} SamePrefix(a: string, b: string, c: string)
    ensures a + b == a + c <==> b == c
  {
    assert (a + b)[|a|..] == b && (a + c)[|a|..] == c;
  }

  /** After a word comes no word character. */
  lemma {:induction false} RestStartsApart(rest: seq<Token>, oldName: string, newName: string)
    ensures rest != [] && rest[0].Other? ==>
              Flatten(rest) != "" && Flatten(rest)[0] == rest[0].c
              && Flatten(RenameTokens(rest, oldName, newName)) != ""
              && Flatten(RenameTokens(rest, oldName, newName))[0] == rest[0].c
    ensures rest == [] ==> Flatten(RenameTokens(rest, oldName, newName)) == ""
  {
    if rest != [] {
      RenamedCons(rest[0], rest[1..], oldName, newName);
      assert rest == [rest[0]] + rest[1..];
    }
  }

  lemma {:induction false} ReplacedMatches(pre: string, name: string, more: string)
    requires (pre != "" ==> !WordChar(pre[|pre| - 1])) && (more != "" ==> !WordChar(more[0]))
    ensures MatchAt(pre + name + more, name, |pre|)
  {
    assert (pre + name + more)[|pre|..|pre| + |name|] == name;
  }

  /** A match that begins in a token left alone puts the old name where the line did not have it. */
  lemma {:induction false} StraySpoils(pre: string, t: Token, after: string, oldName: string, newName: string,
                                       more: string)
    requires IsWord(oldName) && newName != "" && t != Word(oldName)
    requires if t.Word? then IsWord(t.s) && (after != "" ==> !WordChar(after[0])) else !WordChar(t.c)
    requires MatchWithin(pre + TokenText(t) + more, newName, |pre|, |TokenText(t)|)
    ensures ReplaceFrom(pre + TokenText(t) + more, newName, oldName, |pre|).0 != TokenText(t) + after
  {
    var text := TokenText(t);
    var line, whole := pre + text + more, text + after;
    var k := FirstMatch(line, newName, |pre|, |text|);
    var o := k - |pre|;
    var end := ReplaceFrom(line, newName, oldName, k + |newName|).0;
    ScanCopies(line, newName, oldName, |pre|, k);
    var back := line[|pre|..k] + (oldName + end);
    assert ReplaceFrom(line, newName, oldName, |pre|).0 == back;
    hide ReplaceFrom, MatchWithin;
    assert line[k] == text[o] == line[k..k + |newName|][0] == newName[0];
    assert back[o] == oldName[0] && whole[o] == text[o];
    ReplaceStarts(line, newName, oldName, k + |newName|);
    if t.Word? {
      NotAWord(t.s, after, oldName, end);
      NoMatchInside(pre, text, more, newName, k);
      assert back == oldName + end;
    }
  }

  lemma {:induction false} NoMatchInside(pre: string, w: string, more: string, name: string, k: nat)
    requires IsWord(w)
    ensures |pre| < k < |pre| + |w| ==> !MatchAt(pre + w + more, name, k)
  {
    if |pre| < k < |pre| + |w| {
      assert (pre + w + more)[k - 1] == w[k - 1 - |pre|];
    }
  }

  /** If a longer word stands where the old name was put, a word character follows it. */
  lemma {:induction false} NotAWord(w: string, rest: string, oldName: string, end: string)
    requires IsWord(w) && IsWord(oldName) && w != oldName && (rest != "" ==> !WordChar(rest[0]))
    ensures oldName + end == w + rest ==> end != "" && WordChar(end[0])
  {
    var a, b := oldName + end, w + rest;
    assert a[..|oldName|] == oldName && b[..|w|] == w;
    if |w| < |oldName| {
      assert a[|w|] == oldName[|w|];
      assert rest != "" ==> b[|w|] == rest[0];
    } else if |oldName| < |w| {
      assert b[|oldName|] == w[|oldName|];
      assert end != "" ==> a[|oldName|] == end[0];
    }
  }

  /** After a match of a name that starts with a word character no word character is put out at once. */
  lemma {:induction false} ReplaceStarts(line: string, name: string, oldName: string, i: nat)
    requires name != "" && i <= |line|
    ensures var end := ReplaceFrom(line, name, oldName, i).0;
            WordChar(name[0]) && (i < |line| ==> !WordChar(line[i])) && end != "" ==> !WordChar(end[0])
  {
    assert i + |name| <= |line| ==> line[i..i + |name|][0] == line[i];
  }

  /**
    Renaming back restores the line exactly when the rewritten line held the new name, as a
    whole word, nowhere but where the old one had been.
  */
  lemma {:induction false} RenameBack(line: string, oldName: string, newName: string)
    requires IsWord(oldName) && newName != ""
    ensures ReplaceIdentifier(ReplaceIdentifier(line, oldName, newName).0, newName, oldName).0 == line
            <==> !Stray("", Tokenize(line), oldName, newName)
  {
    var ts := Tokenize(line);
    ReplaceIsTokenMap(line, oldName, newName);
    TokenizeProper(line);
    ScanBack("", ts, oldName, newName);
    assert "" + Flatten(RenameTokens(ts, oldName, newName)) == Flatten(RenameTokens(ts, oldName, newName));
  }

  /** For a new name of ASCII word characters that is when it was not already a word in the line. */
  lemma {:induction false} RenameBackWord(line: string, oldName: string, newName: string)
    requires IsWord(oldName) && IsWord(newName)
    ensures ReplaceIdentifier(ReplaceIdentifier(line, oldName, newName).0, newName, oldName).0 == line
            <==> oldName == newName || Word(newName) !in Tokenize(line)
  {
    var there := ReplaceIdentifier(line, oldName, newName).0;
    var again := ReplaceIdentifier(there, newName, oldName).0;
    WordsOfWord(line, oldName, newName);
    WordsOfWord(there, newName, oldName);
    TokenizeProper(line);
    TokenizeProper(again);
    RenameTokensBack(Tokenize(line), oldName, newName);
  }

  lemma {:induction false} WordsOfWord(line: string, oldName: string, newName: string)
    requires IsWord(oldName) && IsWord(newName)
    ensures Tokenize(ReplaceIdentifier(line, oldName, newName).0) == RenameTokens(Tokenize(line), oldName, newName)
  {
    ReplaceIsTokenMap(line, oldName, newName);
    TokenizeProper(line);
    TokenizeOfFlatten(RenameTokens(Tokenize(line), oldName, newName));
  }

  lemma {:induction false} RenameTokensBack(ts: seq<Token>, oldName: string, newName: string)
    ensures RenameTokens(RenameTokens(ts, oldName, newName), newName, oldName) == ts
            <==> oldName == newName || Word(newName) !in ts
  {
    var back := RenameTokens(RenameTokens(ts, oldName, newName), newName, oldName);
    if Word(newName) in ts && oldName != newName {
      var i :| 0 <= i < |ts| && ts[i] == Word(newName);
      assert back[i] == Word(oldName);
    } else {
      assert back == ts;
    }
  }

  /** A line is rewritten only if the old word occurs in it; it does not become empty or gain a newline. */
  lemma {:induction false} RewriteShape(line: string, oldName: string, newName: string)
    requires IsWord(oldName) && newName != "" && '\n' !in newName
    ensures var (text, hits) := ReplaceIdentifier(line, oldName, newName);
            && (hits > 0 <==> Word(oldName) in Tokenize(line))
            && (hits == 0 ==> text == line)
            && (text == "" <==> line == "")
            && ('\n' in text <==> '\n' in line)
  {
    var ts := Tokenize(line);
    var us := RenameTokens(ts, oldName, newName);
    ReplaceIsTokenMap(line, oldName, newName);
    TokenizeProper(line);
    CountPositive(ts, oldName);
    if CountWord(ts, oldName) == 0 {
      assert us == ts;
    }
    RenamedNewlines(ts, oldName, newName);
  }

  lemma {:induction false} RenamedNewlines(ts: seq<Token>, oldName: string, newName: string)
    requires Proper(ts) && newName != "" && '\n' !in newName
    ensures var text := Flatten(RenameTokens(ts, oldName, newName));
            ('\n' in text <==> '\n' in Flatten(ts)) && (text == "" <==> Flatten(ts) == "")
  {
    if ts != [] {
      RenamedNewlines(ts[1..], oldName, newName);
      RenamedCons(ts[0], ts[1..], oldName, newName);
      assert ts == [ts[0]] + ts[1..];
      if ts[0].Word? {
        assert '\n' !in ts[0].s;
      }
    }
  }

  lemma {:induction false} CountPositive(ts: seq<Token>, w: string)
    ensures CountWord(ts, w) > 0 <==> Word(w) in ts
  {
    if ts != [] {
      CountPositive(ts[1..], w);
      assert ts == [ts[0]] + ts[1..];
    }
  }
}
