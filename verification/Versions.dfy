/**
  Version comparison for plugin updates: the zip loop of _is_newer with its length
  tie-break, and the strict order it computes.
*/
module Versions {
  import opened Options
  import opened Text

  type Version = seq<int>

  /** a is above b: equal up to some place, where a goes on and b is smaller or has ended. */
  ghost predicate Above(a: Version, b: Version)
  {
    exists k :: AboveAt(a, b, k)
  }

  predicate AboveAt(a: Version, b: Version, k: nat)
  {
    && k < |a| && k <= |b| && a[..k] == b[..k]
    && (k == |b| || a[k] > b[k])
  }

  /** The comparison loop of _is_newer on parsed versions. */
  method IsNewer(latest: Version, current: Version) returns (newer: bool)
    ensures newer <==> Above(latest, current)
  {
    var n := if |latest| <= |current| then |latest| else |current|;
    for i := 0 to n
      invariant latest[..i] == current[..i]
    {
      if latest[i] > current[i] {
        assert AboveAt(latest, current, i);
        return true;
      }
      if latest[i] < current[i] {
        NotAboveBelow(latest, current, i);
        return false;
      }
      assert latest[..i + 1] == latest[..i] + [latest[i]];
      assert current[..i + 1] == current[..i] + [current[i]];
    }
    if |latest| > |current| {
      assert AboveAt(latest, current, n);
    } else {
      PrefixNotAbove(latest, current);
    }
    return |latest| > |current|;
  }

  lemma {:induction false} NotAboveBelow(a: Version, b: Version, i: nat)
    requires i < |a| && i < |b| && a[..i] == b[..i] && a[i] < b[i]
    ensures !Above(a, b)
  {
    forall k: nat
      ensures !AboveAt(a, b, k)
    {
      assert i < k && k <= |a| && k <= |b| ==> a[..k][i] == a[i] && b[..k][i] == b[i];
      assert k < i ==> a[..i][k] == b[..i][k];
    }
  }

  lemma {:induction false} PrefixNotAbove(a: Version, b: Version)
    requires a <= b
    ensures !Above(a, b)
  {
    forall k: nat
      ensures !AboveAt(a, b, k)
    {
      assert k < |a| ==> a[k] == b[k];
    }
  }

  lemma {:induction false} AboveIrreflexive(a: Version)
    ensures !Above(a, a)
  {
    PrefixNotAbove(a, a);
  }

  lemma {:induction false} AboveTransitive(a: Version, b: Version, c: Version)
    requires Above(a, b) && Above(b, c)
    ensures Above(a, c)
  {
    var j: nat :| AboveAt(a, b, j);
    var k: nat :| AboveAt(b, c, k);
    var i := if j <= k then j else k;
    assert a[..i] == a[..j][..i] && b[..i] == b[..j][..i] == b[..k][..i] && c[..i] == c[..k][..i];
    if k < j {
      assert a[k] == a[..j][k] == b[..j][k];
    } else if j < k {
      assert b[j] == b[..k][j] == c[..k][j];
    }
    assert AboveAt(a, c, i);
  }

  lemma {:induction false} AboveTotal(a: Version, b: Version)
    ensures a == b || Above(a, b) || Above(b, a)
  {
    var i := FirstDifference(a, b);
    if i < |a| && i < |b| {
      assert AboveAt(a, b, i) || AboveAt(b, a, i);
    } else if i < |a| {
      assert AboveAt(a, b, i);
    } else if i < |b| {
      assert AboveAt(b, a, i);
    } else {
      assert a == a[..i] && b == b[..i];
    }
  }

  function FirstDifference(a: Version, b: Version): (i: nat)
    ensures i <= |a| && i <= |b| && a[..i] == b[..i]
    ensures i < |a| && i < |b| ==> a[i] != b[i]
  {
    if a == [] || b == [] || a[0] != b[0] then 0
    else
      var j := FirstDifference(a[1..], b[1..]);
      assert a[..j + 1] == [a[0]] + a[1..][..j] && b[..j + 1] == [b[0]] + b[1..][..j];
      j + 1
  }

  // ---- Version texts ----

  function RemoveAll(s: string, c: char): string
  {
    if s == "" then "" else (if s[0] == c then "" else [s[0]]) + RemoveAll(s[1..], c)
  }

  /** Each part read as a number, if all of them can be; int() is the parameter. */
  function ReadParts(parts: seq<string>, toInt: string -> Option<int>): Option<Version>
  {
    if parts == [] then Some([])
    else
      match toInt(parts[0])
      case None => None
      case Some(n) =>
        match ReadParts(parts[1..], toInt)
        case None => None
        case Some(rest) => Some([n] + rest)
  }

  function ReadVersion(text: string, toInt: string -> Option<int>): Option<Version>
  {
    ReadParts(Split(RemoveAll(text, 'v'), '.'), toInt)
  }

  /** The parts read as these numbers, each in its place. */
  ghost predicate Reads(parts: seq<string>, v: Version, toInt: string -> Option<int>)
  {
    |v| == |parts| && forall i :: 0 <= i < |parts| ==> toInt(parts[i]) == Some(v[i])
  }

  /** The parts can be read exactly if every one of them can, and then as these numbers in this order. */
  lemma {:induction false} PartsRead(parts: seq<string>, toInt: string -> Option<int>)
    ensures ReadParts(parts, toInt).Some? <==> forall i :: 0 <= i < |parts| ==> toInt(parts[i]).Some?
    ensures forall v :: ReadParts(parts, toInt) == Some(v) <==> Reads(parts, v, toInt)
  {
    if parts != [] {
      PartsRead(parts[1..], toInt);
      assert forall i :: 0 < i < |parts| ==> parts[i] == parts[1..][i - 1];
      forall v
        ensures ReadParts(parts, toInt) == Some(v) <==> Reads(parts, v, toInt)
      {
        if Reads(parts, v, toInt) {
          assert v == [v[0]] + v[1..] && Reads(parts[1..], v[1..], toInt);
        }
      }
    }
  }

  lemma {:induction false} DropsFirst(x: char, s: string, c: char)
    ensures RemoveAll([x] + s, c) == (if x == c then "" else [x]) + RemoveAll(s, c)
  {
    assert ([x] + s)[1..] == s;
  }

  /** Dropping a character leaves the other texts alone. */
  lemma {:induction false} DropsNothing(a: string, c: char)
    requires Free(a, c)
    ensures RemoveAll(a, c) == a
  {
    if a != "" {
      DropsNothing(a[1..], c);
      assert a == [a[0]] + a[1..];
    }
  }

  /** Where it stands, what is around it is joined. */
  lemma {:induction false} DropsCharacter(a: string, b: string, c: char)
    requires Free(a, c)
    ensures RemoveAll(a + [c] + b, c) == a + RemoveAll(b, c)
  {
    if a == "" {
      DropsFirst(c, b, c);
      assert [c] + b == a + [c] + b;
      assert "" + RemoveAll(b, c) == RemoveAll(b, c) == a + RemoveAll(b, c);
    } else {
      var x, t := a[0], a[1..];
      DropsCharacter(t, b, c);
      DropsFirst(x, t + [c] + b, c);
      assert a + [c] + b == [x] + (t + [c] + b);
      assert a + RemoveAll(b, c) == [x] + (t + RemoveAll(b, c));
    }
  }

  /** The text, once every v is dropped, is these numbers written one after another with dots between. */
  ghost predicate Spells(text: string, v: Version, toInt: string -> Option<int>)
  {
    exists parts :: parts != [] && AllFree(parts, '.') && Reads(parts, v, toInt)
                    && RemoveAll(text, 'v') == Join(parts, '.')
  }

  /** A text reads as a version exactly if it spells it. */
  lemma {:induction false} VersionSpelled(text: string, v: Version, toInt: string -> Option<int>)
    ensures ReadVersion(text, toInt) == Some(v) <==> Spells(text, v, toInt)
  {
    var plain := RemoveAll(text, 'v');
    var parts := Split(plain, '.');
    PartsRead(parts, toInt);
    SplitIsFree(plain, '.');
    JoinOfSplit(plain, '.');
    if Spells(text, v, toInt) {
      var other :| other != [] && AllFree(other, '.') && Reads(other, v, toInt) && plain == Join(other, '.');
      SplitOfJoin(other, '.');
    }
  }

  /** Numbers written with dots between, with or without a leading v. */
  lemma {:induction false} PlainVersion(parts: seq<string>, v: Version, toInt: string -> Option<int>)
    requires parts != [] && AllFree(parts, '.') && AllFree(parts, 'v') && Reads(parts, v, toInt)
    ensures ReadVersion(Join(parts, '.'), toInt) == Some(v) && ReadVersion("v" + Join(parts, '.'), toInt) == Some(v)
  {
    var text := Join(parts, '.');
    JoinFree(parts, 'v');
    DropsNothing(text, 'v');
    DropsCharacter("", text, 'v');
    assert "" + ['v'] + text == "v" + text && "" + RemoveAll(text, 'v') == text;
    assert Spells(text, v, toInt) && Spells("v" + text, v, toInt);
    VersionSpelled(text, v, toInt);
    VersionSpelled("v" + text, v, toInt);
  }

  lemma {:induction false} JoinFree(parts: seq<string>, c: char)
    requires AllFree(parts, c) && c != '.'
    ensures Free(Join(parts, '.'), c)
  {
    if |parts| > 1 {
      JoinFree(parts[1..], c);
    }
  }

  /** _is_newer on texts: none if either cannot be read. */
  ghost function Newer(latest: string, current: string, toInt: string -> Option<int>): Option<bool>
  {
    var a, b := ReadVersion(latest, toInt), ReadVersion(current, toInt);
    if a.None? || b.None? then None else Some(Above(a.value, b.value))
  }

  /**
    On texts that spell versions the later one is newer if and only if, in the first place
    where the numbers differ, it has the greater one, or it goes on where the other ends.
  */
  lemma {:induction false} NewerByNumbers(latest: string, current: string, a: Version, b: Version,
                                          toInt: string -> Option<int>)
    requires Spells(latest, a, toInt) && Spells(current, b, toInt)
    ensures Newer(latest, current, toInt) ==
            Some(exists k: nat :: k < |a| && k <= |b| && a[..k] == b[..k] && (k == |b| || a[k] > b[k]))
  {
    VersionSpelled(latest, a, toInt);
    VersionSpelled(current, b, toInt);
    if Above(a, b) {
      var k: nat :| AboveAt(a, b, k);
      assert k < |a| && k <= |b| && a[..k] == b[..k] && (k == |b| || a[k] > b[k]);
    }
    forall k: nat | k < |a| && k <= |b| && a[..k] == b[..k] && (k == |b| || a[k] > b[k])
      ensures Above(a, b)
    {
      assert AboveAt(a, b, k);
    }
  }
}
