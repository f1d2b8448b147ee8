/**
  Splitting and joining text at a separator character: the meaning shared by dotted
  configuration keys (separator '.') and by source lines (separator newline).
*/
module Text {

  /** The pieces of s between occurrences of c; there is always at least one. */
  function Split(s: string, c: char): (parts: seq<string>)
    ensures parts != []
  {
    if s == "" then [""]
    else if s[0] == c then [""] + Split(s[1..], c)
    else
      var rest := Split(s[1..], c);
      [[s[0]] + rest[0]] + rest[1..]
  }

  function Join(parts: seq<string>, c: char): string
  {
    if parts == [] then ""
    else if |parts| == 1 then parts[0]
    else parts[0] + [c] + Join(parts[1..], c)
  }

  predicate Free(s: string, c: char)
  {
    c !in s
  }

  predicate AllFree(parts: seq<string>, c: char)
  {
    forall i :: 0 <= i < |parts| ==> Free(parts[i], c)
  }

  lemma {:induction false} SplitIsFree(s: string, c: char)
    ensures AllFree(Split(s, c), c)
  {
    if s != "" {
      SplitIsFree(s[1..], c);
    }
  }

  /** Splitting loses nothing. */
  lemma {:induction false} JoinOfSplit(s: string, c: char)
    ensures Join(Split(s, c), c) == s
  {
    if s != "" {
      var rest := Split(s[1..], c);
      JoinOfSplit(s[1..], c);
      if s[0] == c {
        assert Split(s, c)[1..] == rest;
      } else {
        assert Split(s, c)[1..] == rest[1..];
      }
    }
  }

  lemma {:induction false} SplitOfFree(s: string, c: char)
    requires Free(s, c)
    ensures Split(s, c) == [s]
  {
    if s != "" {
      SplitOfFree(s[1..], c);
      assert [s[0]] + s[1..] == s;
    }
  }

  lemma {:induction false} SplitAtSeparator(a: string, b: string, c: char)
    requires Free(a, c)
    ensures Split(a + [c] + b, c) == [a] + Split(b, c)
  {
    var s := a + [c] + b;
    if a == "" {
      assert s[1..] == b;
    } else {
      SplitAtSeparator(a[1..], b, c);
      assert s[1..] == a[1..] + [c] + b;
      assert [a[0]] + a[1..] == a;
    }
  }

  /** What splitting does with one more character in front. */
  function Prepend(x: char, parts: seq<string>, c: char): seq<string>
    requires parts != []
  {
    if x == c then [""] + parts else [[x] + parts[0]] + parts[1..]
  }

  lemma {:induction false} PrependConcat(x: char, p: seq<string>, q: seq<string>, c: char)
    requires p != []
    ensures Prepend(x, p + q, c) == Prepend(x, p, c) + q
  {
  }

  lemma {:induction false} SplitCons(x: char, s: string, c: char)
    ensures Split([x] + s, c) == Prepend(x, Split(s, c), c)
  {
    assert ([x] + s)[1..] == s;
  }

  /** Splitting distributes over a separator. */
  lemma {:induction false} SplitConcat(a: string, b: string, c: char)
    ensures Split(a + [c] + b, c) == Split(a, c) + Split(b, c)
  {
    if a == "" {
      assert a + [c] + b == [c] + b;
      SplitCons(c, b, c);
    } else {
      var x, t := a[0], a[1..];
      SplitConcat(t, b, c);
      PrependConcat(x, Split(t, c), Split(b, c), c);
      SplitCons(x, t + [c] + b, c);
      SplitCons(x, t, c);
      assert a + [c] + b == [x] + (t + [c] + b);
      assert a == [x] + t;
    }
  }

  /** Joining pieces that do not hold the separator is undone by splitting. */
  lemma {:induction false} SplitOfJoin(parts: seq<string>, c: char)
    requires parts != [] && AllFree(parts, c)
    ensures Split(Join(parts, c), c) == parts
  {
    if |parts| == 1 {
      SplitOfFree(parts[0], c);
    } else {
      SplitOfJoin(parts[1..], c);
      SplitAtSeparator(parts[0], Join(parts[1..], c), c);
    }
  }

  /** Hence joining is injective on separator-free pieces. */
  lemma {:induction false} JoinInjective(p: seq<string>, q: seq<string>, c: char)
    requires p != [] && q != [] && AllFree(p, c) && AllFree(q, c)
    requires Join(p, c) == Join(q, c)
    ensures p == q
  {
    SplitOfJoin(p, c);
    SplitOfJoin(q, c);
  }

  /** Decimal digits of a number, as str() prints it. */
  function Decimal(n: nat): (s: string)
    ensures s != ""
  {
    if n < 10 then [DIGITS[n]] else Decimal(n / 10) + [DIGITS[n % 10]]
  }

  const DIGITS: string := "0123456789"

  /** The number a text of digits stands for. */
  function ValueOf(s: string): int
  {
    if s == "" then 0 else 10 * ValueOf(s[..|s| - 1]) + (s[|s| - 1] as int - '0' as int)
  }

  /** The text has digits only, no leading zero but for zero itself, and stands for the number. */
  lemma {:induction false} DecimalStandsFor(n: nat)
    ensures ValueOf(Decimal(n)) == n
    ensures forall i :: 0 <= i < |Decimal(n)| ==> '0' <= Decimal(n)[i] <= '9'
    ensures n > 0 ==> Decimal(n)[0] != '0'
  {
    assert DIGITS[n % 10] as int == '0' as int + n % 10;
    if n < 10 {
      assert Decimal(n)[..0] == "";
    } else {
      DecimalStandsFor(n / 10);
      var d := Decimal(n / 10);
      assert Decimal(n)[..|d|] == d && Decimal(n)[|d|] == DIGITS[n % 10];
    }
  }

  /** Two numbers with the same digits are equal. */
  lemma {:induction false} DecimalInjective(m: nat, n: nat)
    requires Decimal(m) == Decimal(n)
    ensures m == n
  {
    var dm, dn := Decimal(m), Decimal(n);
    assert dm[|dm| - 1] == DIGITS[m % 10];
    assert dn[|dn| - 1] == DIGITS[n % 10];
    assert m % 10 == n % 10;
    assert dm[..|dm| - 1] == dn[..|dn| - 1];
    if 10 <= m && 10 <= n {
      assert dm[..|dm| - 1] == Decimal(m / 10);
      assert dn[..|dn| - 1] == Decimal(n / 10);
      DecimalInjective(m / 10, n / 10);
    }
  }

  /** The order of texts: by the first character in which they differ, a prefix first. */
  predicate Below(a: string, b: string)
  {
    b != "" && (a == "" || a[0] < b[0] || (a[0] == b[0] && Below(a[1..], b[1..])))
  }

  /** The texts agree before k, where a ends or has the smaller character. */
  predicate BelowAt(a: string, b: string, k: nat)
  {
    k < |b| && k <= |a| && a[..k] == b[..k] && (k == |a| || a[k] < b[k])
  }

  lemma {:induction false} BelowByFirstDifference(a: string, b: string)
    ensures Below(a, b) <==> exists k :: BelowAt(a, b, k)
  {
    if b != "" && (a == "" || a[0] < b[0]) {
      assert BelowAt(a, b, 0);
    } else if a != "" && b != "" && a[0] == b[0] {
      var x, c, d := a[0], a[1..], b[1..];
      assert a == [x] + c && b == [x] + d;
      BelowByFirstDifference(c, d);
      if Below(c, d) {
        var k: nat :| BelowAt(c, d, k);
        assert a[..k + 1] == [x] + c[..k] && b[..k + 1] == [x] + d[..k];
        assert BelowAt(a, b, k + 1);
      }
      forall k: nat | BelowAt(a, b, k)
        ensures Below(c, d)
      {
        assert k > 0;
        assert c[..k - 1] == a[..k][1..] && d[..k - 1] == b[..k][1..];
        assert BelowAt(c, d, k - 1);
      }
    } else {
      forall k: nat
        ensures !BelowAt(a, b, k)
      {
        if a != "" && b != "" && 0 < k <= |a| && k <= |b| {
          assert a[..k][0] == a[0] && b[..k][0] == b[0];
        }
      }
    }
  }

  lemma {:induction false} BelowIrreflexive(a: string)
    ensures !Below(a, a)
  {
    if a != "" {
      BelowIrreflexive(a[1..]);
    }
  }

  lemma {:induction false} BelowTransitive(a: string, b: string, c: string)
    requires Below(a, b) && Below(b, c)
    ensures Below(a, c)
  {
    if a != "" && a[0] == b[0] == c[0] {
      BelowTransitive(a[1..], b[1..], c[1..]);
    }
  }

  lemma {:induction false} BelowTotal(a: string, b: string)
    ensures a == b || Below(a, b) || Below(b, a)
  {
    if a != "" && b != "" && a[0] == b[0] {
      BelowTotal(a[1..], b[1..]);
      assert a == [a[0]] + a[1..] && b == [b[0]] + b[1..];
    }
  }
}
