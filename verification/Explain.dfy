/**
  Explaining the effective configuration: which keys several layers fought over, and
  the masking of credential-named values before anything is shown.
*/
module Explain {
  import opened ConfigTree
  import opened Options
  import opened ConfigLeaves
  import opened Lists
  import opened Resolver
  import opened Text

  // ---- Conflicts ----

  datatype Conflict = Conflict(key: string, winner: string, losers: seq<string>)

  predicate NotDefaults(name: string)
  {
    name != DEFAULTS
  }

  function NonDefault(names: seq<string>): seq<string>
  {
    Keep(names, NotDefaults)
  }

  /** "defaults" is the name of the lowest layer only. */
  ghost predicate DefaultsLowest(layers: Layers)
  {
    forall i :: 0 < i < |layers| ==> layers[i].name != DEFAULTS
  }

  lemma {:induction false} DefaultsFirst(layers: Layers, d: string)
    requires DefaultsLowest(layers)
    ensures forall i :: 0 < i < |Definers(layers, d)| ==> Definers(layers, d)[i] != DEFAULTS
  {
    if |layers| > 1 {
      DefaultsFirst(layers[..|layers| - 1], d);
    }
  }

  /** The inner loop of explain: the layers other than the defaults, each at its first occurrence. */
  method ExplicitLayers(list: seq<string>) returns (explicit: seq<string>)
    ensures explicit == NonDefault(FirstSeen(list))
  {
    explicit := [];
    for i := 0 to |list|
      invariant explicit == NonDefault(FirstSeen(list[..i]))
    {
      var layer := list[i];
      assert list[..i + 1] == list[..i] + [layer];
      FirstSeenSnoc(list[..i], layer);
      KeepMembers(FirstSeen(list[..i]), NotDefaults);
      KeepSnoc(FirstSeen(list[..i]), layer, NotDefaults);
      if layer != DEFAULTS && layer !in explicit {
        explicit := explicit + [layer];
      }
    }
    assert list[..|list|] == list;
  }

  /** At least two layers other than the defaults define this name. */
  ghost predicate Contested(layers: Layers, d: string)
  {
    |NonDefault(Definers(layers, d))| >= 2
  }

  ghost predicate Reported(conflicts: seq<Conflict>, d: string)
  {
    exists i :: 0 <= i < |conflicts| && conflicts[i].key == d
  }

  /** The losers precede the winner, and the winner is the layer the record credits. */
  ghost predicate Accurate(c: Conflict, record: Provenance, layers: Layers)
    reads record
  {
    && c.losers + [c.winner] == NonDefault(Definers(layers, c.key))
    && c.winner == record.DottedLayerOf(c.key)
  }

  ghost predicate OneEach(conflicts: seq<Conflict>)
  {
    forall i, j :: 0 <= i < j < |conflicts| ==> conflicts[i].key != conflicts[j].key
  }

  /** The report for one name, if it is contested. */
  method ConflictOf(record: Provenance, ghost layers: Layers, dotted: string) returns (reported: bool, c: Conflict)
    requires record.Describes(layers) && DefaultsLowest(layers) && dotted in record.dottedKeyLayers
    ensures reported <==> Contested(layers, dotted)
    ensures reported ==> c.key == dotted && Accurate(c, record, layers)
  {
    ListedDefiners(record, layers, dotted);
    var explicit := ExplicitLayers(record.dottedKeyLayers[dotted]);
    var n := |explicit| - 1;
    reported, c := n >= 1, Conflict(dotted, "", []);
    if reported {
      WinnerCredited(record, layers, dotted);
      c := Conflict(dotted, explicit[n], explicit[..n]);
      assert explicit[..n] + [explicit[n]] == explicit;
    }
  }

  lemma {:induction false} ContestedListed(record: Provenance, layers: Layers)
    requires record.Describes(layers)
    ensures forall d :: Contested(layers, d) ==> d in record.dottedKeyLayers
  {
    forall d | Contested(layers, d)
      ensures d in record.dottedKeyLayers
    {
      assert EntryDescribes(record.byDottedKey, record.dottedKeyLayers, d, Definers(layers, d));
    }
  }

  // ---- Sorting the report ----

  ghost predicate ByKey(conflicts: seq<Conflict>)
  {
    forall i, j :: 0 <= i < j < |conflicts| ==> Below(conflicts[i].key, conflicts[j].key)
  }

  function InsertByKey(c: Conflict, s: seq<Conflict>): seq<Conflict>
  {
    if s == [] || !Below(s[0].key, c.key) then [c] + s else [s[0]] + InsertByKey(c, s[1..])
  }

  function SortByKey(s: seq<Conflict>): seq<Conflict>
  {
    if s == [] then [] else InsertByKey(s[0], SortByKey(s[1..]))
  }

  lemma {:induction false} InsertByKeySorts(c: Conflict, s: seq<Conflict>)
    requires ByKey(s) && forall x :: x in s ==> x.key != c.key
    ensures ByKey(InsertByKey(c, s))
    ensures forall x :: x in InsertByKey(c, s) <==> x == c || x in s
  {
    if s != [] {
      var first, rest := s[0], s[1..];
      assert s == [first] + rest;
      BelowTotal(c.key, first.key);
      if Below(first.key, c.key) {
        InsertByKeySorts(c, rest);
        FirstBelow(first, InsertByKey(c, rest));
      } else {
        forall x | x in rest
          ensures Below(c.key, x.key)
        {
          var i :| 0 <= i < |rest| && rest[i] == x;
          assert s[0] == first && s[i + 1] == x;
          BelowTransitive(c.key, first.key, x.key);
        }
        FirstBelow(c, s);
      }
    }
  }

  lemma {:induction false} FirstBelow(c: Conflict, s: seq<Conflict>)
    requires ByKey(s) && forall x :: x in s ==> Below(c.key, x.key)
    ensures ByKey([c] + s)
  {
  }

  lemma {:induction false} SortByKeySorts(s: seq<Conflict>)
    requires OneEach(s)
    ensures ByKey(SortByKey(s)) && forall x :: x in SortByKey(s) <==> x in s
  {
    if s != [] {
      SortByKeySorts(s[1..]);
      assert s == [s[0]] + s[1..];
      InsertByKeySorts(s[0], SortByKey(s[1..]));
    }
  }

  /**
    The conflicts of explain, sorted by key: a name is reported exactly when it is
    contested, once, and every report is accurate.
  */
  method Conflicts(record: Provenance, ghost layers: Layers) returns (conflicts: seq<Conflict>)
    requires record.Describes(layers) && DefaultsLowest(layers)
    ensures forall d :: Reported(conflicts, d) <==> Contested(layers, d)
    ensures ByKey(conflicts)
    ensures forall i :: 0 <= i < |conflicts| ==> Accurate(conflicts[i], record, layers)
  {
    var found := CollectConflicts(record, layers);
    SortByKeySorts(found);
    conflicts := SortByKey(found);
    forall d
      ensures Reported(conflicts, d) <==> Reported(found, d)
    {
      ReportedSame(conflicts, found, d);
    }
    forall i | 0 <= i < |conflicts|
      ensures Accurate(conflicts[i], record, layers)
    {
      assert conflicts[i] in found;
    }
  }

  lemma {:induction false} ReportedSame(a: seq<Conflict>, b: seq<Conflict>, d: string)
    requires forall x :: x in a <==> x in b
    ensures Reported(a, d) <==> Reported(b, d)
  {
    if Reported(a, d) {
      var i :| 0 <= i < |a| && a[i].key == d;
      assert a[i] in b;
    }
    if Reported(b, d) {
      var i :| 0 <= i < |b| && b[i].key == d;
      assert b[i] in a;
    }
  }

  /** The conflicts loop, which visits the names in any order. */
  method CollectConflicts(record: Provenance, ghost layers: Layers) returns (conflicts: seq<Conflict>)
    requires record.Describes(layers) && DefaultsLowest(layers)
    ensures forall d :: Reported(conflicts, d) <==> Contested(layers, d)
    ensures OneEach(conflicts)
    ensures forall i :: 0 <= i < |conflicts| ==> Accurate(conflicts[i], record, layers)
  {
    conflicts := [];
    var todo := record.dottedKeyLayers.Keys;
    while todo != {}
      invariant todo <= record.dottedKeyLayers.Keys
      invariant forall d :: Reported(conflicts, d) <==> d in record.dottedKeyLayers.Keys - todo && Contested(layers, d)
      invariant OneEach(conflicts)
      invariant forall i :: 0 <= i < |conflicts| ==> Accurate(conflicts[i], record, layers)
      decreases todo
    {
      var dotted :| dotted in todo;
      var reported, c := ConflictOf(record, layers, dotted);
      if reported {
        ReportedSnoc(conflicts, c);
        conflicts := conflicts + [c];
      }
      todo := todo - {dotted};
    }
    ContestedListed(record, layers);
  }

  lemma {:induction false} ReportedSnoc(conflicts: seq<Conflict>, c: Conflict)
    ensures forall d :: Reported(conflicts + [c], d) <==> Reported(conflicts, d) || d == c.key
    ensures OneEach(conflicts) && !Reported(conflicts, c.key) ==> OneEach(conflicts + [c])
  {
    var more := conflicts + [c];
    forall d
      ensures Reported(more, d) <==> Reported(conflicts, d) || d == c.key
    {
      if Reported(conflicts, d) {
        var i :| 0 <= i < |conflicts| && conflicts[i].key == d;
        assert more[i].key == d;
      }
      assert more[|conflicts|].key == c.key;
    }
  }

  lemma {:induction false} ListedDefiners(record: Provenance, layers: Layers, d: string)
    requires record.Describes(layers) && d in record.dottedKeyLayers
    ensures FirstSeen(record.dottedKeyLayers[d]) == Definers(layers, d)
  {
    assert EntryDescribes(record.byDottedKey, record.dottedKeyLayers, d, Definers(layers, d));
  }

  lemma {:induction false} WinnerCredited(record: Provenance, layers: Layers, d: string)
    requires record.Describes(layers) && DefaultsLowest(layers)
    requires |NonDefault(Definers(layers, d))| >= 2
    ensures NonDefault(Definers(layers, d))[|NonDefault(Definers(layers, d))| - 1] == record.DottedLayerOf(d)
  {
    var definers := Definers(layers, d);
    assert EntryDescribes(record.byDottedKey, record.dottedKeyLayers, d, definers);
    DefaultsFirst(layers, d);
    KeepMembers(definers, NotDefaults);
  }

  // ---- Masking ----

  const SECRET_MASK: Tree := Leaf(Str("***"))

  /** Letters compare without regard to case, as the credential pattern asks. */
  function Fold(c: char): char
  {
    if 'A' <= c <= 'Z' then c - 'A' + 'a'
    else if c == '\U{212A}' then 'k'
    else if c == '\U{017F}' then 's'
    else if c == '\U{0130}' || c == '\U{0131}' then 'i'
    else c
  }

  function FoldText(s: string): string
  {
    seq(|s|, i requires 0 <= i < |s| => Fold(s[i]))
  }

  predicate Contains(s: string, w: string)
  {
    exists i :: 0 <= i <= |s| && StandsAt(s, w, i)
  }

  predicate StandsAt(s: string, w: string, i: nat)
  {
    i + |w| <= |s| && s[i..i + |w|] == w
  }

  /** w stands at the end, or just before a final newline, at the start or after '_' or '-'. */
  predicate EndsAsWord(s: string, w: string)
  {
    || EndsExactly(s, w)
    || (s != "" && s[|s| - 1] == '\n' && EndsExactly(s[..|s| - 1], w))
  }

  predicate EndsExactly(s: string, w: string)
  {
    && |w| <= |s| && s[|s| - |w|..] == w
    && (|w| == |s| || s[|s| - |w| - 1] in "_-")
  }

  const CREDENTIAL_WORDS: seq<string> := [
    "apikey", "api_key", "api-key", "accesskey", "access_key", "access-key",
    "privatekey", "private_key", "private-key", "secret", "password", "passwd", "credential"
  ]

  predicate CredentialSegment(segment: string)
  {
    var s := FoldText(segment);
    || (exists i :: 0 <= i < |CREDENTIAL_WORDS| && Contains(s, CREDENTIAL_WORDS[i]))
    || EndsAsWord(s, "token")
    || EndsAsWord(s, "key")
  }

  /** The letters, and what else is taken for them: the Kelvin sign, the long s and the Turkish i's. */
  lemma {:induction false} FoldedLetter(c: char, letter: char)
    requires 'a' <= letter <= 'z'
    ensures Fold(c) == letter <==>
            || c == letter || c as int == letter as int - 32
            || (letter == 'k' && c as int == 0x212A) || (letter == 's' && c as int == 0x17F)
            || (letter == 'i' && c as int in {0x130, 0x131})
    ensures !('A' <= c <= 'Z') && c as int !in {0x212A, 0x17F, 0x130, 0x131} ==> Fold(c) == c
  {
    assert 'A' as int == 65 && 'Z' as int == 90 && 'a' as int == 97 && 'z' as int == 122;
  }

  /**
    The credential pattern, spelled out on a text in small letters: one of four words
    anywhere; api, access or private followed by key anywhere, with nothing, '_' or '-'
    between; or token or key at the end, at the start or after '_' or '-'.
  */
  ghost predicate CredentialText(s: string)
  {
    || Holds(s, "secret") || Holds(s, "password") || Holds(s, "passwd") || Holds(s, "credential")
    || Holds(s, "apikey") || Holds(s, "api_key") || Holds(s, "api-key")
    || Holds(s, "accesskey") || Holds(s, "access_key") || Holds(s, "access-key")
    || Holds(s, "privatekey") || Holds(s, "private_key") || Holds(s, "private-key")
    || EndsIn(s, "token") || EndsIn(s, "key")
  }

  /** w stands somewhere in s. */
  ghost predicate Holds(s: string, w: string)
  {
    exists before, rest :: s == before + w + rest
  }

  /** s is w, or ends in '_' or '-' and w; a final newline does not count. */
  ghost predicate EndsIn(s: string, w: string)
  {
    || s == w || s == w + "\n"
    || exists before, mark :: mark in ["_", "-"] && (s == before + mark + w || s == before + mark + w + "\n")
  }

  lemma {:induction false} ContainsHolds(s: string, w: string)
    ensures Contains(s, w) <==> Holds(s, w)
  {
    if Contains(s, w) {
      var i: nat :| i <= |s| && StandsAt(s, w, i);
      assert s == s[..i] + w + s[i + |w|..];
    }
    forall before, rest | s == before + w + rest
      ensures Contains(s, w)
    {
      assert StandsAt(s, w, |before|);
    }
  }

  /** s is w or ends in '_' or '-' and w. */
  ghost predicate EndsPlain(s: string, w: string)
  {
    s == w || exists before, mark :: mark in ["_", "-"] && s == before + mark + w
  }

  lemma {:induction false} EndsExactlyPlain(s: string, w: string)
    ensures EndsExactly(s, w) <==> EndsPlain(s, w)
  {
    if EndsExactly(s, w) && |w| < |s| {
      var n := |s| - |w| - 1;
      var mark := s[n..n + 1];
      assert mark == [s[n]] && mark in ["_", "-"];
      assert s == s[..n] + mark + w;
    }
    forall before, mark | mark in ["_", "-"] && s == before + mark + w
      ensures EndsExactly(s, w)
    {
      assert s[|before|] == mark[0] && |s| - |w| - 1 == |before|;
    }
  }

  lemma {:induction false} EndsAsWordIn(s: string, w: string)
    requires w != "" && w[|w| - 1] != '\n'
    ensures EndsAsWord(s, w) <==> EndsIn(s, w)
  {
    EndsExactlyPlain(s, w);
    if s != "" && s[|s| - 1] == '\n' {
      var t := s[..|s| - 1];
      assert s == t + "\n";
      EndsExactlyPlain(t, w);
      forall before, mark | mark in ["_", "-"] && s == before + mark + w + "\n"
        ensures t == before + mark + w
      {
      }
      assert s == w + "\n" ==> t == w;
      forall before, mark | mark in ["_", "-"] && t == before + mark + w
        ensures s == before + mark + w + "\n"
      {
      }
    } else {
      NoNewlineEnd(s, w);
    }
  }

  lemma {:induction false} NoNewlineEnd(s: string, w: string)
    requires s == "" || s[|s| - 1] != '\n'
    ensures EndsIn(s, w) <==> EndsPlain(s, w)
  {
    forall t: string
      ensures s != t + "\n"
    {
      assert (t + "\n")[|t|] == '\n';
    }
    forall before, mark
      ensures s != before + mark + w + "\n"
    {
      assert (before + mark + w + "\n")[|before + mark + w|] == '\n';
    }
  }

  /** A segment is a credential's exactly if, in small letters, it fits the pattern. */
  lemma {:induction false} CredentialPattern(segment: string)
    ensures CredentialSegment(segment) <==> CredentialText(FoldText(segment))
  {
    hide Contains, Holds, EndsAsWord, EndsIn, FoldText;
    var s := FoldText(segment);
    forall w {
      ContainsHolds(s, w);
    }
    EndsAsWordIn(s, "token");
    EndsAsWordIn(s, "key");
    CredentialWordsAre(s);
  }

  lemma {:induction false} CredentialWordsAre(s: string)
    ensures (exists i :: 0 <= i < |CREDENTIAL_WORDS| && Contains(s, CREDENTIAL_WORDS[i])) <==>
            || Contains(s, "secret") || Contains(s, "password") || Contains(s, "passwd") || Contains(s, "credential")
            || Contains(s, "apikey") || Contains(s, "api_key") || Contains(s, "api-key")
            || Contains(s, "accesskey") || Contains(s, "access_key") || Contains(s, "access-key")
            || Contains(s, "privatekey") || Contains(s, "private_key") || Contains(s, "private-key")
  {
    hide Contains;
    var words := CREDENTIAL_WORDS;
    assert words[0] == "apikey" && words[1] == "api_key" && words[2] == "api-key" && words[3] == "accesskey";
    assert words[4] == "access_key" && words[5] == "access-key" && words[6] == "privatekey";
    assert words[7] == "private_key" && words[8] == "private-key" && words[9] == "secret";
    assert words[10] == "password" && words[11] == "passwd" && words[12] == "credential" && |words| == 13;
  }

  function FinalSegment(dotted: string): string
  {
    var parts := Split(dotted, DOT);
    parts[|parts| - 1]
  }

  predicate IsSecretKey(dotted: string)
  {
    CredentialSegment(FinalSegment(dotted))
  }

  /** The path above a key does not matter to its verdict. */
  lemma {:induction false} SecretByKeyAlone(above: string, key: string)
    ensures IsSecretKey(above + [DOT] + key) == IsSecretKey(key)
  {
    SplitConcat(above, key, DOT);
  }

  /** For a key without dots the verdict is the pattern's. */
  lemma {:induction false} SecretKeyPattern(key: string)
    requires Free(key, DOT)
    ensures IsSecretKey(key) <==> CredentialText(FoldText(key))
  {
    SplitOfFree(key, DOT);
    CredentialPattern(key);
  }

  /** The tree with the value of every secret key replaced, whichever keys are secret. */
  function Masked(t: Tree, secret: string -> bool): Tree
    decreases t
  {
    if t.Leaf? then t
    else Dict(map k | k in t.m :: if secret(k) then SECRET_MASK else Masked(t.m[k], secret))
  }

  /** _mask_tree, carrying the dotted prefix along. */
  method MaskTree(data: Tree, prefix: string) returns (masked: Tree)
    requires prefix == "" || prefix[|prefix| - 1] == DOT
    ensures masked == Masked(data, IsSecretKey)
    decreases data
  {
    if data.Leaf? {
      return data;
    }
    var out: map<string, Tree> := map[];
    var todo := data.m.Keys;
    while todo != {}
      invariant todo <= data.m.Keys
      invariant out.Keys == data.m.Keys - todo
      invariant forall k :: k in out ==> out[k] == Masked(data, IsSecretKey).m[k]
      decreases todo
    {
      var key :| key in todo;
      var dotted := prefix + key;
      if prefix != "" {
        SecretByKeyAlone(prefix[..|prefix| - 1], key);
        assert prefix == prefix[..|prefix| - 1] + [DOT];
      } else {
        assert dotted == key;
      }
      if IsSecretKey(dotted) {
        out := out[key := SECRET_MASK];
      } else {
        var inner := MaskTree(data.m[key], dotted + [DOT]);
        out := out[key := inner];
      }
      todo := todo - {key};
    }
    masked := Dict(out);
  }

  /** The two trees differ, if at all, only below secret keys. */
  ghost predicate SameOffSecrets(t: Tree, u: Tree, secret: string -> bool)
    decreases t
  {
    if t.Dict? && u.Dict? then
      t.m.Keys == u.m.Keys && forall k :: k in t.m && !secret(k) ==> SameOffSecrets(t.m[k], u.m[k], secret)
    else t == u
  }

  /** Masking shows exactly what lies off the secret keys: no more, and no less. */
  lemma {:induction false} MaskingNonInterference(t: Tree, u: Tree, secret: string -> bool)
    ensures Masked(t, secret) == Masked(u, secret) <==> SameOffSecrets(t, u, secret)
  {
    if t.Dict? && u.Dict? {
      forall k | k in t.m && k in u.m
        ensures Masked(t.m[k], secret) == Masked(u.m[k], secret) <==> SameOffSecrets(t.m[k], u.m[k], secret)
      {
        MaskingNonInterference(t.m[k], u.m[k], secret);
      }
      var a, b := Masked(t, secret).m, Masked(u, secret).m;
      assert a.Keys == t.m.Keys && b.Keys == u.m.Keys;
      if a == b {
        forall k | k in t.m && !secret(k)
          ensures SameOffSecrets(t.m[k], u.m[k], secret)
        {
          assert a[k] == b[k];
        }
      }
      if SameOffSecrets(t, u, secret) {
        assert a == b;
      }
    }
  }

  lemma {:induction false} MaskingIdempotent(t: Tree, secret: string -> bool)
    ensures Masked(Masked(t, secret), secret) == Masked(t, secret)
  {
    if t.Dict? {
      var once := Masked(t, secret);
      forall k | k in t.m
        ensures Masked(once, secret).m[k] == once.m[k]
      {
        MaskingIdempotent(t.m[k], secret);
      }
      assert Masked(once, secret).m == once.m;
    }
  }

  /** A value with no secret key on its path is still there, itself masked; leaves are unchanged. */
  lemma {:induction false} ClearPath(t: Tree, p: Path, secret: string -> bool)
    requires forall i :: 0 <= i < |p| ==> !secret(p[i])
    ensures Get(Masked(t, secret), p) == if Get(t, p).Some? then Some(Masked(Get(t, p).value, secret)) else None
    ensures forall v :: Terminal(v) && Get(t, p) == Some(v) ==> Get(Masked(t, secret), p) == Some(v)
  {
    if p == [] {
      assert t == EMPTY ==> Masked(t, secret).m == map[];
    } else if t.Dict? && p[0] in t.m {
      ClearPath(t.m[p[0]], p[1..], secret);
    }
  }

  /** Nothing at or below a secret key is left. */
  lemma {:induction false} SecretPath(t: Tree, p: Path, q: Path, secret: string -> bool)
    requires p != [] && secret(p[|p| - 1]) && (forall i :: 0 <= i < |p| - 1 ==> !secret(p[i]))
    ensures Get(Masked(t, secret), p + q) == if Get(t, p).Some? && q == [] then Some(Leaf(Str("***"))) else None
  {
    assert (p + q)[0] == p[0] && (p + q)[1..] == p[1..] + q;
    if t.Dict? && p[0] in t.m {
      if |p| == 1 {
        assert p[1..] + q == q;
        assert Get(SECRET_MASK, q) == if q == [] then Some(SECRET_MASK) else None;
      } else {
        SecretPath(t.m[p[0]], p[1..], q, secret);
      }
    }
  }
}
