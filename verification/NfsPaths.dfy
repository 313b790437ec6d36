/** Path components kept once each in a growing pool, so that a path fits into a file
    handle as a few small numbers. */
module NfsPaths {
  import opened Bytes

  const MAX_TOKENS := 0x8000

  /** What a component can be: a C string of less than 1024 bytes. */
  predicate Storable(s: seq<byte>) { 0 !in s && |s| < 1024 }

  /** The pool that holds these strings, each with its NUL. */
  function Pool(names: seq<seq<byte>>): seq<byte> {
    if names == [] then [] else Pool(names[..|names| - 1]) + (names[|names| - 1] + [0])
  }

  lemma {:induction false} PoolHolds(names: seq<seq<byte>>, i: nat)
    requires i < |names|
    ensures At(Pool(names), |Pool(names[..i])|, names[i] + [0])
    decreases |names|
  {
    var init, last := names[..|names| - 1], names[|names| - 1] + [0];
    if i < |names| - 1 {
      PoolHolds(init, i);
      assert init[..i] == names[..i];
      AtInside(Pool(init) + last, 0, Pool(init), |Pool(init[..i])|, names[i] + [0]) by {
        AtFront(Pool(init), last, []);
        assert Pool(init) + last + [] == Pool(init) + last;
      }
    }
  }

  lemma PoolGrows(names: seq<seq<byte>>, s: seq<byte>)
    ensures Pool(names + [s]) == Pool(names) + (s + [0])
  {
    assert (names + [s])[..|names|] == names;
  }

  /** The whole pool ends where its last string does. */
  lemma PoolEnd(names: seq<seq<byte>>)
    requires names != []
    ensures |Pool(names)| == |Pool(names[..|names| - 1])| + |names[|names| - 1]| + 1
  {
  }

  // ---------- paths ----------

  /** The length of the run of characters before the first slash. */
  function Span(s: seq<byte>): (n: nat)
    ensures n <= |s| && SLASH !in s[..n] && (n < |s| ==> s[n] == SLASH)
  {
    if s == [] || s[0] == SLASH then 0 else 1 + Span(s[1..])
  }

  /** The components of a path: its runs of characters other than slashes. */
  function Components(s: seq<byte>): (cs: seq<seq<byte>>)
    ensures forall i :: 0 <= i < |cs| ==> cs[i] != [] && SLASH !in cs[i]
  {
    if s == [] then []
    else if s[0] == SLASH then Components(s[1..])
    else [s[..Span(s)]] + Components(s[Span(s)..])
  }

  /** Components written as a path, each behind a slash. */
  function Joined(cs: seq<seq<byte>>): seq<byte> {
    if cs == [] then [] else [SLASH] + cs[0] + Joined(cs[1..])
  }

  function Canonical(path: seq<byte>): seq<byte> { Joined(Components(path)) }

  ghost predicate Proper(cs: seq<seq<byte>>) {
    forall i :: 0 <= i < |cs| ==> cs[i] != [] && SLASH !in cs[i]
  }

  /** A canonical path has the components that it was made of. */
  lemma {:induction false} ComponentsOfJoined(cs: seq<seq<byte>>)
    requires Proper(cs)
    ensures Components(Joined(cs)) == cs
  {
    if cs != [] {
      ComponentsOfJoined(cs[1..]);
      FirstComponent(cs[0], Joined(cs[1..]));
    }
  }

  lemma FirstComponent(c: seq<byte>, rest: seq<byte>)
    requires c != [] && SLASH !in c && (rest == [] || rest[0] == SLASH)
    ensures Components([SLASH] + c + rest) == [c] + Components(rest)
  {
    var s := c + rest;
    assert ([SLASH] + c + rest)[1..] == s;
    SpanOf(c, rest);
    assert s[..|c|] == c && s[|c|..] == rest;
    assert s[0] == c[0] && c[0] in c;
  }

  lemma {:induction false} SpanOf(c: seq<byte>, rest: seq<byte>)
    requires SLASH !in c && (rest == [] || rest[0] == SLASH)
    ensures Span(c + rest) == |c|
  {
    if c != [] {
      assert (c + rest)[1..] == c[1..] + rest;
      SpanOf(c[1..], rest);
    }
  }

  /** Two paths have the same canonical form exactly when they have the same components. */
  lemma CanonicalIffComponents(a: seq<byte>, b: seq<byte>)
    ensures Canonical(a) == Canonical(b) <==> Components(a) == Components(b)
    ensures Canonical(Canonical(a)) == Canonical(a)
  {
    ComponentsOfJoined(Components(a));
    ComponentsOfJoined(Components(b));
  }

  /** A path is canonical when it is empty, or starts with a slash (47) and has neither two
      slashes in a row nor one at its end. */
  ghost predicate IsCanonical(c: seq<byte>) {
    c != [] ==> c[0] == 47 && c[|c| - 1] != 47 && forall i :: 0 <= i < |c| - 1 ==> c[i] != 47 || c[i + 1] != 47
  }

  /** What a path is made of besides slashes. */
  function Letters(s: seq<byte>): seq<byte> {
    if s == [] then [] else (if s[0] == 47 then [] else [s[0]]) + Letters(s[1..])
  }

  /** The canonical form is canonical, and has the letters of the path in their order. */
  lemma CanonicalForm(path: seq<byte>)
    ensures IsCanonical(Canonical(path)) && Letters(Canonical(path)) == Letters(path)
  {
    JoinedIsCanonical(Components(path));
    LettersOfJoined(Components(path));
    LettersOfPath(path);
  }

  lemma {:induction false} JoinedIsCanonical(cs: seq<seq<byte>>)
    requires Proper(cs)
    ensures IsCanonical(Joined(cs))
  {
    if cs != [] {
      JoinedIsCanonical(cs[1..]);
      CanonicalMore(cs[0], Joined(cs[1..]));
    }
  }

  lemma CanonicalMore(c: seq<byte>, rest: seq<byte>)
    requires c != [] && 47 !in c && IsCanonical(rest)
    ensures IsCanonical([47] + c + rest)
  {
    var s := [47] + c + rest;
    forall i | 0 <= i < |s| - 1 ensures s[i] != 47 || s[i + 1] != 47 {
      if i < |c| {
        assert s[i + 1] == c[i] && c[i] in c;
      } else if i == |c| {
        assert s[i] == c[i - 1] && c[i - 1] in c;
      } else {
        assert s[i] == rest[i - |c| - 1] && s[i + 1] == rest[i - |c|];
      }
    }
    assert c[|c| - 1] in c;
    assert s[|s| - 1] == if rest == [] then c[|c| - 1] else rest[|rest| - 1];
  }

  lemma {:induction false} LettersAppend(a: seq<byte>, b: seq<byte>)
    ensures Letters(a + b) == Letters(a) + Letters(b)
  {
    if a == [] {
      assert a + b == b;
    } else {
      assert (a + b)[1..] == a[1..] + b;
      LettersAppend(a[1..], b);
    }
  }

  lemma {:induction false} LettersAll(c: seq<byte>)
    requires 47 !in c
    ensures Letters(c) == c
  {
    if c != [] {
      assert c[0] in c;
      LettersAll(c[1..]);
    }
  }

  lemma {:induction false} LettersOfJoined(cs: seq<seq<byte>>)
    requires Proper(cs)
    ensures Letters(Joined(cs)) == Flatten(cs)
  {
    if cs != [] {
      LettersOfJoined(cs[1..]);
      LettersBehind(cs[0], Joined(cs[1..]));
    }
  }

  lemma LettersBehind(c: seq<byte>, rest: seq<byte>)
    requires 47 !in c
    ensures Letters([47] + c + rest) == c + Letters(rest)
  {
    var s := [47] + c + rest;
    assert s[0] == 47 && s[1..] == c + rest;
    LettersAppend(c, rest);
    LettersAll(c);
  }

  lemma {:induction false} LettersOfPath(s: seq<byte>)
    ensures Letters(s) == Flatten(Components(s))
    decreases |s|
  {
    if s != [] {
      if s[0] == SLASH {
        LettersOfPath(s[1..]);
      } else {
        var n := Span(s);
        assert s == s[..n] + s[n..];
        LettersAppend(s[..n], s[n..]);
        LettersAll(s[..n]);
        LettersOfPath(s[n..]);
      }
    }
  }

  /** A canonical path is its own canonical form. */
  lemma {:induction false} CanonicalStays(c: seq<byte>)
    requires IsCanonical(c)
    ensures Canonical(c) == c
    decreases |c|
  {
    if c != [] {
      var s := c[1..];
      var n := Span(s);
      assert s[0] == c[1];
      CanonicalRest(c, n);
      CanonicalStays(s[n..]);
      assert Components(c) == Components(s) == [s[..n]] + Components(s[n..]);
      JoinedMore(s[..n], Components(s[n..]));
      assert c == [SLASH] + s[..n] + s[n..];
    }
  }

  lemma JoinedMore(c: seq<byte>, cs: seq<seq<byte>>)
    ensures Joined([c] + cs) == [SLASH] + c + Joined(cs)
  {
    assert ([c] + cs)[1..] == cs;
  }

  lemma CanonicalRest(c: seq<byte>, n: nat)
    requires IsCanonical(c) && c != [] && n == Span(c[1..])
    ensures |c| > 1 && IsCanonical(c[1..][n..]) && n > 0
  {
    assert |c| > 1;
    var r := c[1..][n..];
    forall i | 0 <= i < |r| - 1 ensures r[i] != 47 || r[i + 1] != 47 {
      assert r[i] == c[i + 1 + n] && r[i + 1] == c[i + 2 + n];
    }
  }

  /** Where each component of a list stands in the pool. */
  ghost predicate Names(names: seq<seq<byte>>, tokens: seq<nat>, cs: seq<seq<byte>>) {
    |tokens| == |cs| && forall i :: 0 <= i < |tokens| ==> 0 < tokens[i] < |names| && names[tokens[i]] == cs[i]
  }

  /** The path that a list of tokens stands for. */
  function Decoded(names: seq<seq<byte>>, tokens: seq<nat>): seq<byte>
    requires forall i :: 0 <= i < |tokens| ==> tokens[i] < |names|
  {
    if tokens == [] then [] else [SLASH] + names[tokens[0]] + Decoded(names, tokens[1..])
  }

  /** A handle goes on standing for the same path when the pool grows. */
  lemma {:induction false} DecodedLater(names: seq<seq<byte>>, later: seq<seq<byte>>, tokens: seq<nat>, cs: seq<seq<byte>>)
    requires Names(names, tokens, cs) && names <= later
    ensures Names(later, tokens, cs) && Decoded(later, tokens) == Joined(cs)
  {
    forall i | 0 <= i < |tokens| ensures 0 < tokens[i] < |later| && later[tokens[i]] == cs[i] {
      assert names[tokens[i]] == cs[i];
    }
    if tokens != [] {
      assert Names(names, tokens[1..], cs[1..]) by {
        forall i | 0 <= i < |tokens[1..]| ensures 0 < tokens[1..][i] < |names| && names[tokens[1..][i]] == cs[1..][i] {
          assert tokens[i + 1] == tokens[1..][i] && names[tokens[i + 1]] == cs[i + 1];
        }
      }
      DecodedLater(names, later, tokens[1..], cs[1..]);
    }
  }

  lemma NamesMore(names: seq<seq<byte>>, later: seq<seq<byte>>, tokens: seq<nat>, cs: seq<seq<byte>>, t: nat, c: seq<byte>)
    requires Names(names, tokens, cs) && names <= later && 0 < t < |later| && later[t] == c
    ensures Names(later, tokens + [t], cs + [c])
  {
    forall i | 0 <= i < |tokens| ensures 0 < tokens[i] < |later| && later[tokens[i]] == cs[i] {
      assert names[tokens[i]] == cs[i];
    }
  }

  /** The token of a string that is not empty is not 0. */
  lemma NotEmpty(names: seq<seq<byte>>, later: seq<seq<byte>>, t: nat, c: seq<byte>)
    requires names != [] && names[0] == [] && names <= later && t < |later| && later[t] == c && c != []
    ensures t > 0
  {
  }

  /** Handles are equal exactly when their paths have the same canonical form. */
  lemma HandleIffPath(names: seq<seq<byte>>, s: seq<nat>, t: seq<nat>, a: seq<byte>, b: seq<byte>)
    requires Distinct(names) && Names(names, s, Components(a)) && Names(names, t, Components(b))
    ensures s == t <==> Canonical(a) == Canonical(b)
  {
    CanonicalIffComponents(a, b);
    if s == t {
      forall i | 0 <= i < |s| ensures Components(a)[i] == Components(b)[i] {
        assert names[s[i]] == Components(a)[i] && names[t[i]] == Components(b)[i];
      }
    }
    if Components(a) == Components(b) {
      forall i | 0 <= i < |s| ensures s[i] == t[i] {
        assert names[s[i]] == names[t[i]];
      }
    }
  }

  // ---------- the pool ----------

  class PathPool {
    var stringcache: array?<byte>
    var subpathsLen: nat
    /** Where each string starts, by token. */
    var subpaths: seq<nat>
    /** The string of each token; token 0 stands for the empty string. */
    ghost var names: seq<seq<byte>>

    constructor ()
      ensures Valid() && names == [[]]
    {
      stringcache, subpathsLen, subpaths, names := null, 0, [], [[]];
    }

    /** Tokens and strings correspond one to one, and nothing is larger than what was
        allocated for it. */
    ghost predicate Valid()
      reads this, stringcache
    {
      && names != [] && names[0] == [] && Distinct(names) && |names| < MAX_TOKENS
      && (forall i :: 0 <= i < |names| ==> Storable(names[i]))
      && if stringcache == null then names == [[]]
         else
           && 2048 <= stringcache.Length && |Pool(names)| <= stringcache.Length
           && stringcache[..|Pool(names)|] == Pool(names)
           && 1024 <= subpathsLen && |subpaths| == |names| <= subpathsLen
           && forall i {:trigger subpaths[i]} :: 0 <= i < |names| ==> subpaths[i] == |Pool(names[..i])|
    }

    lemma Stored(i: nat)
      requires Valid() && stringcache != null && i < |names|
      ensures subpaths[i] + |names[i]| < stringcache.Length
      ensures At(stringcache[..], subpaths[i], names[i] + [0])
    {
      PoolHolds(names, i);
      var pool := Pool(names);
      assert stringcache[..][..|pool|] == pool;
      AtInside(stringcache[..], 0, pool, subpaths[i], names[i] + [0]);
    }

    /** The length of a string. */
    method StrLen(i: nat) returns (n: nat)
      requires Valid() && stringcache != null && i < |names|
      ensures n == |names[i]|
    {
      ghost var off, s := subpaths[i], names[i] + [0];
      Stored(i);
      n := 0;
      while stringcache[subpaths[i] + n] != 0
        invariant n < |s| && forall j :: 0 <= j < n ==> s[j] != 0
        invariant At(stringcache[..], off, s)
        decreases |s| - n
      {
        assert stringcache[..][off..off + |s|][n] == s[n];
        n := n + 1;
      }
      assert stringcache[..][off..off + |s|][n] == s[n];
    }

    /** Whether a string of the pool is the one given. */
    method Same(path: seq<byte>, i: nat) returns (same: bool)
      requires Valid() && stringcache != null && i < |names| && Storable(path)
      ensures same <==> path == names[i]
    {
      ghost var off, s := subpaths[i], names[i] + [0];
      Stored(i);
      var n := 0;
      while n < |path| && stringcache[subpaths[i] + n] == path[n]
        invariant n <= |path| && n < |s| && path[..n] == names[i][..n]
        invariant At(stringcache[..], off, s)
      {
        assert stringcache[..][off..off + |s|][n] == s[n];
        assert path[n] in path;
        n := n + 1;
      }
      assert stringcache[..][off..off + |s|][n] == s[n];
      same := n == |path| && stringcache[subpaths[i] + n] == 0;
      if same {
        assert path[..n] == path && names[i][..n] == names[i];
      }
    }

    /** Sets up the pool with the empty string. */
    method CreateCache() returns (used: nat)
      requires Valid() && stringcache == null
      modifies this`stringcache, this`subpathsLen, this`subpaths
      ensures Valid() && stringcache != null && fresh(stringcache) && stringcache.Length == 2048
      ensures used == |Pool(names)| == 1 && |names| < subpathsLen
    {
      subpathsLen, subpaths := 1024, [0];
      stringcache := new byte[2048](_ => 0);
      assert Pool([[]]) == [0] && Pool([]) == [] && names[..0] == [];
      used := 1;
    }

    /** Sets up the pool with the empty string, or makes room for one more string. */
    method MakeRoom(n: nat) returns (used: nat)
      requires Valid() && n <= 1024
      modifies this`stringcache, this`subpathsLen, this`subpaths
      ensures Valid() && stringcache != null && (stringcache == old(stringcache) || fresh(stringcache))
      ensures used == |Pool(names)| && used + n <= stringcache.Length && |names| < subpathsLen
    {
      if stringcache == null {
        used := CreateCache();
        return;
      }
      if |subpaths| >= subpathsLen {
        subpathsLen := subpathsLen + subpathsLen / 2;
      }
      var last := StrLen(|subpaths| - 1);
      used := subpaths[|subpaths| - 1] + last + 1;
      PoolEnd(names);
      if used + n > stringcache.Length {
        GrowCache();
      }
    }

    /** Makes the pool half as large again. */
    method GrowCache()
      requires Valid() && stringcache != null
      modifies this`stringcache
      ensures Valid() && stringcache != null && fresh(stringcache)
      ensures stringcache.Length == old(stringcache.Length) + old(stringcache.Length) / 2
    {
      var grown := new byte[stringcache.Length + stringcache.Length / 2];
      for i := 0 to stringcache.Length
        invariant Valid() && stringcache == old(stringcache) && fresh(grown) && grown != stringcache
        invariant forall j :: 0 <= j < i ==> grown[j] == stringcache[j]
      {
        grown[i] := stringcache[i];
      }
      assert grown[..|Pool(names)|] == stringcache[..|Pool(names)|];
      stringcache := grown;
    }

    /** The token of a string, which is added when it is new. */
    method AddSubpath(path: seq<byte>) returns (token: nat)
      requires Valid() && Storable(path) && |names| < MAX_TOKENS - 1
      modifies this, stringcache
      ensures Valid() && (stringcache == old(stringcache) || fresh(stringcache))
      ensures names == if path in old(names) then old(names) else old(names) + [path]
      ensures token < |names| && names[token] == path
    {
      var used := MakeRoom(|path| + 1);
      var found;
      found, token := Find(path);
      if !found {
        Append(path, used);
        token := |subpaths| - 1;
      }
    }

    /** The token of a string that is in the pool. */
    method Find(path: seq<byte>) returns (found: bool, n: nat)
      requires Valid() && stringcache != null && Storable(path)
      ensures found <==> path in names
      ensures found ==> n < |names| && names[n] == path
    {
      n := 0;
      while n < |subpaths|
        invariant n <= |names| && path !in names[..n]
      {
        var same := Same(path, n);
        if same {
          return true, n;
        }
        assert names[..n + 1] == names[..n] + [names[n]];
        n := n + 1;
      }
      assert names[..|names|] == names;
      return false, n;
    }

    /** Copies a string behind the others. */
    method CopyPath(path: seq<byte>, used: nat)
      requires stringcache != null && used + |path| + 1 <= stringcache.Length
      modifies stringcache
      ensures stringcache[..used + |path| + 1] == old(stringcache[..used]) + (path + [0])
    {
      ghost var was := stringcache[..used];
      for i := 0 to |path|
        invariant stringcache[..used + i] == was + path[..i]
      {
        stringcache[used + i] := path[i];
      }
      stringcache[used + |path|] := 0;
      assert stringcache[..used + |path|] == was + path;
    }

    /** Puts a new string behind the others. */
    method Append(path: seq<byte>, used: nat)
      requires Valid() && stringcache != null && Storable(path) && path !in names && |names| < MAX_TOKENS - 1
      requires used == |Pool(names)| && used + |path| + 1 <= stringcache.Length && |names| < subpathsLen
      modifies this`subpaths, this`names, stringcache
      ensures Valid() && names == old(names) + [path] && |subpaths| == |names|
    {
      ghost var was := names;
      CopyPath(path, used);
      PoolGrows(names, path);
      names := names + [path];
      subpaths := subpaths + [used];
      forall i {:trigger subpaths[i]} | 0 <= i < |names| ensures subpaths[i] == |Pool(names[..i])| {
        assert names[..i] == was[..i];
        assert was[..|was|] == was;
      }
    }

    /** Fills in one token of a handle. */
    static method PutToken(encoded: array<nat>, n: nat, token: nat)
      requires n < encoded.Length
      modifies encoded
      ensures encoded[..n + 1] == old(encoded[..n]) + [token] && encoded[n + 1..] == old(encoded[n + 1..])
      ensures old(encoded[n..])[1..] == encoded[n + 1..]
    {
      encoded[n] := token;
    }

    /** The first n tokens of a handle stand for these components, and the rest of it is
        as it was. */
    ghost predicate Encoding(encoded: array<nat>, n: nat, done: seq<seq<byte>>, was: seq<nat>)
      reads this, stringcache, encoded
    {
      && Valid() && n == |done| <= encoded.Length && |was| == encoded.Length
      && Names(names, encoded[..n], done) && encoded[n..] == was[n..]
    }

    /** Fills in the token of one more component. */
    method EncodeNext(c: seq<byte>, encoded: array<nat>, n: nat, ghost done: seq<seq<byte>>, ghost was: seq<nat>)
      requires Encoding(encoded, n, done, was) && n < encoded.Length
      requires Storable(c) && c != [] && |names| < MAX_TOKENS - 1
      modifies this, stringcache, encoded
      ensures Encoding(encoded, n + 1, done + [c], was)
      ensures (stringcache == old(stringcache) || fresh(stringcache)) && old(names) <= names && |names| <= |old(names)| + 1
    {
      ghost var before := names;
      ghost var tokens := encoded[..n];
      var token := AddSubpath(c);
      NotEmpty(before, names, token, c);
      NamesMore(before, names, tokens, done, token, c);
      PutToken(encoded, n, token);
      assert was[n..][1..] == was[n + 1..];
    }

    /** Fills in the tokens of a path's components; the rest of the handle stays. */
    method EncodePath(filepath: seq<byte>, encoded: array<nat>) returns (n: nat)
      requires Valid() && 0 !in filepath && |filepath| < 1024
      requires |Components(filepath)| <= encoded.Length && |names| + |Components(filepath)| < MAX_TOKENS
      modifies this, stringcache, encoded
      ensures Valid() && (stringcache == old(stringcache) || fresh(stringcache)) && old(names) <= names
      ensures n == |Components(filepath)| && Names(names, encoded[..n], Components(filepath))
      ensures encoded[n..] == old(encoded[n..])
      ensures |names| <= |old(names)| + n
    {
      var working := filepath;
      n := 0;
      ghost var done: seq<seq<byte>>, was := [], encoded[..];
      while working != []
        invariant Encoding(encoded, n, done, was)
        invariant (stringcache == old(stringcache) || fresh(stringcache)) && old(names) <= names && |names| <= |old(names)| + n
        invariant 0 !in working && |working| < 1024 && done + Components(working) == Components(filepath)
        decreases |working|
      {
        if working[0] == SLASH {
          working := working[1..];
        } else {
          var c := working[..Span(working)];
          EncodeNext(c, encoded, n, done, was);
          Assoc(done, [c], Components(working[|c|..]));
          done := done + [c];
          n := n + 1;
          working := working[|c|..];
        }
      }
    }

    /** The path of a handle, whose tokens end with 0. */
    method DecodePath(encoded: array<nat>, ghost len: nat) returns (path: seq<byte>)
      requires Valid() && len < encoded.Length && encoded[len] == 0
      requires forall i :: 0 <= i < len ==> 0 < encoded[i] < |names|
      ensures path == Decoded(names, encoded[..len])
    {
      path := [];
      if stringcache == null {
        return;
      }
      var n := 0;
      ghost var rest := encoded[..len];
      assert encoded[0..len] == rest;
      while encoded[n] != 0
        invariant n <= len && rest == encoded[n..len] && path + Decoded(names, rest) == Decoded(names, encoded[..len])
        decreases len - n
      {
        var name := ReadName(encoded[n]);
        Assoc(path, [SLASH] + name, Decoded(names, rest[1..]));
        path := path + ([SLASH] + name);
        n := n + 1;
        rest := rest[1..];
      }
    }

    /** The string of a token. */
    method ReadName(token: nat) returns (name: seq<byte>)
      requires Valid() && stringcache != null && token < |names|
      ensures name == names[token]
    {
      var n := StrLen(token);
      Stored(token);
      name := stringcache[subpaths[token]..subpaths[token] + n];
      ghost var s := names[token] + [0];
      assert stringcache[..][subpaths[token]..subpaths[token] + |s|][..n] == s[..n];
    }
  }

  /** Makes a handle for a path. */
  method MakeHandle(pool: PathPool, path: seq<byte>) returns (encoded: array<nat>, n: nat)
    requires pool.Valid() && 0 !in path && |path| < 1024 && |Components(path)| <= 9 && |pool.names| + 9 < MAX_TOKENS
    modifies pool, pool.stringcache
    ensures pool.Valid() && (pool.stringcache == old(pool.stringcache) || fresh(pool.stringcache))
    ensures old(pool.names) <= pool.names && |pool.names| <= |old(pool.names)| + 9
    ensures fresh(encoded)
    ensures n < encoded.Length && encoded[n] == 0 && Names(pool.names, encoded[..n], Components(path))
  {
    encoded := new nat[10](_ => 0);
    n := pool.EncodePath(path, encoded);
    assert encoded[n..][0] == 0;
  }

  /** A handle made for a path goes on standing for it, however many other paths get
      handles afterwards. */
  method EncodeAndKeep(pool: PathPool, path: seq<byte>, later: seq<seq<byte>>) returns (decoded: seq<byte>)
    requires pool.Valid() && 0 !in path && |path| < 1024 && |Components(path)| <= 9
    requires forall i :: 0 <= i < |later| ==> 0 !in later[i] && |later[i]| < 1024 && |Components(later[i])| <= 9
    requires |pool.names| + 9 * (|later| + 1) < MAX_TOKENS
    modifies pool, pool.stringcache
    ensures pool.Valid() && old(pool.names) <= pool.names
    ensures decoded == Canonical(path)
  {
    var handle, n := MakeHandle(pool, path);
    ghost var names, tokens := pool.names, handle[..n];
    for i := 0 to |later|
      invariant pool.Valid() && (pool.stringcache == old(pool.stringcache) || fresh(pool.stringcache))
      invariant names <= pool.names && |pool.names| <= |names| + 9 * i
      invariant handle[n] == 0 && handle[..n] == tokens
    {
      var other, k := MakeHandle(pool, later[i]);
    }
    DecodedLater(names, pool.names, tokens, Components(path));
    decoded := pool.DecodePath(handle, n);
  }
}
