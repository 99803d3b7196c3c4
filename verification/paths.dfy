/** The two path helpers of the forwarding engine: the top-level segment
    of an Open Sound Control address and the address with that segment
    removed. Both work on `path.split('/')`. */
module Paths {
  import opened Results
  import opened Text

  /** The routing key of a message: piece 1 of `path.split('/')`, which is
      the text between the first `/` and the next one (or the end). A path
      without any `/` has no piece 1 and the lookup fails. */
  function PathPrefix(path: string): (r: Option<string>)
    ensures r.Some? <==> '/' in path
    ensures r.Some? ==> '/' !in r.value
    ensures r.Some? ==>
      r.value == BeforeFirst(path[IndexOf(path, '/') + 1..], '/')
  {
    var parts := SplitOn(path, '/');
    if |parts| >= 2 then
      SplitOnStep(path, '/');
      Some(parts[1])
    else None
  }

  /** The path with its leading piece and top-level segment removed: the
      concatenation of `'/' + piece` over pieces 2 onwards of
      `path.split('/')`, empty when there are fewer than three pieces. */
  function TruncatePathPrefix(path: string): (r: string)
    ensures r == [] || r[0] == '/'
  {
    var parts := SplitOn(path, '/');
    if |parts| >= 2 then Prefixed(parts[2..], '/') else ""
  }

  /** Putting a separator in front of every piece of a split is the same
      as putting one separator in front of the whole string. */
  lemma {:induction false} PrefixedSplit(x: string, c: char)
    ensures Prefixed(SplitOn(x, c), c) == [c] + x
  {
    var ps := SplitOn(x, c);
    JoinIsHeadThenPrefixed(ps, c);
    JoinSplit(x, c);
  }

  /** Everything from the first separator on, rebuilt from the pieces
      after the first: the separator and what follows it, or nothing. */
  lemma {:induction false} PrefixedTail(rest: string, c: char)
    ensures c !in rest ==> Prefixed(SplitOn(rest, c)[1..], c) == ""
    ensures c in rest ==> Prefixed(SplitOn(rest, c)[1..], c) == rest[IndexOf(rest, c)..]
  {
    if c in rest {
      var j := IndexOf(rest, c);
      var after := rest[j + 1..];
      SplitOnStep(rest, c);
      assert SplitOn(rest, c)[1..] == SplitOn(after, c);
      PrefixedSplit(after, c);
      assert rest[j..] == [c] + after;
    } else {
      assert SplitOn(rest, c)[1..] == [];
    }
  }

  /** With a `/` present, truncation rebuilds the pieces after the prefix
      from the text that follows the first `/`. */
  lemma {:induction false} TruncateAfterFirstSlash(path: string)
    requires '/' in path
    ensures TruncatePathPrefix(path)
            == Prefixed(SplitOn(path[IndexOf(path, '/') + 1..], '/')[1..], '/')
  {
    var i := IndexOf(path, '/');
    var rest := path[i + 1..];
    var parts := SplitOn(path, '/');
    var after := SplitOn(rest, '/');
    SplitOnStep(path, '/');
    assert parts == [path[..i]] + after;
    assert parts[2..] == after[1..];
    assert TruncatePathPrefix(path) == Prefixed(parts[2..], '/');
  }

  /** Truncation keeps exactly what follows the top-level segment: from the
      second `/` to the end, or nothing when there is no second `/`. */
  lemma {:induction false} TruncateKeepsRemainder(path: string)
    ensures '/' !in path ==> TruncatePathPrefix(path) == ""
    ensures '/' in path ==>
      var rest := path[IndexOf(path, '/') + 1..];
      TruncatePathPrefix(path) == rest[IndexOf(rest, '/')..]
  {
    if '/' in path {
      var rest := path[IndexOf(path, '/') + 1..];
      TruncateAfterFirstSlash(path);
      PrefixedTail(rest, '/');
      if '/' !in rest {
        assert IndexOf(rest, '/') == |rest|;
      }
    }
  }

  /** The prefix is the text between the first `/` and the next one. */
  lemma {:induction false} PrefixBetweenSlashes(path: string)
    requires '/' in path
    ensures
      var rest := path[IndexOf(path, '/') + 1..];
      PathPrefix(path).value == rest[..IndexOf(rest, '/')]
  {
    var rest := path[IndexOf(path, '/') + 1..];
    assert PathPrefix(path).value == BeforeFirst(rest, '/');
    BeforeFirstIsTake(rest, '/');
  }

  /** Splitting a string at a separator position and then once more. */
  lemma {:induction false} Reassemble(path: string, i: nat, j: nat)
    requires i < |path| && path[i] == '/'
    requires j <= |path| - (i + 1)
    ensures path == path[..i] + "/" + path[i + 1..][..j] + path[i + 1..][j..]
  {
    var rest := path[i + 1..];
    assert rest == rest[..j] + rest[j..];
    assert path == path[..i] + "/" + rest;
  }

  /** A path containing `/` is its leading piece, a `/`, its prefix and its
      truncated form, in that order. */
  lemma {:induction false} PathRoundTrip(path: string)
    requires '/' in path
    ensures path == SplitOn(path, '/')[0] + "/" + PathPrefix(path).value
                    + TruncatePathPrefix(path)
  {
    var i := IndexOf(path, '/');
    var rest := path[i + 1..];
    var j := IndexOf(rest, '/');
    var head := SplitOn(path, '/')[0];
    var prefix := PathPrefix(path).value;
    var tail := TruncatePathPrefix(path);
    assert head == path[..i] by {
      BeforeFirstIsTake(path, '/');
    }
    assert prefix == rest[..j] by {
      PrefixBetweenSlashes(path);
    }
    assert tail == rest[j..] by {
      TruncateKeepsRemainder(path);
    }
    Reassemble(path, i, j);
  }

  /** For an address starting with `/`, the prefix and the truncated path
      rebuild the address. */
  lemma {:induction false} SlashPathRoundTrip(path: string)
    requires |path| > 0 && path[0] == '/'
    ensures "/" + PathPrefix(path).value + TruncatePathPrefix(path) == path
  {
    LeadingSlashHead(path);
    PathRoundTrip(path);
  }

  /** An address starting with `/` has an empty leading piece. */
  lemma {:induction false} LeadingSlashHead(path: string)
    requires |path| > 0 && path[0] == '/'
    ensures '/' in path && SplitOn(path, '/')[0] == ""
  {
    assert path[0] in path;
    SplitOnStep(path, '/');
  }

  /** A rule prefix containing `/` can never equal a message's prefix. */
  lemma {:induction false} SlashedPrefixNeverMatches(rulePrefix: string, path: string)
    requires '/' in rulePrefix
    ensures PathPrefix(path) != Some(rulePrefix)
  {
  }

  /** A message addressed `/a/b` has prefix `a` and truncates to `/b`
      whatever further segments `b` holds. */
  lemma {:induction false} NestedPath(a: string, b: string)
    requires '/' !in a
    ensures PathPrefix("/" + a + "/" + b) == Some(a)
    ensures TruncatePathPrefix("/" + a + "/" + b) == "/" + b
  {
    NestedPathPrefix(a, b);
    NestedPathTruncate(a, b);
  }

  lemma {:induction false} NestedPathPrefix(a: string, b: string)
    requires '/' !in a
    ensures PathPrefix("/" + a + "/" + b) == Some(a)
  {
    var p := "/" + a + "/" + b;
    var rest := a + "/" + b;
    NestedPathSlashes(a, b);
    PrefixBetweenSlashes(p);
    assert rest[..|a|] == a;
  }

  lemma {:induction false} NestedPathTruncate(a: string, b: string)
    requires '/' !in a
    ensures TruncatePathPrefix("/" + a + "/" + b) == "/" + b
  {
    var p := "/" + a + "/" + b;
    var rest := a + "/" + b;
    NestedPathSlashes(a, b);
    TruncateKeepsRemainder(p);
    assert rest[|a|..] == "/" + b;
  }

  /** Where the first two separators of `/a/b` sit. */
  lemma {:induction false} NestedPathSlashes(a: string, b: string)
    requires '/' !in a
    ensures IndexOf("/" + a + "/" + b, '/') == 0
    ensures ("/" + a + "/" + b)[1..] == a + "/" + b
    ensures IndexOf(a + "/" + b, '/') == |a|
  {
    var rest := a + "/" + b;
    IndexOfAfter("", '/', rest);
    assert "/" + a + "/" + b == "" + ['/'] + rest;
    IndexOfAfter(a, '/', b);
  }

  /** A message addressed `/a` with no further segment has prefix `a` and
      truncates to the empty path. */
  lemma {:induction false} TopLevelPath(a: string)
    requires '/' !in a
    ensures PathPrefix("/" + a) == Some(a)
    ensures TruncatePathPrefix("/" + a) == ""
  {
    var p := "/" + a;
    assert IndexOf(p, '/') == 0 && p[1..] == a by {
      IndexOfAfter("", '/', a);
      assert p == "" + ['/'] + a;
    }
    assert IndexOf(a, '/') == |a|;
    assert a[..|a|] == a;
    PrefixBetweenSlashes(p);
    TruncateKeepsRemainder(p);
  }

}
