/** The few Python string operations the forwarding core relies on:
    `s.split(c)`, the argument-less `s.split()`, `s.split(c)[0]` and
    `s.strip(c)`, written out on `seq<char>`. */
module Text {

  /** The characters CPython's argument-less `str.split()` treats as
      whitespace (`str.isspace`). */
  predicate IsSpace(c: char) {
    || c == ' ' || c == '\t' || c == '\n' || c == '\r'
    || c == '\U{0B}' || c == '\U{0C}'
    || ('\U{1C}' <= c <= '\U{1F}')
    || c == '\U{85}' || c == '\U{A0}' || c == '\U{1680}'
    || ('\U{2000}' <= c <= '\U{200A}')
    || c == '\U{2028}' || c == '\U{2029}' || c == '\U{202F}'
    || c == '\U{205F}' || c == '\U{3000}'
  }

  /** A token `str.split()` can produce: non-empty and free of whitespace. */
  predicate IsWord(w: string) {
    |w| > 0 && forall k :: 0 <= k < |w| ==> !IsSpace(w[k])
  }

  /** Position of the first `c` in `s`, or `|s|` when there is none. */
  function IndexOf(s: string, c: char): (n: nat)
    ensures n <= |s|
    ensures forall k :: 0 <= k < n ==> s[k] != c
    ensures n < |s| ==> s[n] == c
    decreases |s|
  {
    if |s| == 0 then 0
    else if s[0] == c then 0
    else 1 + IndexOf(s[1..], c)
  }

  /** Python's `s.split(c)` for a one-character separator: the pieces
      between occurrences of `c`, empty pieces included. */
  function SplitOn(s: string, c: char): (parts: seq<string>)
    ensures |parts| >= 1
    decreases |s|
  {
    var n := IndexOf(s, c);
    if n == |s| then [s]
    else [s[..n]] + SplitOn(s[n + 1..], c)
  }

  /** No piece of a split holds the separator. */
  lemma {:induction false} SplitPiecesFree(s: string, c: char)
    ensures forall i :: 0 <= i < |SplitOn(s, c)| ==> c !in SplitOn(s, c)[i]
    decreases |s|
  {
    if c in s {
      var n := IndexOf(s, c);
      SplitPiecesFree(s[n + 1..], c);
    }
  }

  /** One step of a split: the piece before the first separator, then the
      split of what follows it. */
  lemma {:induction false} SplitOnStep(s: string, c: char)
    requires c in s
    ensures IndexOf(s, c) < |s|
    ensures SplitOn(s, c) == [s[..IndexOf(s, c)]] + SplitOn(s[IndexOf(s, c) + 1..], c)
  {
  }

  /** Python's `c.join(parts)`. */
  function Join(parts: seq<string>, c: char): string
    decreases |parts|
  {
    if |parts| == 0 then ""
    else if |parts| == 1 then parts[0]
    else parts[0] + [c] + Join(parts[1..], c)
  }

  /** The concatenation of `c + p` over the pieces `p`, as Python's
      `''.join(c + p for p in parts)`. */
  function Prefixed(parts: seq<string>, c: char): (r: string)
    ensures |parts| > 0 ==> |r| > 0 && r[0] == c
    decreases |parts|
  {
    if |parts| == 0 then ""
    else [c] + parts[0] + Prefixed(parts[1..], c)
  }

  /** Joining the pieces of a split gives back the original string. */
  lemma {:induction false} JoinSplit(s: string, c: char)
    ensures Join(SplitOn(s, c), c) == s
    decreases |s|
  {
    var n := IndexOf(s, c);
    if n < |s| {
      var rest := s[n + 1..];
      var parts := SplitOn(s, c);
      assert parts == [s[..n]] + SplitOn(rest, c);
      assert |parts| >= 2;
      assert parts[1..] == SplitOn(rest, c);
      assert Join(parts, c) == s[..n] + [c] + Join(SplitOn(rest, c), c);
      JoinSplit(rest, c);
      assert s == s[..n] + [c] + rest;
    }
  }

  /** The first separator of `a + [c] + b` is the one after `a` when `a`
      holds none. */
  lemma {:induction false} IndexOfAfter(a: string, c: char, b: string)
    requires c !in a
    ensures IndexOf(a + [c] + b, c) == |a|
  {
    var s := a + [c] + b;
    assert forall k :: 0 <= k < |a| ==> s[k] == a[k] && a[k] in a;
    assert s[|a|] == c;
  }

  /** Splitting a join of separator-free pieces gives back the pieces. */
  lemma {:induction false} SplitJoin(parts: seq<string>, c: char)
    requires |parts| >= 1
    requires forall i :: 0 <= i < |parts| ==> c !in parts[i]
    ensures SplitOn(Join(parts, c), c) == parts
    decreases |parts|
  {
    if |parts| > 1 {
      var head := parts[0];
      var tail := Join(parts[1..], c);
      var s := head + [c] + tail;
      assert Join(parts, c) == s;
      IndexOfAfter(head, c, tail);
      assert s[..|head|] == head;
      assert s[|head| + 1..] == tail;
      assert SplitOn(s, c) == [head] + SplitOn(tail, c);
      SplitJoin(parts[1..], c);
      assert parts == [head] + parts[1..];
    }
  }

  /** A join is its first piece followed by every other piece behind a
      separator. */
  lemma {:induction false} JoinIsHeadThenPrefixed(parts: seq<string>, c: char)
    requires |parts| >= 1
    ensures Join(parts, c) == parts[0] + Prefixed(parts[1..], c)
    decreases |parts|
  {
    if |parts| > 1 {
      JoinIsHeadThenPrefixed(parts[1..], c);
      assert parts[1..][1..] == parts[2..];
    }
  }

  /** Python's `s.split(c)[0]`: everything before the first `c`. */
  function BeforeFirst(s: string, c: char): (r: string)
    ensures c !in r
    ensures |r| <= |s| && r == s[..|r|]
    ensures |r| < |s| ==> s[|r|] == c
    ensures c !in s ==> r == s
  {
    SplitOn(s, c)[0]
  }

  /** The text before the first separator is the prefix up to its index. */
  lemma {:induction false} BeforeFirstIsTake(s: string, c: char)
    ensures BeforeFirst(s, c) == s[..IndexOf(s, c)]
  {
    if c in s {
      SplitOnStep(s, c);
    } else {
      assert IndexOf(s, c) == |s|;
    }
  }

  /** Length of the leading run of non-whitespace characters of `s`. */
  function WordLength(s: string): (n: nat)
    ensures n <= |s|
    ensures forall k :: 0 <= k < n ==> !IsSpace(s[k])
    ensures n < |s| ==> IsSpace(s[n])
    decreases |s|
  {
    if |s| == 0 || IsSpace(s[0]) then 0
    else 1 + WordLength(s[1..])
  }

  /** Python's argument-less `s.split()`: the maximal runs of
      non-whitespace characters, in order. */
  function Words(s: string): (ws: seq<string>)
    ensures forall i :: 0 <= i < |ws| ==> IsWord(ws[i])
    ensures (forall k :: 0 <= k < |s| ==> IsSpace(s[k])) <==> ws == []
    decreases |s|
  {
    if |s| == 0 then []
    else if IsSpace(s[0]) then
      var ws := Words(s[1..]);
      assert forall k :: 1 <= k < |s| ==> s[k] == s[1..][k - 1];
      ws
    else
      var n := WordLength(s);
      [s[..n]] + Words(s[n..])
  }

  /** Words separated by single spaces split back into the same words. */
  lemma {:induction false} WordsOfJoin(ws: seq<string>)
    requires forall i :: 0 <= i < |ws| ==> IsWord(ws[i])
    ensures Words(Join(ws, ' ')) == ws
    decreases |ws|
  {
    if |ws| == 1 {
      var w := ws[0];
      assert WordLength(w) == |w|;
      assert w[..|w|] == w;
      assert w[|w|..] == [];
      assert Words(w) == [w] + Words([]);
    } else if |ws| > 1 {
      var w := ws[0];
      var tail := Join(ws[1..], ' ');
      var s := w + [' '] + tail;
      assert forall k :: 0 <= k < |w| ==> s[k] == w[k];
      assert s[|w|] == ' ';
      assert WordLength(s) == |w|;
      assert s[..|w|] == w;
      var rest := s[|w|..];
      assert rest[0] == ' ' && rest[1..] == tail;
      assert Words(rest) == Words(tail);
      WordsOfJoin(ws[1..]);
      assert ws == [w] + ws[1..];
    }
  }

  /** A stretch of whitespace only, possibly empty. */
  predicate IsGap(g: string) {
    forall k :: 0 <= k < |g| ==> IsSpace(g[k])
  }

  /** Leading whitespace contributes no words. */
  lemma {:induction false} WordsSkipGap(g: string, s: string)
    requires IsGap(g)
    ensures Words(g + s) == Words(s)
    decreases |g|
  {
    if |g| > 0 {
      var t := g + s;
      assert t[0] == g[0] && IsSpace(t[0]);
      assert t[1..] == g[1..] + s;
      assert Words(t) == Words(t[1..]);
      WordsSkipGap(g[1..], s);
    } else {
      assert g + s == s;
    }
  }

  /** After any leading whitespace, the first word is the whole run of
      non-whitespace up to the next whitespace or the end, and the words
      of the rest follow it. */
  lemma {:induction false} WordsStep(g: string, w: string, rest: string)
    requires IsGap(g) && IsWord(w)
    requires rest == [] || IsSpace(rest[0])
    ensures Words(g + w + rest) == [w] + Words(rest)
  {
    assert g + w + rest == g + (w + rest);
    WordsSkipGap(g, w + rest);
    var s := w + rest;
    assert s[0] == w[0] && !IsSpace(s[0]);
    assert forall k :: 0 <= k < |w| ==> s[k] == w[k];
    assert |rest| > 0 ==> s[|w|] == rest[0];
    var n := WordLength(s);
    assert n == |w|;
    assert s[..n] == w && s[n..] == rest;
  }

  /** A text laid out as `gaps[0] + ws[0] + gaps[1] + … + ws[n-1] +
      gaps[n]`. */
  function Layout(gaps: seq<string>, ws: seq<string>): string
    requires |gaps| == |ws| + 1
    decreases |ws|
  {
    if |ws| == 0 then gaps[0] else gaps[0] + ws[0] + Layout(gaps[1..], ws[1..])
  }

  /** Words separated by whitespace gaps: any gap may hold any whitespace,
      the gaps between two words are non-empty, and the outer ones may be
      empty. */
  predicate WellSpaced(gaps: seq<string>, ws: seq<string>) {
    && |gaps| == |ws| + 1
    && (forall i :: 0 <= i < |gaps| ==> IsGap(gaps[i]))
    && (forall i :: 0 <= i < |ws| ==> IsWord(ws[i]))
    && (forall i :: 0 < i < |ws| ==> |gaps[i]| > 0)
  }

  /** A well-spaced layout splits back into exactly its words, whatever
      whitespace surrounds and separates them. */
  lemma {:induction false} WordsOfLayout(gaps: seq<string>, ws: seq<string>)
    requires WellSpaced(gaps, ws)
    ensures Words(Layout(gaps, ws)) == ws
    decreases |ws|
  {
    if |ws| == 0 {
      assert IsGap(gaps[0]);
    } else {
      var rest := Layout(gaps[1..], ws[1..]);
      if |ws| > 1 {
        assert |gaps[1]| > 0 && IsGap(gaps[1]);
        assert rest == gaps[1] + ws[1] + Layout(gaps[2..], ws[2..]);
        assert rest[0] == gaps[1][0];
      } else {
        assert rest == gaps[1] && IsGap(gaps[1]);
      }
      assert IsGap(gaps[0]) && IsWord(ws[0]);
      WordsStep(gaps[0], ws[0], rest);
      assert WellSpaced(gaps[1..], ws[1..]) by {
        assert forall i :: 0 <= i < |gaps[1..]| ==> gaps[1..][i] == gaps[i + 1];
        assert forall i :: 0 <= i < |ws[1..]| ==> ws[1..][i] == ws[i + 1];
      }
      WordsOfLayout(gaps[1..], ws[1..]);
      assert ws == [ws[0]] + ws[1..];
    }
  }

  /** Python's `s.rstrip(c)`. */
  function TrimEnd(s: string, c: char): (r: string)
    ensures |r| <= |s| && r == s[..|r|]
    ensures forall k :: |r| <= k < |s| ==> s[k] == c
    ensures |r| == 0 || r[|r| - 1] != c
    decreases |s|
  {
    if |s| > 0 && s[|s| - 1] == c then TrimEnd(s[..|s| - 1], c) else s
  }

  /** Length of the leading run of `c` in `s`. */
  function LeadingRun(s: string, c: char): (n: nat)
    ensures n <= |s|
    ensures forall k :: 0 <= k < n ==> s[k] == c
    ensures n < |s| ==> s[n] != c
    decreases |s|
  {
    if |s| > 0 && s[0] == c then 1 + LeadingRun(s[1..], c) else 0
  }

  /** Python's `s.strip(c)`: `s` without its leading and trailing runs of
      `c`. What is left starts right after the leading run. */
  function Strip(s: string, c: char): (r: string)
    ensures |r| == 0 || (r[0] != c && r[|r| - 1] != c)
    ensures LeadingRun(s, c) + |r| <= |s|
    ensures r == s[LeadingRun(s, c)..LeadingRun(s, c) + |r|]
    ensures forall k :: LeadingRun(s, c) + |r| <= k < |s| ==> s[k] == c
  {
    var i := LeadingRun(s, c);
    var r := TrimEnd(s[i..], c);
    assert r == s[i..i + |r|];
    r
  }
}
