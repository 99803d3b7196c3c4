/** The rule-file compiler (`OTWFiles.parseOtwFiles`). The input is the
    concatenated lines of every `.otw` file. Each meaningful line reads
    `<prefix> <+|-> <host:port>...`; everything from the first `#` on is a
    comment. A first pass builds the destination registry, a second one
    the forwarding rules, whose targets are registry identities. */
module OtwRules {
  import opened Results
  import opened Text
  import opened Registry

  /** A forwarding rule `[prefix, truncate, idList]`. */
  datatype Rule = Rule(prefix: string, truncate: bool, ids: seq<nat>)

  /** What the compiler hands to the forwarding engine. */
  datatype OtwData = OtwData(rules: seq<Rule>, targets: seq<Entry>)

  /** Why a rule file is rejected: a rule line without a truncation
      indicator, or with one that is neither `+` nor `-`. */
  datatype CompileError =
    | MissingIndicator(line: string)
    | BadIndicator(line: string, indicator: string)

  /** The fields of a rule-file line: the text before its first `#`,
      split on whitespace. */
  function LineTokens(line: string): (tokens: seq<string>)
    ensures forall i :: 0 <= i < |tokens| ==> IsWord(tokens[i])
    ensures '#' !in line && (forall k :: 0 <= k < |line| ==> IsSpace(line[k])) ==> tokens == []
  {
    Words(BeforeFirst(line, '#'))
  }

  /** A line holding some fields, with any whitespace before, between and
      after them and an optional `#` comment behind, has exactly those
      fields. */
  lemma {:induction false} LineTokensOfLayout(gaps: seq<string>, ws: seq<string>, comment: string)
    requires WellSpaced(gaps, ws) && '#' !in Layout(gaps, ws)
    requires comment == [] || comment[0] == '#'
    ensures LineTokens(Layout(gaps, ws) + comment) == ws
  {
    var body := Layout(gaps, ws);
    var line := body + comment;
    var r := BeforeFirst(line, '#');
    assert forall k :: 0 <= k < |body| ==> line[k] == body[k];
    assert |comment| > 0 ==> line[|body|] == '#';
    assert forall k :: 0 <= k < |body| ==> body[k] != '#';
    assert forall k :: 0 <= k < |r| ==> r[k] != '#';
    assert r == body;
    WordsOfLayout(gaps, ws);
  }

  /** The target tokens of a line: its fields from index 2 on. */
  function TargetTokens(tokens: seq<string>): (ts: seq<string>)
    ensures |ts| == if |tokens| >= 2 then |tokens| - 2 else 0
    ensures forall j :: 0 <= j < |ts| ==> ts[j] == tokens[j + 2]
  {
    if |tokens| >= 2 then tokens[2..] else []
  }

  /** Each token split on `:`. */
  function SplitTargets(ts: seq<string>): (targets: seq<Target>)
    ensures |targets| == |ts|
    ensures forall j :: 0 <= j < |ts| ==> targets[j] == SplitOn(ts[j], ':')
  {
    seq(|ts|, j requires 0 <= j < |ts| => SplitOn(ts[j], ':'))
  }

  /** The targets a line names, in order. */
  function LineTargets(line: string): seq<Target> {
    SplitTargets(TargetTokens(LineTokens(line)))
  }

  /** Every target named anywhere, in file, line and field order,
      repetitions included. */
  function AllTargets(lines: seq<string>): seq<Target>
    decreases |lines|
  {
    if |lines| == 0 then [] else LineTargets(lines[0]) + AllTargets(lines[1..])
  }

  /** The registry the first pass should build: each distinct target once,
      in first-seen order, numbered from 0. */
  function TargetRegistry(lines: seq<string>): seq<Entry> {
    Number(Dedup(AllTargets(lines)))
  }

  lemma {:induction false} AllTargetsAppend(a: seq<string>, b: seq<string>)
    ensures AllTargets(a + b) == AllTargets(a) + AllTargets(b)
    decreases |a|
  {
    if |a| > 0 {
      var ab := a + b;
      assert ab[0] == a[0] && ab[1..] == a[1..] + b;
      AllTargetsAppend(a[1..], b);
      assert AllTargets(ab) == LineTargets(a[0]) + AllTargets(a[1..] + b);
      assert AllTargets(a) == LineTargets(a[0]) + AllTargets(a[1..]);
    } else {
      assert a + b == b;
    }
  }

  /** One more line adds exactly its own targets. */
  lemma {:induction false} AllTargetsStep(lines: seq<string>, n: nat)
    requires n < |lines|
    ensures AllTargets(lines[..n + 1]) == AllTargets(lines[..n]) + LineTargets(lines[n])
  {
    assert lines[..n + 1] == lines[..n] + [lines[n]];
    AllTargetsAppend(lines[..n], [lines[n]]);
    assert AllTargets([lines[n]]) == LineTargets(lines[n]) + AllTargets([]);
  }

  /** Appends the split form of every target token of a line to the
      cumulative target list. */
  method AppendTargets(all: seq<Target>, tokens: seq<string>) returns (all': seq<Target>)
    ensures all' == all + SplitTargets(TargetTokens(tokens))
  {
    var ts := TargetTokens(tokens);
    all' := all;
    var d := 0;
    while d < |ts|
      invariant 0 <= d <= |ts|
      invariant all' == all + SplitTargets(ts[..d])
    {
      assert SplitTargets(ts[..d + 1]) == SplitTargets(ts[..d]) + [SplitOn(ts[d], ':')];
      all' := all' + [SplitOn(ts[d], ':')];
      d := d + 1;
    }
    assert ts[..d] == ts;
  }

  /** The redundancy test: a linear search of the unique list that stops
      at the first equal target. */
  method IsHeld(unique: seq<Target>, target: Target) returns (redundant: bool)
    ensures redundant <==> target in unique
  {
    redundant := false;
    var m := 0;
    while m < |unique|
      invariant 0 <= m <= |unique|
      invariant !redundant
      invariant forall i :: 0 <= i < m ==> unique[i] != target
    {
      if target == unique[m] {
        redundant := true;
        break;
      }
      m := m + 1;
    }
  }

  /** Walks `all` and appends to `unique` each target it does not hold. */
  method Rescan(unique: seq<Target>, all: seq<Target>) returns (unique': seq<Target>)
    ensures unique' == AddUnique(unique, all)
  {
    unique' := unique;
    var k := 0;
    while k < |all|
      invariant 0 <= k <= |all|
      invariant unique' == AddUnique(unique, all[..k])
    {
      var target := all[k];
      var redundant := IsHeld(unique', target);
      assert all[..k + 1] == all[..k] + [target];
      if !redundant {
        unique' := unique' + [target];
      }
      k := k + 1;
    }
    assert all[..k] == all;
  }

  /** Pairs each unique target with its position, as `enumerate` does. */
  method NumberTargets(unique: seq<Target>) returns (registry: seq<Entry>)
    ensures |registry| == |unique|
    ensures forall i :: 0 <= i < |registry| ==> registry[i].id == i && registry[i].target == unique[i]
  {
    registry := [];
    var i := 0;
    while i < |unique|
      invariant 0 <= i <= |unique|
      invariant |registry| == i
      invariant forall j :: 0 <= j < i ==> registry[j] == Entry(j, unique[j])
    {
      registry := registry + [Entry(i, unique[i])];
      i := i + 1;
    }
  }

  /** What one line adds to the first pass: its targets, and the scan of
      everything seen so far from the previous unique list. */
  lemma {:induction false} ScanStep(lines: seq<string>, n: nat)
    requires n < |lines|
    ensures AllTargets(lines[..n + 1])
            == AllTargets(lines[..n]) + SplitTargets(TargetTokens(LineTokens(lines[n])))
    ensures AddUnique(Dedup(AllTargets(lines[..n])), AllTargets(lines[..n + 1]))
            == Dedup(AllTargets(lines[..n + 1]))
    ensures LineTokens(lines[n]) == [] ==> AllTargets(lines[..n + 1]) == AllTargets(lines[..n])
  {
    var before := AllTargets(lines[..n]);
    var named := LineTargets(lines[n]);
    AllTargetsStep(lines, n);
    RescanIsDedup(before, named);
    if LineTokens(lines[n]) == [] {
      assert named == [] && before + named == before;
    }
  }

  /** The first pass as written: for every non-blank line, append its
      targets to the cumulative list of all targets, then walk that whole
      cumulative list and append to the unique list every target it does
      not hold yet; finally number the unique list. */
  method ScanTargets(lines: seq<string>) returns (registry: seq<Entry>)
    ensures registry == TargetRegistry(lines)
  {
    var all: seq<Target> := [];
    var unique: seq<Target> := [];
    var n := 0;
    while n < |lines|
      invariant 0 <= n <= |lines|
      invariant all == AllTargets(lines[..n])
      invariant unique == Dedup(all)
    {
      var tokens := LineTokens(lines[n]);
      ScanStep(lines, n);
      if |tokens| > 0 {
        all := AppendTargets(all, tokens);
        unique := Rescan(unique, all);
      }
      n := n + 1;
    }
    assert lines[..n] == lines;
    registry := NumberTargets(unique);
    assert registry == Number(unique);
  }

  /** Entry `i` of the registry carries identity `i`. */
  lemma {:induction false} RegistryIdentities(lines: seq<string>)
    ensures forall i :: 0 <= i < |TargetRegistry(lines)| ==> TargetRegistry(lines)[i].id == i
  {
  }

  /** The registry holds every target named in the file, nothing else,
      and none twice. */
  lemma {:induction false} RegistryUniqueAndComplete(lines: seq<string>)
    ensures NoDuplicates(Targets(TargetRegistry(lines)))
    ensures forall t :: t in Targets(TargetRegistry(lines)) <==> t in AllTargets(lines)
  {
    TargetsOfNumber(Dedup(AllTargets(lines)));
  }

  /** The registry lists targets in the order of their first mention. */
  lemma {:induction false} RegistryFirstSeenOrder(lines: seq<string>)
    ensures forall i, j :: 0 <= i < j < |TargetRegistry(lines)| ==>
      FirstIndex(AllTargets(lines), TargetRegistry(lines)[i].target)
        < FirstIndex(AllTargets(lines), TargetRegistry(lines)[j].target)
  {
    var d := Dedup(AllTargets(lines));
    DedupFirstSeenOrder(AllTargets(lines));
    forall i | 0 <= i < |d|
      ensures TargetRegistry(lines)[i].target == d[i]
    {
    }
  }

  /** The truncation indicator: exactly `+` keeps the path, exactly `-`
      truncates it, and anything else, or no second field at all, is an
      error. */
  function Indicator(tokens: seq<string>, line: string): (r: Result<bool, CompileError>)
    ensures r == Ok(false) <==> |tokens| >= 2 && tokens[1] == "+"
    ensures r == Ok(true) <==> |tokens| >= 2 && tokens[1] == "-"
    ensures |tokens| < 2 ==> r == Err(MissingIndicator(line))
    ensures |tokens| >= 2 && r.Err? ==> r == Err(BadIndicator(line, tokens[1]))
  {
    if |tokens| < 2 then Err(MissingIndicator(line))
    else if tokens[1] == "+" then Ok(false)
    else if tokens[1] == "-" then Ok(true)
    else Err(BadIndicator(line, tokens[1]))
  }

  /** The identities of a line's target tokens: for each token, the
      identity of the first registry entry equal to its `:`-split form; a
      token with no entry contributes nothing. */
  function ResolveIds(ts: seq<string>, registry: seq<Entry>): (ids: seq<nat>)
    ensures |ids| <= |ts|
    decreases |ts|
  {
    if |ts| == 0 then []
    else
      var here := match Lookup(registry, SplitOn(ts[0], ':'))
        case Some(id) => [id]
        case None => [];
      here + ResolveIds(ts[1..], registry)
  }

  /** When every token's target is registered, resolution never drops a
      token and yields the identity of that target's entry. */
  lemma {:induction false} ResolveRegistered(ts: seq<string>, xs: seq<Target>)
    requires forall j :: 0 <= j < |ts| ==> SplitOn(ts[j], ':') in xs
    ensures |ResolveIds(ts, Number(xs))| == |ts|
    ensures forall j :: 0 <= j < |ts| ==>
      ResolveIds(ts, Number(xs))[j] == FirstIndex(xs, SplitOn(ts[j], ':'))
    decreases |ts|
  {
    if |ts| > 0 {
      LookupNumbered(xs, SplitOn(ts[0], ':'));
      ResolveRegistered(ts[1..], xs);
    }
  }

  /** A line the compiler accepts: blank or comment-only, or with a valid
      truncation indicator. */
  predicate WellFormedLine(line: string) {
    var tokens := LineTokens(line);
    |tokens| == 0 || (|tokens| >= 2 && (tokens[1] == "+" || tokens[1] == "-"))
  }

  /** The rule for one line, or none for a blank or comment-only line. */
  function CompileLine(line: string, registry: seq<Entry>): (r: Result<Option<Rule>, CompileError>)
    ensures r.Ok? <==> WellFormedLine(line)
    ensures r.Ok? ==> (r.value.None? <==> LineTokens(line) == [])
    ensures r.Ok? && r.value.Some? ==> RuleFrom(r.value.value, LineTokens(line), registry)
    ensures r.Err? ==> r.error.line == line
  {
    var tokens := LineTokens(line);
    if |tokens| == 0 then Ok(None)
    else match Indicator(tokens, line)
      case Err(e) => Err(e)
      case Ok(truncate) =>
        Ok(Some(Rule(Strip(tokens[0], '/'), truncate, ResolveIds(TargetTokens(tokens), registry))))
  }

  /** The second pass: one rule per non-blank line, in order, stopping at
      the first line with a bad indicator. */
  function CompileRules(lines: seq<string>, registry: seq<Entry>): (r: Result<seq<Rule>, CompileError>)
    ensures r.Ok? ==> |r.value| <= |lines|
    ensures r.Err? ==> r.error.line in lines && !WellFormedLine(r.error.line)
    decreases |lines|
  {
    if |lines| == 0 then Ok([])
    else match CompileLine(lines[0], registry)
      case Err(e) => Err(e)
      case Ok(None) => CompileRules(lines[1..], registry)
      case Ok(Some(rule)) =>
        match CompileRules(lines[1..], registry)
        case Err(e) => Err(e)
        case Ok(rules) => Ok([rule] + rules)
  }

  /** `parseOtwFiles`: the registry of the first pass and the rules of the
      second. */
  function Compile(lines: seq<string>): (r: Result<OtwData, CompileError>)
    ensures r.Ok? ==> |r.value.rules| <= |lines|
    ensures r.Err? ==> r.error.line in lines && !WellFormedLine(r.error.line)
  {
    var registry := TargetRegistry(lines);
    match CompileRules(lines, registry)
    case Err(e) => Err(e)
    case Ok(rules) => Ok(OtwData(rules, registry))
  }

  /** The fields of the non-blank lines, in order. */
  function RuleLines(lines: seq<string>): (rls: seq<seq<string>>)
    ensures forall k :: 0 <= k < |rls| ==> |rls[k]| > 0
    decreases |lines|
  {
    if |lines| == 0 then []
    else
      var tokens := LineTokens(lines[0]);
      (if |tokens| == 0 then [] else [tokens]) + RuleLines(lines[1..])
  }

  /** The rules pass stops at the first malformed line, with that line's
      error. */
  lemma {:induction false} CompileRulesFailsAtFirst(lines: seq<string>, registry: seq<Entry>, i: nat)
    requires i < |lines| && !WellFormedLine(lines[i])
    requires forall j :: 0 <= j < i ==> WellFormedLine(lines[j])
    ensures CompileLine(lines[i], registry).Err?
    ensures CompileRules(lines, registry) == Err(CompileLine(lines[i], registry).error)
    decreases i
  {
    if i > 0 {
      var rest := lines[1..];
      assert WellFormedLine(lines[0]);
      assert rest[i - 1] == lines[i];
      forall j | 0 <= j < i - 1
        ensures WellFormedLine(rest[j])
      {
        assert rest[j] == lines[j + 1];
      }
      CompileRulesFailsAtFirst(rest, registry, i - 1);
    }
  }

  /** Compilation succeeds exactly when every line is well formed. */
  lemma {:induction false} CompileRulesSucceedsIff(lines: seq<string>, registry: seq<Entry>)
    ensures CompileRules(lines, registry).Ok? <==>
      forall i :: 0 <= i < |lines| ==> WellFormedLine(lines[i])
    decreases |lines|
  {
    if |lines| > 0 {
      CompileRulesSucceedsIff(lines[1..], registry);
      assert forall i :: 1 <= i < |lines| ==> lines[i] == lines[1..][i - 1];
    }
  }

  /** What a rule says about the line it comes from: its prefix is the
      first field without surrounding `/`, its flag is set exactly for
      `-`, and its identities are those of the line's target tokens. */
  predicate RuleFrom(rule: Rule, tokens: seq<string>, registry: seq<Entry>) {
    && |tokens| >= 2
    && rule.prefix == Strip(tokens[0], '/')
    && (rule.truncate <==> tokens[1] == "-")
    && rule.ids == ResolveIds(TargetTokens(tokens), registry)
  }

  /** Rule `k` comes from the `k`-th non-blank line, so there is one rule
      per such line and the rules keep the order of the file. */
  lemma {:induction false} CompileRulesShape(lines: seq<string>, registry: seq<Entry>)
    requires CompileRules(lines, registry).Ok?
    ensures |CompileRules(lines, registry).value| == |RuleLines(lines)|
    ensures forall k :: 0 <= k < |RuleLines(lines)| ==>
      RuleFrom(CompileRules(lines, registry).value[k], RuleLines(lines)[k], registry)
    decreases |lines|
  {
    if |lines| > 0 {
      var rest := lines[1..];
      var tokens := LineTokens(lines[0]);
      var here := CompileLine(lines[0], registry);
      assert here.Ok?;
      CompileRulesShape(rest, registry);
      var rs := CompileRules(rest, registry).value;
      var out := CompileRules(lines, registry).value;
      if here.value.Some? {
        var rule := here.value.value;
        assert out == [rule] + rs;
        assert RuleLines(lines) == [tokens] + RuleLines(rest);
        var P := (r: Rule, t: seq<string>) => RuleFrom(r, t, registry);
        PointwiseCons(P, rule, tokens, rs, RuleLines(rest));
      } else {
        assert out == rs;
        assert RuleLines(lines) == RuleLines(rest);
      }
    }
  }

  /** Putting a pair in front of two lists related pointwise by `P`
      keeps them related pointwise. */
  lemma {:induction false} PointwiseCons<X, Y>(P: (X, Y) -> bool, x: X, y: Y, xs: seq<X>, ys: seq<Y>)
    requires P(x, y)
    requires |xs| == |ys|
    requires forall k :: 0 <= k < |ys| ==> P(xs[k], ys[k])
    ensures forall k :: 0 <= k < |ys| + 1 ==> P(([x] + xs)[k], ([y] + ys)[k])
  {
    forall k | 0 <= k < |ys| + 1
      ensures P(([x] + xs)[k], ([y] + ys)[k])
    {
      if k > 0 {
        assert ([x] + xs)[k] == xs[k - 1];
        assert ([y] + ys)[k] == ys[k - 1];
      }
    }
  }

  /** Every target token of every rule line is among the file's targets. */
  lemma {:induction false} RuleTargetsListed(lines: seq<string>)
    ensures forall k, j :: 0 <= k < |RuleLines(lines)| && 0 <= j < |TargetTokens(RuleLines(lines)[k])| ==>
      SplitOn(TargetTokens(RuleLines(lines)[k])[j], ':') in AllTargets(lines)
    decreases |lines|
  {
    if |lines| > 0 {
      var rest := lines[1..];
      RuleTargetsListed(rest);
      var tokens := LineTokens(lines[0]);
      assert AllTargets(lines) == LineTargets(lines[0]) + AllTargets(rest);
      if |tokens| > 0 {
        assert RuleLines(lines) == [tokens] + RuleLines(rest);
        forall j | 0 <= j < |TargetTokens(tokens)|
          ensures SplitOn(TargetTokens(tokens)[j], ':') in AllTargets(lines)
        {
          assert LineTargets(lines[0])[j] == SplitOn(TargetTokens(tokens)[j], ':');
        }
      }
    }
  }

  /** The identities `ids` name, position by position, the registry entries
      whose targets are the tokens `ts` split on `:`. */
  predicate Resolved(ids: seq<nat>, ts: seq<string>, registry: seq<Entry>) {
    && |ids| == |ts|
    && forall j :: 0 <= j < |ids| ==>
         ids[j] < |registry| && registry[ids[j]].id == ids[j]
         && registry[ids[j]].target == SplitOn(ts[j], ':')
  }

  /** Resolution against the file's own registry never fails: each rule has
      one identity per target token, a valid index whose entry holds that
      token's target. */
  lemma {:induction false} RulesResolve(lines: seq<string>, rules: seq<Rule>)
    requires CompileRules(lines, TargetRegistry(lines)) == Ok(rules)
    ensures |rules| == |RuleLines(lines)|
    ensures forall k :: 0 <= k < |rules| ==>
      Resolved(rules[k].ids, TargetTokens(RuleLines(lines)[k]), TargetRegistry(lines))
  {
    var registry := TargetRegistry(lines);
    var all := AllTargets(lines);
    var d := Dedup(all);
    CompileRulesShape(lines, registry);
    RuleTargetsListed(lines);
    forall k | 0 <= k < |rules|
      ensures Resolved(rules[k].ids, TargetTokens(RuleLines(lines)[k]), registry)
    {
      var ts := TargetTokens(RuleLines(lines)[k]);
      assert forall j :: 0 <= j < |ts| ==> SplitOn(ts[j], ':') in d;
      ResolveRegistered(ts, d);
    }
  }

  /** `parseOtwFiles` succeeds exactly when every line is blank or
      comment-only or carries `+` or `-` as its second field. */
  lemma {:induction false} CompileSucceedsIff(lines: seq<string>)
    ensures Compile(lines).Ok? <==> forall i :: 0 <= i < |lines| ==> WellFormedLine(lines[i])
  {
    CompileRulesSucceedsIff(lines, TargetRegistry(lines));
  }

  /** `parseOtwFiles` fails at the first malformed line: with
      `MissingIndicator` when the line has a single field (the source's
      `IndexError`), and with `BadIndicator` naming the second field
      otherwise (the source's failing error branch). */
  lemma {:induction false} CompileFailsAtFirst(lines: seq<string>, i: nat)
    requires i < |lines| && !WellFormedLine(lines[i])
    requires forall j :: 0 <= j < i ==> WellFormedLine(lines[j])
    ensures |LineTokens(lines[i])| < 2 ==> Compile(lines) == Err(MissingIndicator(lines[i]))
    ensures |LineTokens(lines[i])| >= 2 ==>
      Compile(lines) == Err(BadIndicator(lines[i], LineTokens(lines[i])[1]))
  {
    CompileRulesFailsAtFirst(lines, TargetRegistry(lines), i);
  }

  /** A successful compilation yields the registry of the first pass and
      one resolved rule per non-blank line, in order. */
  lemma {:induction false} CompileSound(lines: seq<string>)
    requires Compile(lines).Ok?
    ensures Compile(lines).value.targets == TargetRegistry(lines)
    ensures |Compile(lines).value.rules| == |RuleLines(lines)|
    ensures forall k :: 0 <= k < |RuleLines(lines)| ==>
      && RuleFrom(Compile(lines).value.rules[k], RuleLines(lines)[k], TargetRegistry(lines))
      && Resolved(Compile(lines).value.rules[k].ids, TargetTokens(RuleLines(lines)[k]),
                  Compile(lines).value.targets)
  {
    var rules := Compile(lines).value.rules;
    CompileRulesShape(lines, TargetRegistry(lines));
    RulesResolve(lines, rules);
  }

  /** One destination, one identity: two target tokens with the same
      `:`-split form resolve to the same identity, whichever rules they
      appear in. */
  lemma {:induction false} SharedTargetSharedId(lines: seq<string>, k1: nat, j1: nat, k2: nat, j2: nat)
    requires Compile(lines).Ok?
    requires k1 < |RuleLines(lines)| && j1 < |TargetTokens(RuleLines(lines)[k1])|
    requires k2 < |RuleLines(lines)| && j2 < |TargetTokens(RuleLines(lines)[k2])|
    requires SplitOn(TargetTokens(RuleLines(lines)[k1])[j1], ':')
             == SplitOn(TargetTokens(RuleLines(lines)[k2])[j2], ':')
    ensures var rules := Compile(lines).value.rules;
      && k1 < |rules| && j1 < |rules[k1].ids| && k2 < |rules| && j2 < |rules[k2].ids|
      && rules[k1].ids[j1] == rules[k2].ids[j2]
  {
    var d := Compile(lines).value;
    CompileSound(lines);
    RegistryUniqueAndComplete(lines);
    var i1 := d.rules[k1].ids[j1];
    var i2 := d.rules[k2].ids[j2];
    assert Targets(d.targets)[i1] == Targets(d.targets)[i2];
  }

  /** The lines that hold at least one field once comments are dropped. */
  function NonBlank(lines: seq<string>): (kept: seq<string>)
    ensures |kept| <= |lines|
    ensures forall i :: 0 <= i < |kept| ==> LineTokens(kept[i]) != []
    ensures RuleLines(kept) == RuleLines(lines)
    decreases |lines|
  {
    if |lines| == 0 then []
    else
      var rest := NonBlank(lines[1..]);
      if LineTokens(lines[0]) == [] then rest
      else
        var kept := [lines[0]] + rest;
        assert kept[0] == lines[0] && kept[1..] == rest;
        kept
  }

  /** The targets of a file whose first line is `line`. */
  lemma {:induction false} AllTargetsCons(line: string, rest: seq<string>)
    ensures AllTargets([line] + rest) == LineTargets(line) + AllTargets(rest)
  {
    var lines := [line] + rest;
    assert lines[0] == line && lines[1..] == rest;
  }

  /** The filter keeps the first line exactly when it has fields. */
  lemma {:induction false} NonBlankCons(lines: seq<string>)
    requires |lines| > 0
    ensures NonBlank(lines) == if LineTokens(lines[0]) == [] then NonBlank(lines[1..])
                               else [lines[0]] + NonBlank(lines[1..])
  {
  }

  /** The filter keeps every line that has fields, and nothing else. */
  lemma {:induction false} NonBlankMembers(lines: seq<string>)
    ensures forall x :: x in NonBlank(lines) <==> x in lines && LineTokens(x) != []
    decreases |lines|
  {
    if |lines| > 0 {
      NonBlankMembers(lines[1..]);
      assert forall x :: x in lines <==> x == lines[0] || x in lines[1..];
    }
  }

  lemma {:induction false} BlankLinesNameNoTargets(lines: seq<string>)
    ensures AllTargets(NonBlank(lines)) == AllTargets(lines)
    decreases |lines|
  {
    if |lines| > 0 {
      var line := lines[0];
      var rest := lines[1..];
      assert lines == [line] + rest;
      AllTargetsCons(line, rest);
      NonBlankCons(lines);
      BlankLinesNameNoTargets(rest);
      if LineTokens(line) != [] {
        AllTargetsCons(line, NonBlank(rest));
      } else {
        assert LineTargets(line) == [];
      }
    }
  }

  lemma {:induction false} BlankLinesMakeNoRules(lines: seq<string>, registry: seq<Entry>)
    ensures CompileRules(NonBlank(lines), registry) == CompileRules(lines, registry)
    decreases |lines|
  {
    if |lines| > 0 {
      var rest := lines[1..];
      BlankLinesMakeNoRules(rest, registry);
      if LineTokens(lines[0]) != [] {
        var kept := [lines[0]] + NonBlank(rest);
        assert NonBlank(lines) == kept;
        assert kept[0] == lines[0] && kept[1..] == NonBlank(rest);
      } else {
        assert NonBlank(lines) == NonBlank(rest);
        assert CompileLine(lines[0], registry) == Ok(None);
      }
    }
  }

  /** Blank and comment-only lines contribute neither a target nor a rule:
      dropping them leaves the compilation unchanged. */
  lemma {:induction false} BlankLinesIgnored(lines: seq<string>)
    ensures Compile(NonBlank(lines)) == Compile(lines)
  {
    BlankLinesNameNoTargets(lines);
    BlankLinesMakeNoRules(lines, TargetRegistry(lines));
  }
}
