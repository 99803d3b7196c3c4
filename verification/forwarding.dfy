/** The forwarding engine (`OSC.forwardMessage`). Every rule whose prefix
    equals the message's top-level segment sends the message to each of
    its targets, with the path truncated or not as the rule says. The
    network send is replaced by a record of the calls made. */
module Forwarding {
  import opened Results
  import opened Text
  import opened Paths
  import opened OtwRules

  /** One call of `sendOSC(client, path, args)`. */
  datatype Send<C, A> = Send(client: C, path: string, args: seq<A>)

  /** The Python exceptions that end a dispatch early: `pathPrefix` on a
      path without `/`, or an identity with no client behind it. */
  datatype Fault = NoPathSegment | NoSuchClient(id: nat)

  /** The sends made, in order, and the fault that stopped the dispatch,
      if any. Sends made before a fault have already gone out. */
  datatype Dispatch<C, A> = Dispatch(sends: seq<Send<C, A>>, fault: Option<Fault>)

  /** The path a rule forwards: truncated when its flag is set, otherwise
      the original path. */
  function OutPath(rule: Rule, path: string): (out: string)
    ensures !rule.truncate ==> out == path
    ensures rule.truncate ==> out == "" || out[0] == '/'
    ensures rule.truncate && |path| > 0 && path[0] == '/' ==>
      path == "/" + PathPrefix(path).value + out
  {
    if !rule.truncate then path
    else if |path| > 0 && path[0] == '/' then
      SlashPathRoundTrip(path);
      TruncatePathPrefix(path)
    else TruncatePathPrefix(path)
  }

  /** Running `first` and then, unless it faulted, `second`. */
  function Then<C, A>(first: Dispatch<C, A>, second: Dispatch<C, A>): Dispatch<C, A> {
    if first.fault.Some? then first else Dispatch(first.sends + second.sends, second.fault)
  }

  /** The inner loop over one rule's identities: one send per identity, to
      `clients[id]`, stopping at the first identity past the client list. */
  function FanOut<C, A>(ids: seq<nat>, clients: seq<C>, out: string, args: seq<A>): (d: Dispatch<C, A>)
    ensures |d.sends| <= |ids|
    ensures forall j :: 0 <= j < |d.sends| ==>
      ids[j] < |clients| && d.sends[j] == Send(clients[ids[j]], out, args)
    ensures d.fault.None? <==> |d.sends| == |ids|
    ensures d.fault.Some? ==>
      ids[|d.sends|] >= |clients| && d.fault == Some(NoSuchClient(ids[|d.sends|]))
    decreases |ids|
  {
    if |ids| == 0 then Dispatch([], None)
    else if ids[0] >= |clients| then Dispatch([], Some(NoSuchClient(ids[0])))
    else
      var rest := FanOut(ids[1..], clients, out, args);
      Dispatch([Send(clients[ids[0]], out, args)] + rest.sends, rest.fault)
  }

  /** What one rule does with a message whose top-level segment is
      `prefix`. */
  function RuleDispatch<C, A>(rule: Rule, clients: seq<C>, prefix: string, path: string, args: seq<A>): (d: Dispatch<C, A>)
    ensures rule.prefix != prefix ==> d.sends == [] && d.fault.None?
    ensures |d.sends| <= |rule.ids|
    ensures forall j :: 0 <= j < |d.sends| ==>
      rule.ids[j] < |clients| && d.sends[j] == Send(clients[rule.ids[j]], OutPath(rule, path), args)
    ensures d.fault.None? <==> rule.prefix != prefix || AllBelow(rule.ids, |clients|)
  {
    if rule.prefix == prefix then FanOut(rule.ids, clients, OutPath(rule, path), args)
    else Dispatch([], None)
  }

  /** The outer loop over the rules, in order, every rule checked. Every
      send goes to a listed client with the arguments unchanged and the
      path either kept or truncated; the only fault is a missing client. */
  function ForwardRules<C, A>(rules: seq<Rule>, clients: seq<C>, prefix: string, path: string, args: seq<A>): (d: Dispatch<C, A>)
    ensures forall i :: 0 <= i < |d.sends| ==>
      && d.sends[i].client in clients
      && d.sends[i].args == args
      && (d.sends[i].path == path || d.sends[i].path == TruncatePathPrefix(path))
    ensures d.fault.Some? ==> d.fault.value.NoSuchClient? && d.fault.value.id >= |clients|
    decreases |rules|
  {
    if |rules| == 0 then Dispatch([], None)
    else
      Then(ForwardRules(rules[..|rules| - 1], clients, prefix, path, args),
           RuleDispatch(rules[|rules| - 1], clients, prefix, path, args))
  }

  /** `forwardMessage(path, args)`: the prefix is computed once per rule,
      so a path without `/` faults only when there is a rule to check. */
  function Forward<C, A>(rules: seq<Rule>, clients: seq<C>, path: string, args: seq<A>): (d: Dispatch<C, A>)
    ensures forall i :: 0 <= i < |d.sends| ==>
      && d.sends[i].client in clients
      && d.sends[i].args == args
      && (d.sends[i].path == path || d.sends[i].path == TruncatePathPrefix(path))
    ensures d.fault == Some(NoPathSegment) <==> |rules| > 0 && '/' !in path
    ensures d.fault == Some(NoPathSegment) ==> d.sends == []
  {
    if |rules| == 0 then Dispatch([], None)
    else match PathPrefix(path)
      case None => Dispatch([], Some(NoPathSegment))
      case Some(prefix) => ForwardRules(rules, clients, prefix, path, args)
  }

  /** Every identity in `ids` is below `n`. */
  predicate AllBelow(ids: seq<nat>, n: nat) {
    forall j :: 0 <= j < |ids| ==> ids[j] < n
  }

  /** Every identity in every rule is below `n`. */
  predicate IdsBelow(rules: seq<Rule>, n: nat) {
    forall k :: 0 <= k < |rules| ==> AllBelow(rules[k].ids, n)
  }

  /** The sends one rule should make: none unless its prefix matches, else
      one per target in target order. */
  function RuleSends<C, A>(rule: Rule, clients: seq<C>, prefix: string, path: string, args: seq<A>): (sends: seq<Send<C, A>>)
    requires AllBelow(rule.ids, |clients|)
  {
    if rule.prefix != prefix then []
    else seq(|rule.ids|, j requires 0 <= j < |rule.ids| => Send(clients[rule.ids[j]], OutPath(rule, path), args))
  }

  /** The intended delivery list: the concatenation, over the rules in
      declaration order, of each rule's sends. Nothing is deduplicated. */
  function Deliveries<C, A>(rules: seq<Rule>, clients: seq<C>, prefix: string, path: string, args: seq<A>): seq<Send<C, A>>
    requires IdsBelow(rules, |clients|)
    decreases |rules|
  {
    if |rules| == 0 then []
    else
      RuleSends(rules[0], clients, prefix, path, args) + Deliveries(rules[1..], clients, prefix, path, args)
  }

  lemma {:induction false} DeliveriesSnoc<C, A>(rules: seq<Rule>, clients: seq<C>, prefix: string, path: string, args: seq<A>)
    requires |rules| > 0 && IdsBelow(rules, |clients|)
    ensures IdsBelow(rules[..|rules| - 1], |clients|)
    ensures AllBelow(rules[|rules| - 1].ids, |clients|)
    ensures Deliveries(rules, clients, prefix, path, args)
            == Deliveries(rules[..|rules| - 1], clients, prefix, path, args)
               + RuleSends(rules[|rules| - 1], clients, prefix, path, args)
    decreases |rules|
  {
    var init := rules[..|rules| - 1];
    var last := rules[|rules| - 1];
    assert IdsBelow(init, |clients|) by {
      forall k | 0 <= k < |init|
        ensures AllBelow(init[k].ids, |clients|)
      {
        assert init[k] == rules[k];
      }
    }
    var here := RuleSends(rules[0], clients, prefix, path, args);
    var tail := rules[1..];
    assert IdsBelow(tail, |clients|) by {
      forall k | 0 <= k < |tail|
        ensures AllBelow(tail[k].ids, |clients|)
      {
        assert tail[k] == rules[k + 1];
      }
    }
    assert Deliveries(rules, clients, prefix, path, args)
           == here + Deliveries(tail, clients, prefix, path, args);
    if |rules| > 1 {
      DeliveriesSnoc(tail, clients, prefix, path, args);
      assert tail[..|tail| - 1] == init[1..] && tail[|tail| - 1] == last;
      assert init[0] == rules[0];
      assert Deliveries(init, clients, prefix, path, args)
             == here + Deliveries(init[1..], clients, prefix, path, args);
    } else {
      assert init == [] && tail == [] && last == rules[0];
    }
  }

  /** With every identity backed by a client, one rule's dispatch never
      faults and makes exactly its intended sends. */
  lemma {:induction false} RuleDispatchIntended<C, A>(rule: Rule, clients: seq<C>, prefix: string, path: string, args: seq<A>)
    requires AllBelow(rule.ids, |clients|)
    ensures RuleDispatch(rule, clients, prefix, path, args)
            == Dispatch(RuleSends(rule, clients, prefix, path, args), None)
  {
  }

  /** With every identity backed by a client, the rule loop never faults
      and sends exactly the intended deliveries. */
  lemma {:induction false} ForwardRulesIntended<C, A>(rules: seq<Rule>, clients: seq<C>, prefix: string, path: string, args: seq<A>)
    requires IdsBelow(rules, |clients|)
    ensures ForwardRules(rules, clients, prefix, path, args)
            == Dispatch(Deliveries(rules, clients, prefix, path, args), None)
    decreases |rules|
  {
    if |rules| > 0 {
      var last := rules[|rules| - 1];
      DeliveriesSnoc(rules, clients, prefix, path, args);
      ForwardRulesIntended(rules[..|rules| - 1], clients, prefix, path, args);
      RuleDispatchIntended(last, clients, prefix, path, args);
    }
  }

  /** `forwardMessage` on an address with a top-level segment, with every
      identity backed by a client: no fault, and exactly the concatenation
      over matching rules, in declaration order, of one send per target,
      each carrying the rule's outgoing path and the arguments unchanged. */
  lemma {:induction false} ForwardIsDeliveries<C, A>(rules: seq<Rule>, clients: seq<C>, path: string, args: seq<A>)
    requires '/' in path
    requires IdsBelow(rules, |clients|)
    ensures Forward(rules, clients, path, args)
            == Dispatch(Deliveries(rules, clients, PathPrefix(path).value, path, args), None)
  {
    ForwardRulesIntended(rules, clients, PathPrefix(path).value, path, args);
  }

  /** Running three dispatches in sequence does not depend on grouping. */
  lemma {:induction false} ThenAssociative<C, A>(a: Dispatch<C, A>, b: Dispatch<C, A>, c: Dispatch<C, A>)
    ensures Then(Then(a, b), c) == Then(a, Then(b, c))
  {
    if a.fault.None? && b.fault.None? {
      assert (a.sends + b.sends) + c.sends == a.sends + (b.sends + c.sends);
    }
  }

  /** Rules are processed in declaration order: forwarding with `r1 + r2`
      is forwarding with `r1` and then, unless that faulted, with `r2`. */
  lemma {:induction false} ForwardRulesAppend<C, A>(r1: seq<Rule>, r2: seq<Rule>, clients: seq<C>, prefix: string, path: string, args: seq<A>)
    ensures ForwardRules(r1 + r2, clients, prefix, path, args)
            == Then(ForwardRules(r1, clients, prefix, path, args),
                    ForwardRules(r2, clients, prefix, path, args))
    decreases |r2|
  {
    var rs := r1 + r2;
    if |r2| == 0 {
      assert rs == r1;
      var d := ForwardRules(r1, clients, prefix, path, args);
      assert d.sends + [] == d.sends;
    } else {
      var init := r2[..|r2| - 1];
      var last := r2[|r2| - 1];
      assert rs[..|rs| - 1] == r1 + init;
      assert rs[|rs| - 1] == last;
      ForwardRulesAppend(r1, init, clients, prefix, path, args);
      ThenAssociative(ForwardRules(r1, clients, prefix, path, args),
                      ForwardRules(init, clients, prefix, path, args),
                      RuleDispatch(last, clients, prefix, path, args));
    }
  }

  /** A message whose top-level segment no rule names is sent nowhere, and
      nothing goes wrong, whatever the client list. */
  lemma {:induction false} ForwardRulesNoMatch<C, A>(rules: seq<Rule>, clients: seq<C>, prefix: string, path: string, args: seq<A>)
    requires forall k :: 0 <= k < |rules| ==> rules[k].prefix != prefix
    ensures ForwardRules(rules, clients, prefix, path, args) == Dispatch([], None)
    decreases |rules|
  {
    if |rules| > 0 {
      ForwardRulesNoMatch(rules[..|rules| - 1], clients, prefix, path, args);
    }
  }

  /** No cross-prefix leakage: an address whose top-level segment matches
      no rule produces no sends and no fault. */
  lemma {:induction false} ForwardNoMatch<C, A>(rules: seq<Rule>, clients: seq<C>, path: string, args: seq<A>)
    requires '/' in path
    requires forall k :: 0 <= k < |rules| ==> rules[k].prefix != PathPrefix(path).value
    ensures Forward(rules, clients, path, args) == Dispatch([], None)
  {
    if |rules| > 0 {
      ForwardRulesNoMatch(rules, clients, PathPrefix(path).value, path, args);
    }
  }

  /** Fan-out independence: two rules for prefix `a`, one truncating to
      client `i` and one not truncating to client `j`, turn `/a/b` into
      exactly two sends, `/b` to client `i` then `/a/b` to client `j`. */
  lemma {:induction false} TwoRulesOnePrefix<C, A>(a: string, b: string, clients: seq<C>, i: nat, j: nat, args: seq<A>)
    requires '/' !in a
    requires i < |clients| && j < |clients|
    ensures Forward([Rule(a, true, [i]), Rule(a, false, [j])], clients, "/" + a + "/" + b, args)
            == Dispatch([Send(clients[i], "/" + b, args), Send(clients[j], "/" + a + "/" + b, args)], None)
  {
    var path := "/" + a + "/" + b;
    var rules := [Rule(a, true, [i]), Rule(a, false, [j])];
    NestedPath(a, b);
    assert rules[..1] == [rules[0]];
    assert rules[..1][..0] == [];
    var prefix := PathPrefix(path).value;
    var first := RuleDispatch(rules[0], clients, prefix, path, args);
    var second := RuleDispatch(rules[1], clients, prefix, path, args);
    assert [i][1..] == [] && [j][1..] == [];
    assert first == Dispatch([Send(clients[i], "/" + b, args)], None);
    assert second == Dispatch([Send(clients[j], path, args)], None);
    assert ForwardRules(rules[..1], clients, prefix, path, args) == first;
  }

  /** A rule naming the same identity twice sends the message to that
      client twice: nothing is deduplicated. */
  lemma {:induction false} RepeatedIdentitySendsTwice<C, A>(rule: Rule, clients: seq<C>, path: string, args: seq<A>, id: nat)
    requires '/' in path && rule.prefix == PathPrefix(path).value
    requires rule.ids == [id, id] && id < |clients|
    ensures Forward([rule], clients, path, args).sends
            == [Send(clients[id], OutPath(rule, path), args), Send(clients[id], OutPath(rule, path), args)]
  {
    var prefix := PathPrefix(path).value;
    var out := OutPath(rule, path);
    assert [rule][..0] == [];
    assert rule.ids[1..] == [id] && [id][1..] == [];
    assert FanOut([id], clients, out, args) == Dispatch([Send(clients[id], out, args)], None);
    assert FanOut(rule.ids, clients, out, args)
           == Dispatch([Send(clients[id], out, args), Send(clients[id], out, args)], None);
    assert ForwardRules([rule], clients, prefix, path, args)
           == Then(Dispatch([], None), RuleDispatch(rule, clients, prefix, path, args));
  }

  /** The identities of a compiled rule table index its own registry. */
  lemma {:induction false} CompiledIdsBelow(lines: seq<string>)
    requires Compile(lines).Ok?
    ensures IdsBelow(Compile(lines).value.rules, |Compile(lines).value.targets|)
  {
    CompileSound(lines);
    var data := Compile(lines).value;
    forall k | 0 <= k < |data.rules|
      ensures AllBelow(data.rules[k].ids, |data.targets|)
    {
      assert Resolved(data.rules[k].ids, TargetTokens(RuleLines(lines)[k]), data.targets);
    }
  }

  /** With one client per registry entry, forwarding through a compiled
      rule table never fails on an address that has a top-level segment,
      and makes exactly the intended deliveries. */
  lemma {:induction false} CompiledTableNeverFaults<C, A>(lines: seq<string>, clients: seq<C>, path: string, args: seq<A>)
    requires Compile(lines).Ok?
    requires |clients| == |Compile(lines).value.targets|
    requires '/' in path
    ensures IdsBelow(Compile(lines).value.rules, |clients|)
    ensures Forward(Compile(lines).value.rules, clients, path, args)
            == Dispatch(Deliveries(Compile(lines).value.rules, clients, PathPrefix(path).value, path, args), None)
  {
    CompiledIdsBelow(lines);
    ForwardIsDeliveries(Compile(lines).value.rules, clients, path, args);
  }

  /** One more rule extends the loop by that rule's dispatch. */
  lemma {:induction false} ForwardRulesStep<C, A>(rules: seq<Rule>, r: nat, clients: seq<C>, prefix: string, path: string, args: seq<A>)
    requires r < |rules|
    ensures ForwardRules(rules[..r + 1], clients, prefix, path, args)
            == Then(ForwardRules(rules[..r], clients, prefix, path, args),
                    RuleDispatch(rules[r], clients, prefix, path, args))
  {
    assert rules[..r + 1][..r] == rules[..r];
    assert rules[..r + 1][r] == rules[r];
  }

  /** Once a rule faults, the remaining rules are not reached. */
  lemma {:induction false} ForwardRulesStops<C, A>(rules: seq<Rule>, r: nat, clients: seq<C>, prefix: string, path: string, args: seq<A>)
    requires r < |rules|
    requires ForwardRules(rules[..r + 1], clients, prefix, path, args).fault.Some?
    ensures ForwardRules(rules, clients, prefix, path, args)
            == ForwardRules(rules[..r + 1], clients, prefix, path, args)
  {
    ForwardRulesAppend(rules[..r + 1], rules[r + 1..], clients, prefix, path, args);
    assert rules[..r + 1] + rules[r + 1..] == rules;
  }

  /** The inner loop of `forwardMessage` as written: one send per identity
      of a matching rule, appended to the sends made so far, until an
      identity has no client. */
  method SendToClients<C, A>(before: seq<Send<C, A>>, ids: seq<nat>, clients: seq<C>, out: string, args: seq<A>)
    returns (sends: seq<Send<C, A>>, fault: Option<Fault>)
    ensures sends == before + FanOut(ids, clients, out, args).sends
    ensures fault == FanOut(ids, clients, out, args).fault
  {
    ghost var d := FanOut(ids, clients, out, args);
    sends := before;
    var c := 0;
    while c < |ids|
      invariant 0 <= c <= |ids|
      invariant |sends| == |before| + c && sends[..|before|] == before
      invariant forall t :: 0 <= t < c ==>
        ids[t] < |clients| && sends[|before| + t] == Send(clients[ids[t]], out, args)
    {
      var id := ids[c];
      if id >= |clients| {
        assert |d.sends| == c;
        assert sends == before + d.sends;
        return sends, Some(NoSuchClient(id));
      }
      sends := sends + [Send(clients[id], out, args)];
      c := c + 1;
    }
    assert sends == before + d.sends;
    fault := None;
  }

  /** `forwardMessage` as written: for each rule, compute the prefix of the
      path; when the rule's prefix equals it, send to each of the rule's
      clients in turn. Stops at the first exception. */
  method ForwardMessage<C, A>(rules: seq<Rule>, clients: seq<C>, path: string, args: seq<A>)
    returns (sends: seq<Send<C, A>>, fault: Option<Fault>)
    ensures Dispatch(sends, fault) == Forward(rules, clients, path, args)
  {
    sends := [];
    fault := None;
    var r := 0;
    while r < |rules|
      invariant 0 <= r <= |rules|
      invariant fault == None
      invariant r == 0 ==> sends == []
      invariant r > 0 ==> '/' in path
      invariant r > 0 ==>
        Dispatch(sends, None) == ForwardRules(rules[..r], clients, PathPrefix(path).value, path, args)
    {
      var rule := rules[r];
      var prefix := PathPrefix(path);
      if prefix.None? {
        return sends, Some(NoPathSegment);
      }
      ForwardRulesStep(rules, r, clients, prefix.value, path, args);
      if rule.prefix == prefix.value {
        sends, fault := SendToClients(sends, rule.ids, clients, OutPath(rule, path), args);
        if fault.Some? {
          ForwardRulesStops(rules, r, clients, prefix.value, path, args);
          return;
        }
      }
      r := r + 1;
    }
    assert rules[..r] == rules;
  }
}
