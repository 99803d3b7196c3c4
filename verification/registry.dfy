/** The destination registry: the duplicate-free list of every target in
    first-seen order, each tagged with its position as its identity. */
module Registry {
  import opened Results

  /** A destination as the rule file spells it: a target token split on
      `:`, normally `[host, port]`. */
  type Target = seq<string>

  /** No value occurs twice. */
  predicate NoDuplicates(xs: seq<Target>) {
    forall i, j :: 0 <= i < j < |xs| ==> xs[i] != xs[j]
  }

  /** Position of the first occurrence of `y` in `xs`. */
  function FirstIndex(xs: seq<Target>, y: Target): (n: nat)
    requires y in xs
    ensures n < |xs| && xs[n] == y
    ensures forall k :: 0 <= k < n ==> xs[k] != y
    decreases |xs|
  {
    if xs[0] == y then 0 else 1 + FirstIndex(xs[1..], y)
  }

  /** Scanning `xs` in order and appending each value not already held,
      starting from `seen`. */
  function AddUnique(seen: seq<Target>, xs: seq<Target>): (r: seq<Target>)
    ensures |seen| <= |r| && r[..|seen|] == seen
    ensures NoDuplicates(seen) ==> NoDuplicates(r)
    decreases |xs|
  {
    if |xs| == 0 then seen
    else
      var init := xs[..|xs| - 1];
      var x := xs[|xs| - 1];
      assert xs == init + [x];
      var q := AddUnique(seen, init);
      if x in q then q else q + [x]
  }

  /** A scan holds exactly the values it started with and the values it
      scanned. */
  lemma {:induction false} AddUniqueMembers(seen: seq<Target>, xs: seq<Target>)
    ensures forall x :: x in AddUnique(seen, xs) <==> x in seen || x in xs
    decreases |xs|
  {
    if |xs| > 0 {
      var init := xs[..|xs| - 1];
      assert xs == init + [xs[|xs| - 1]];
      AddUniqueMembers(seen, init);
    }
  }

  /** The values of `xs` without repetitions, each at its first
      occurrence. */
  function Dedup(xs: seq<Target>): (r: seq<Target>)
    ensures NoDuplicates(r)
    ensures forall x :: x in r <==> x in xs
  {
    AddUniqueMembers([], xs);
    AddUnique([], xs)
  }

  /** Scanning `a` then `b` is scanning `a + b`. */
  lemma {:induction false} AddUniqueAppend(seen: seq<Target>, a: seq<Target>, b: seq<Target>)
    ensures AddUnique(seen, a + b) == AddUnique(AddUnique(seen, a), b)
    decreases |b|
  {
    if |b| > 0 {
      var ab := a + b;
      assert ab[..|ab| - 1] == a + b[..|b| - 1];
      assert ab[|ab| - 1] == b[|b| - 1];
      AddUniqueAppend(seen, a, b[..|b| - 1]);
    } else {
      assert a + b == a;
    }
  }

  /** Scanning values that are all held already changes nothing. */
  lemma {:induction false} AddUniqueHeld(seen: seq<Target>, xs: seq<Target>)
    requires forall x :: x in xs ==> x in seen
    ensures AddUnique(seen, xs) == seen
    decreases |xs|
  {
    if |xs| > 0 {
      var init := xs[..|xs| - 1];
      assert forall x :: x in init ==> x in xs;
      AddUniqueHeld(seen, init);
      assert xs[|xs| - 1] in xs;
    }
  }

  /** Re-scanning everything seen so far, plus the new values, yields the
      same list as scanning only the new values. This is why the
      cumulative re-scan in the rule-file parser is harmless. */
  lemma {:induction false} RescanIsDedup(a: seq<Target>, b: seq<Target>)
    ensures AddUnique(Dedup(a), a + b) == Dedup(a + b)
  {
    AddUniqueAppend(Dedup(a), a, b);
    AddUniqueHeld(Dedup(a), a);
    AddUniqueAppend([], a, b);
  }

  /** The first occurrence of an old value does not move when a value is
      appended. */
  lemma {:induction false} FirstIndexAppend(xs: seq<Target>, x: Target, y: Target)
    requires y in xs
    ensures FirstIndex(xs + [x], y) == FirstIndex(xs, y)
  {
    var n := FirstIndex(xs, y);
    var m := FirstIndex(xs + [x], y);
    assert (xs + [x])[n] == y;
  }

  /** Deduplication keeps values in the order of their first occurrence. */
  lemma {:induction false} DedupFirstSeenOrder(xs: seq<Target>)
    ensures forall i, j :: 0 <= i < j < |Dedup(xs)| ==>
      FirstIndex(xs, Dedup(xs)[i]) < FirstIndex(xs, Dedup(xs)[j])
    decreases |xs|
  {
    if |xs| > 0 {
      var init := xs[..|xs| - 1];
      var x := xs[|xs| - 1];
      assert xs == init + [x];
      var d := Dedup(init);
      var e := Dedup(xs);
      DedupFirstSeenOrder(init);
      assert e == if x in d then d else d + [x];
      forall i, j | 0 <= i < j < |e|
        ensures FirstIndex(xs, e[i]) < FirstIndex(xs, e[j])
      {
        assert e[i] == d[i] && d[i] in d;
        FirstIndexAppend(init, x, e[i]);
        if j < |d| {
          assert e[j] == d[j] && d[j] in d;
          FirstIndexAppend(init, x, e[j]);
        } else {
          assert e[j] == x && x !in init;
          assert FirstIndex(xs, x) == |init|;
        }
      }
    }
  }

  /** A registry entry: a target and the identity it was given. */
  datatype Entry = Entry(id: nat, target: Target)

  /** Python's `enumerate`: pairs each value with its position. */
  function Number(xs: seq<Target>): (es: seq<Entry>)
    ensures |es| == |xs|
    ensures forall i :: 0 <= i < |es| ==> es[i].id == i && es[i].target == xs[i]
  {
    seq(|xs|, i requires 0 <= i < |xs| => Entry(i, xs[i]))
  }

  /** The targets of a registry, in entry order. */
  function Targets(registry: seq<Entry>): (ts: seq<Target>)
    ensures |ts| == |registry|
    ensures forall i :: 0 <= i < |ts| ==> ts[i] == registry[i].target
  {
    seq(|registry|, i requires 0 <= i < |registry| => registry[i].target)
  }

  /** Numbering a list and reading the targets back gives the list. */
  lemma {:induction false} TargetsOfNumber(xs: seq<Target>)
    ensures Targets(Number(xs)) == xs
  {
  }

  /** The identity of the first entry holding `target`, as the linear
      search over the registry finds it; `None` when no entry holds it. */
  function Lookup(registry: seq<Entry>, target: Target): (r: Option<nat>)
    ensures r.None? <==> forall i :: 0 <= i < |registry| ==> registry[i].target != target
    decreases |registry|
  {
    if |registry| == 0 then None
    else if registry[0].target == target then Some(registry[0].id)
    else Lookup(registry[1..], target)
  }

  /** The search stops at the first entry holding the target. */
  lemma {:induction false} LookupFirst(registry: seq<Entry>, target: Target, k: nat)
    requires k < |registry| && registry[k].target == target
    requires forall j :: 0 <= j < k ==> registry[j].target != target
    ensures Lookup(registry, target) == Some(registry[k].id)
    decreases k
  {
    if k > 0 {
      LookupFirst(registry[1..], target, k - 1);
    }
  }

  /** In a numbered list, a held value is found under the identity of its
      first occurrence, and that entry holds the value. */
  lemma {:induction false} LookupNumbered(xs: seq<Target>, target: Target)
    requires target in xs
    ensures Lookup(Number(xs), target) == Some(FirstIndex(xs, target))
    ensures xs[FirstIndex(xs, target)] == target
  {
    LookupFirst(Number(xs), target, FirstIndex(xs, target));
  }
}
