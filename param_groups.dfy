/**
 * The narrowing search of the parameter guesser, stated on values.
 *
 * A candidate group maps parameter names to the values sent for them. Each
 * round probes every live group once against the baseline; a group whose probe
 * yields nothing is dropped, and the parameters a probe reports are sliced into
 * new groups for the next round. The slicing, the probe itself, the initial
 * population of values and the step that moves finished groups into the list
 * of usable parameters are collaborators whose code is not part of this model:
 * they are function values, and what the termination and soundness proofs need
 * of them is stated once, in Assumptions.
 */
module ParamGroups {
  import opened Wrappers

  /** A candidate group: parameter name to the value sent for it. */
  type Group = map<string, string>

  datatype Method = GET | POST | XML | JSON

  datatype Mode = Verify | BruteForce

  /** The control parameter of the baseline request. */
  const InitParam: string := "zap"
  const InitValue: string := "123"

  /**
   * The baseline a probe compares against. It stands for the fingerprint of the
   * response to the baseline request and is identified by that request.
   */
  datatype Baseline = Baseline(verb: Method, request: Group)

  /** One probe task handed to the executor. */
  datatype Task = Task(mode: Mode, verb: Method, base: Baseline, params: Group)

  /**
   * The collaborators of the search:
   *  - populate: a value for every word of a wordlist (UrlUtils.populate);
   *  - slice: a group cut into smaller groups (UrlUtils.slice with 2);
   *  - confirm: given the groups of a round and the usable parameters so far,
   *    the groups still to narrow and the usable parameters after it
   *    (UrlUtils.confirmUsableParameters, which extends its list argument in place);
   *  - probe: the parameters a BRUTEFORCE task reports for a group, or None when
   *    it returns null or fails.
   */
  datatype Collaborators = Collaborators(
    populate: seq<string> -> Group,
    slice: Group -> seq<Group>,
    confirm: (seq<Group>, seq<Group>) -> (seq<Group>, seq<Group>),
    probe: (Baseline, Method, Group) -> Option<Group>)

  /** The request that establishes the baseline: the control parameter alone. */
  function ControlRequest(): (r: Group)
    ensures |r| == 1 && InitParam in r && r[InitParam] == InitValue
  {
    map[InitParam := InitValue]
  }

  // ---------------------------------------------------------------------------
  // What the search needs of its collaborators

  /**
   * `pieces` are pairwise disjoint parts of `m` that together cover it, each
   * smaller than `m` when `m` has two or more entries.
   */
  predicate SlicesOf(m: Group, pieces: seq<Group>)
  {
    && (forall i :: 0 <= i < |pieces| ==> pieces[i].Keys <= m.Keys && (|m| >= 2 ==> |pieces[i]| < |m|))
    && (forall i, j :: 0 <= i < j < |pieces| ==> pieces[i].Keys !! pieces[j].Keys)
    && (forall k :: k in m ==> exists i :: 0 <= i < |pieces| && k in pieces[i])
  }

  /** A probe reports only parameters of the group it was given. */
  predicate Within(g: Group, outcome: Option<Group>)
  {
    outcome.Some? ==> outcome.value.Keys <= g.Keys
  }

  /**
   * Confirming splits the groups of a round between the groups kept for the
   * next round, all of two or more entries, and new usable parameters, each of
   * at most one entry, appended to the old ones.
   */
  predicate Confirms(groups: seq<Group>, usable: seq<Group>, r: (seq<Group>, seq<Group>))
  {
    && |usable| <= |r.1|
    && r.1[..|usable|] == usable
    && multiset(r.0) + multiset(r.1[|usable|..]) == multiset(groups)
    && (forall i :: 0 <= i < |r.0| ==> |r.0[i]| >= 2)
    && (forall j :: |usable| <= j < |r.1| ==> |r.1[j]| <= 1)
  }

  ghost predicate Assumptions(c: Collaborators)
  {
    && (forall m {:trigger SlicesOf(m, c.slice(m))} :: SlicesOf(m, c.slice(m)))
    && (forall b, verb, g {:trigger Within(g, c.probe(b, verb, g))} :: Within(g, c.probe(b, verb, g)))
    && (forall gs, u {:trigger Confirms(gs, u, c.confirm(gs, u))} :: Confirms(gs, u, c.confirm(gs, u)))
  }

  // ---------------------------------------------------------------------------
  // One round and the whole search

  /** What one group contributes to the next round: nothing when its probe yields nothing. */
  function Refined(c: Collaborators, base: Baseline, verb: Method, g: Group): seq<Group>
  {
    match c.probe(base, verb, g)
    case None => []
    case Some(reported) => c.slice(reported)
  }

  /** One round (`narrowDownParams`): the contributions of the groups, in order. */
  function Narrow(c: Collaborators, base: Baseline, verb: Method, gs: seq<Group>): seq<Group>
  {
    if gs == [] then []
    else Narrow(c, base, verb, gs[..|gs| - 1]) + Refined(c, base, verb, gs[|gs| - 1])
  }

  /** The tasks submitted for `gs`, one per group, in order. */
  function Submissions(mode: Mode, verb: Method, base: Baseline, gs: seq<Group>): (r: seq<Task>)
    ensures |r| == |gs|
    ensures forall i :: 0 <= i < |gs| ==> r[i] == Task(mode, verb, base, gs[i])
  {
    if gs == [] then []
    else Submissions(mode, verb, base, gs[..|gs| - 1]) + [Task(mode, verb, base, gs[|gs| - 1])]
  }

  /**
   * The narrowing loop from groups `gs` and usable parameters `usable`: the
   * probe tasks it submits, in order, and the usable parameters when no group
   * is left.
   */
  function Guess(c: Collaborators, base: Baseline, verb: Method, gs: seq<Group>, usable: seq<Group>)
    : (r: (seq<Task>, seq<Group>))
    requires Assumptions(c)
    decreases Weight(gs)
  {
    var confirmed := c.confirm(Narrow(c, base, verb, gs), usable);
    var probes := Submissions(BruteForce, verb, base, gs);
    if confirmed.0 == [] then (probes, confirmed.1)
    else
      NarrowingProgress(c, base, verb, gs, usable);
      var next := Guess(c, base, verb, confirmed.0, confirmed.1);
      (probes + next.0, next.1)
  }

  /** One turn of the narrowing loop: the round's probes, then either the end or the rest of the loop. */
  lemma GuessStep(c: Collaborators, base: Baseline, verb: Method, gs: seq<Group>, usable: seq<Group>)
    requires Assumptions(c)
    ensures var confirmed := c.confirm(Narrow(c, base, verb, gs), usable);
      var probes := Submissions(BruteForce, verb, base, gs);
      && (confirmed.0 == [] ==> Guess(c, base, verb, gs, usable) == (probes, confirmed.1))
      && (confirmed.0 != [] ==>
            && Weight(confirmed.0) < Weight(gs)
            && Guess(c, base, verb, gs, usable).0 == probes + Guess(c, base, verb, confirmed.0, confirmed.1).0
            && Guess(c, base, verb, gs, usable).1 == Guess(c, base, verb, confirmed.0, confirmed.1).1)
  {
    NarrowingProgress(c, base, verb, gs, usable);
  }

  /**
   * The state of the narrowing loop: the tasks submitted since the start,
   * followed by what the loop still submits from `gs` and `usable`, make up the
   * whole run `whole`.
   */
  ghost predicate LoopState(c: Collaborators, base: Baseline, verb: Method, gs: seq<Group>, usable: seq<Group>,
                            start: seq<Task>, done: seq<Task>, whole: (seq<Task>, seq<Group>))
  {
    && Assumptions(c)
    && start + whole.0 == done + Guess(c, base, verb, gs, usable).0
    && Guess(c, base, verb, gs, usable).1 == whole.1
  }

  /** One turn of the loop keeps its state, and either ends with the whole run done or leaves less weight. */
  lemma LoopTurn(c: Collaborators, base: Baseline, verb: Method, gs: seq<Group>, usable: seq<Group>,
                 start: seq<Task>, done: seq<Task>, whole: (seq<Task>, seq<Group>))
    requires LoopState(c, base, verb, gs, usable, start, done, whole)
    ensures var confirmed := c.confirm(Narrow(c, base, verb, gs), usable);
      var done' := done + Submissions(BruteForce, verb, base, gs);
      if confirmed.0 == [] then done' == start + whole.0 && confirmed.1 == whole.1
      else Weight(confirmed.0) < Weight(gs) && LoopState(c, base, verb, confirmed.0, confirmed.1, start, done', whole)
  {
    var confirmed := c.confirm(Narrow(c, base, verb, gs), usable);
    var these := Submissions(BruteForce, verb, base, gs);
    GuessStep(c, base, verb, gs, usable);
    if confirmed.0 != [] {
      var rest := Guess(c, base, verb, confirmed.0, confirmed.1);
      assert start + whole.0 == done + (these + rest.0);
      AppendAssoc(done, these, rest.0);
    }
  }


  /**
   * `startGuess` for one verb: the baseline, then the narrowing loop from the
   * sliced, populated wordlist, then one VERIFY task per usable candidate. The
   * tasks submitted, in order, and the candidates.
   */
  function GuessRun(c: Collaborators, verb: Method, wordlist: seq<string>): (seq<Task>, seq<Group>)
    requires Assumptions(c)
  {
    var base := Baseline(verb, ControlRequest());
    var found := Guess(c, base, verb, c.slice(c.populate(wordlist)), []);
    (found.0 + Submissions(Verify, verb, base, found.1), found.1)
  }

  /** The parameters of the VERIFY tasks among `ts`, in order. */
  function VerifiedParams(ts: seq<Task>): seq<Group>
  {
    if ts == [] then []
    else
      var last := ts[|ts| - 1];
      VerifiedParams(ts[..|ts| - 1]) + (if last.mode == Verify then [last.params] else [])
  }

  // ---------------------------------------------------------------------------
  // Termination: the weight of a list of groups, the sum of the squares of
  // their sizes, drops with every round that leaves groups behind.

  function Sq(n: nat): nat
  {
    n * n
  }

  function Weight(gs: seq<Group>): nat
  {
    if gs == [] then 0 else Weight(gs[..|gs| - 1]) + Sq(|gs[|gs| - 1]|)
  }

  /** The number of entries of all groups together. */
  function Entries(gs: seq<Group>): nat
  {
    if gs == [] then 0 else Entries(gs[..|gs| - 1]) + |gs[|gs| - 1]|
  }

  lemma AppendAssoc<T>(a: seq<T>, b: seq<T>, c: seq<T>)
    ensures (a + b) + c == a + (b + c)
  {
  }

  lemma SubsetCard<T>(a: set<T>, b: set<T>)
    requires a <= b
    ensures |a| <= |b|
    decreases b
  {
    if a != {} {
      var x :| x in a;
      SubsetCard(a - {x}, b - {x});
    }
  }

  lemma {:induction false} WeightAppend(a: seq<Group>, b: seq<Group>)
    ensures Weight(a + b) == Weight(a) + Weight(b)
    ensures Entries(a + b) == Entries(a) + Entries(b)
    decreases |b|
  {
    if b == [] {
      assert a + b == a;
    } else {
      WeightAppend(a, b[..|b| - 1]);
      assert (a + b)[..|a + b| - 1] == a + b[..|b| - 1];
    }
  }

  /** Pairwise disjoint groups drawn from `keys` hold no more entries than `keys` has. */
  lemma {:induction false} DisjointEntries(ps: seq<Group>, keys: set<string>)
    requires forall i :: 0 <= i < |ps| ==> ps[i].Keys <= keys
    requires forall i, j :: 0 <= i < j < |ps| ==> ps[i].Keys !! ps[j].Keys
    ensures Entries(ps) <= |keys|
  {
    if ps != [] {
      var last := ps[|ps| - 1];
      var init := ps[..|ps| - 1];
      forall i | 0 <= i < |init|
        ensures init[i].Keys <= keys - last.Keys
      {
        assert init[i].Keys !! last.Keys;
      }
      DisjointEntries(init, keys - last.Keys);
      assert |keys - last.Keys| == |keys| - |last.Keys|;
    }
  }

  lemma MulMono(k: nat, a: nat, b: nat)
    requires a <= b
    ensures k * a <= k * b
  {
  }

  /** Groups of at most `k` entries weigh at most `k` times their entries. */
  lemma {:induction false} WeightBound(ps: seq<Group>, k: nat)
    requires forall i :: 0 <= i < |ps| ==> |ps[i]| <= k
    ensures Weight(ps) <= k * Entries(ps)
  {
    if ps != [] {
      var init := ps[..|ps| - 1];
      var n := |ps[|ps| - 1]|;
      assert forall i :: 0 <= i < |init| ==> init[i] == ps[i];
      WeightBound(init, k);
      SqBound(n, k);
      Distribute(k, Entries(init), n);
    }
  }

  lemma SqBound(n: nat, k: nat)
    requires n <= k
    ensures Sq(n) <= k * n
  {
    MulMono(n, n, k);
  }

  lemma Distribute(k: nat, a: nat, b: nat)
    ensures k * (a + b) == k * a + k * b
  {
  }

  /** Slicing a group never adds weight, removes some when the group has two or more entries, and never makes a bigger piece. */
  lemma SliceWeight(c: Collaborators, m: Group)
    requires Assumptions(c)
    ensures Weight(c.slice(m)) <= Sq(|m|)
    ensures |m| >= 2 ==> Weight(c.slice(m)) < Sq(|m|)
    ensures forall i :: 0 <= i < |c.slice(m)| ==> |c.slice(m)[i]| <= |m|
  {
    var ps := c.slice(m);
    assert SlicesOf(m, ps);
    var k := if |m| >= 2 then |m| - 1 else |m|;
    forall i | 0 <= i < |ps|
      ensures |ps[i]| <= k
    {
      SubsetCard(ps[i].Keys, m.Keys);
    }
    DisjointEntries(ps, m.Keys);
    WeightBound(ps, k);
    SliceArith(|m|, k, Entries(ps));
  }

  /** `k` times at most `n` entries, with `k` below `n` when `n` is at least two, stays within (below) `n` squared. */
  lemma SliceArith(n: nat, k: nat, e: nat)
    requires e <= n && k == (if n >= 2 then n - 1 else n)
    ensures k * e <= Sq(n)
    ensures n >= 2 ==> k * e < Sq(n)
  {
    MulMono(k, e, n);
    if n >= 2 {
      assert k * n == n * n - n;
    }
  }

  /** What one group contributes weighs no more than the group, and less when it has two or more entries. */
  lemma RefinedWeight(c: Collaborators, base: Baseline, verb: Method, g: Group)
    requires Assumptions(c)
    ensures Weight(Refined(c, base, verb, g)) <= Sq(|g|)
    ensures |g| >= 2 ==> Weight(Refined(c, base, verb, g)) < Sq(|g|)
    ensures |g| <= 1 ==> forall i :: 0 <= i < |Refined(c, base, verb, g)| ==> |Refined(c, base, verb, g)[i]| <= 1
  {
    match c.probe(base, verb, g)
    case None =>
    case Some(reported) =>
      assert Within(g, c.probe(base, verb, g));
      SubsetCard(reported.Keys, g.Keys);
      SliceWeight(c, reported);
      MulMono(|reported|, |reported|, |g|);
      MulMono(|g|, |reported|, |g|);
  }

  /**
   * A round weighs no more than the groups it starts from, less when one of them
   * has two or more entries; from groups of at most one entry it yields only such groups.
   */
  lemma {:induction false} NarrowWeight(c: Collaborators, base: Baseline, verb: Method, gs: seq<Group>)
    requires Assumptions(c)
    ensures Weight(Narrow(c, base, verb, gs)) <= Weight(gs)
    ensures (exists i :: 0 <= i < |gs| && |gs[i]| >= 2) ==> Weight(Narrow(c, base, verb, gs)) < Weight(gs)
    ensures (forall i :: 0 <= i < |gs| ==> |gs[i]| <= 1) ==>
              forall j :: 0 <= j < |Narrow(c, base, verb, gs)| ==> |Narrow(c, base, verb, gs)[j]| <= 1
  {
    if gs != [] {
      var init := gs[..|gs| - 1];
      var last := gs[|gs| - 1];
      NarrowWeight(c, base, verb, init);
      RefinedWeight(c, base, verb, last);
      WeightAppend(Narrow(c, base, verb, init), Refined(c, base, verb, last));
      if exists i :: 0 <= i < |gs| && |gs[i]| >= 2 {
        var i :| 0 <= i < |gs| && |gs[i]| >= 2;
        if i < |gs| - 1 {
          assert |init[i]| >= 2;
        }
      }
    }
  }

  /** A list whose groups all occur in another (with multiplicity) weighs no more. */
  lemma {:induction false} WeightSubMultiset(a: seq<Group>, b: seq<Group>)
    requires multiset(a) <= multiset(b)
    ensures Weight(a) <= Weight(b)
    decreases |a|
  {
    if a != [] {
      var x := a[|a| - 1];
      var a' := a[..|a| - 1];
      assert a == a' + [x];
      assert x in multiset(b);
      var i :| 0 <= i < |b| && b[i] == x;
      var b' := b[..i] + b[i + 1..];
      WeightRemoveAt(b, i);
      assert multiset(a) == multiset(a') + multiset{x};
      assert multiset(a') == multiset(a) - multiset{x};
      assert multiset(b') == multiset(b) - multiset{x};
      WeightSubMultiset(a', b');
    }
  }

  /** Taking out the group at `i` removes it from the multiset and its square from the weight. */
  lemma WeightRemoveAt(b: seq<Group>, i: nat)
    requires i < |b|
    ensures multiset(b) == multiset(b[..i] + b[i + 1..]) + multiset{b[i]}
    ensures Weight(b) == Weight(b[..i] + b[i + 1..]) + Sq(|b[i]|)
  {
    var x := b[i];
    assert b == b[..i] + [x] + b[i + 1..];
    WeightAppend(b[..i], [x]);
    WeightAppend(b[..i] + [x], b[i + 1..]);
    WeightAppend(b[..i], b[i + 1..]);
    assert [x][..0] == [];
  }

  /** Every round either leaves no group or leaves groups of less weight than it started with. */
  lemma NarrowingProgress(c: Collaborators, base: Baseline, verb: Method, gs: seq<Group>, usable: seq<Group>)
    requires Assumptions(c)
    ensures var rest := c.confirm(Narrow(c, base, verb, gs), usable).0;
      rest == [] || Weight(rest) < Weight(gs)
  {
    var narrowed := Narrow(c, base, verb, gs);
    var r := c.confirm(narrowed, usable);
    assert Confirms(narrowed, usable, r);
    var rest := r.0;
    assert multiset(rest) <= multiset(narrowed);
    WeightSubMultiset(rest, narrowed);
    NarrowWeight(c, base, verb, gs);
    if rest != [] {
      assert rest[0] in multiset(narrowed);
      var j :| 0 <= j < |narrowed| && narrowed[j] == rest[0];
      assert |narrowed[j]| >= 2;
    }
  }

  // ---------------------------------------------------------------------------
  // Properties of one round

  /** A round over two lists of groups is the round over the first followed by the round over the second. */
  lemma {:induction false} NarrowAppend(c: Collaborators, base: Baseline, verb: Method, a: seq<Group>, b: seq<Group>)
    ensures Narrow(c, base, verb, a + b) == Narrow(c, base, verb, a) + Narrow(c, base, verb, b)
    decreases |b|
  {
    if b == [] {
      assert a + b == a;
    } else {
      NarrowAppend(c, base, verb, a, b[..|b| - 1]);
      assert (a + b)[..|a + b| - 1] == a + b[..|b| - 1];
    }
  }

  /** A round over one more group appends that group's contribution; the same for the tasks submitted. */
  lemma NarrowSnoc(c: Collaborators, base: Baseline, verb: Method, gs: seq<Group>, g: Group)
    ensures Narrow(c, base, verb, gs + [g]) == Narrow(c, base, verb, gs) + Refined(c, base, verb, g)
    ensures Submissions(BruteForce, verb, base, gs + [g]) == Submissions(BruteForce, verb, base, gs) + [Task(BruteForce, verb, base, g)]
  {
    assert (gs + [g])[..|gs|] == gs;
  }

  /** The same for a prefix of a list of groups grown by its next group. */
  lemma NarrowPrefix(c: Collaborators, base: Baseline, verb: Method, gs: seq<Group>, i: nat)
    requires i < |gs|
    ensures Narrow(c, base, verb, gs[..i + 1]) == Narrow(c, base, verb, gs[..i]) + Refined(c, base, verb, gs[i])
    ensures Submissions(BruteForce, verb, base, gs[..i + 1])
            == Submissions(BruteForce, verb, base, gs[..i]) + [Task(BruteForce, verb, base, gs[i])]
  {
    assert gs[..i + 1] == gs[..i] + [gs[i]];
    NarrowSnoc(c, base, verb, gs[..i], gs[i]);
  }

  /**
   * A group between others contributes exactly the slices of what its probe
   * reported, in its place; a group whose probe yields nothing is pruned.
   */
  lemma NarrowSplice(c: Collaborators, base: Baseline, verb: Method, a: seq<Group>, g: Group, b: seq<Group>)
    ensures c.probe(base, verb, g).None? ==>
              Narrow(c, base, verb, a + [g] + b) == Narrow(c, base, verb, a) + Narrow(c, base, verb, b)
    ensures c.probe(base, verb, g).Some? ==>
              Narrow(c, base, verb, a + [g] + b)
              == Narrow(c, base, verb, a) + c.slice(c.probe(base, verb, g).value) + Narrow(c, base, verb, b)
  {
    var front, middle, back := Narrow(c, base, verb, a), Refined(c, base, verb, g), Narrow(c, base, verb, b);
    NarrowAppend(c, base, verb, a + [g], b);
    NarrowSnoc(c, base, verb, a, g);
    AppendAssoc(front, middle, back);
    if c.probe(base, verb, g).None? {
      assert middle == [];
      assert front + middle == front;
    }
  }

  /** Every group of a round is made of parameters of the groups it started from. */
  lemma {:induction false} NarrowWithin(c: Collaborators, base: Baseline, verb: Method, gs: seq<Group>, keys: set<string>)
    requires Assumptions(c)
    requires forall i :: 0 <= i < |gs| ==> gs[i].Keys <= keys
    ensures forall j :: 0 <= j < |Narrow(c, base, verb, gs)| ==> Narrow(c, base, verb, gs)[j].Keys <= keys
  {
    if gs != [] {
      var last := gs[|gs| - 1];
      NarrowWithin(c, base, verb, gs[..|gs| - 1], keys);
      match c.probe(base, verb, last)
      case None =>
      case Some(reported) =>
        assert Within(last, c.probe(base, verb, last));
        assert SlicesOf(reported, c.slice(reported));
    }
  }

  /** When no probe reports anything, a round yields no groups. */
  lemma {:induction false} NarrowSilent(c: Collaborators, base: Baseline, verb: Method, gs: seq<Group>)
    requires forall g :: c.probe(base, verb, g).None?
    ensures Narrow(c, base, verb, gs) == []
  {
    if gs != [] {
      NarrowSilent(c, base, verb, gs[..|gs| - 1]);
    }
  }

  // ---------------------------------------------------------------------------
  // Properties of the narrowing loop

  /** The loop only ever adds usable parameters: those it starts with stay, in place. */
  lemma {:induction false} GuessKeepsUsable(c: Collaborators, base: Baseline, verb: Method, gs: seq<Group>, usable: seq<Group>)
    requires Assumptions(c)
    ensures var final := Guess(c, base, verb, gs, usable).1;
      |usable| <= |final| && final[..|usable|] == usable
    decreases Weight(gs)
  {
    var r := c.confirm(Narrow(c, base, verb, gs), usable);
    assert Confirms(Narrow(c, base, verb, gs), usable, r);
    if r.0 != [] {
      NarrowingProgress(c, base, verb, gs, usable);
      GuessKeepsUsable(c, base, verb, r.0, r.1);
      var final := Guess(c, base, verb, r.0, r.1).1;
      assert final[..|usable|] == final[..|r.1|][..|usable|];
    }
  }

  /** Every candidate the loop adds is made of parameters of the groups it started from. */
  lemma {:induction false} GuessWithin(c: Collaborators, base: Baseline, verb: Method, gs: seq<Group>, usable: seq<Group>,
                                       keys: set<string>)
    requires Assumptions(c)
    requires forall i :: 0 <= i < |gs| ==> gs[i].Keys <= keys
    ensures var final := Guess(c, base, verb, gs, usable).1;
      |usable| <= |final| && forall j :: |usable| <= j < |final| ==> final[j].Keys <= keys
    decreases Weight(gs)
  {
    var narrowed := Narrow(c, base, verb, gs);
    var r := c.confirm(narrowed, usable);
    assert Confirms(narrowed, usable, r);
    NarrowWithin(c, base, verb, gs, keys);
    var added := r.1[|usable|..];
    forall j | 0 <= j < |added|
      ensures added[j].Keys <= keys
    {
      assert added[j] in multiset(narrowed);
    }
    GuessKeepsUsable(c, base, verb, gs, usable);
    if r.0 != [] {
      NarrowingProgress(c, base, verb, gs, usable);
      forall i | 0 <= i < |r.0|
        ensures r.0[i].Keys <= keys
      {
        assert r.0[i] in multiset(narrowed);
      }
      GuessWithin(c, base, verb, r.0, r.1, keys);
      GuessKeepsUsable(c, base, verb, r.0, r.1);
      var final := Guess(c, base, verb, r.0, r.1).1;
      forall j | |usable| <= j < |r.1|
        ensures final[j].Keys <= keys
      {
        assert final[j] == final[..|r.1|][j] == r.1[j] == added[j - |usable|];
      }
    }
  }

  /** The target reacts to parameter `p`: the probe of every group holding `p` reports `p`. */
  ghost predicate Reacts(c: Collaborators, base: Baseline, verb: Method, p: string)
  {
    forall g {:trigger c.probe(base, verb, g)} :: p in g ==> c.probe(base, verb, g).Some? && p in c.probe(base, verb, g).value
  }

  /** Some group of `gs` holds parameter `p`. */
  predicate Holds(gs: seq<Group>, p: string)
  {
    exists j :: 0 <= j < |gs| && p in gs[j]
  }

  /** A group whose probe reports `p`, sliced so that piece `k` holds `p`, passes `p` on to the round. */
  lemma {:induction false} NarrowKeeps(c: Collaborators, base: Baseline, verb: Method, gs: seq<Group>, i: nat, k: nat,
                                       p: string)
    requires i < |gs| && c.probe(base, verb, gs[i]).Some?
    requires var pieces := c.slice(c.probe(base, verb, gs[i]).value);
      k < |pieces| && p in pieces[k]
    ensures Holds(Narrow(c, base, verb, gs), p)
  {
    var init := gs[..|gs| - 1];
    var front := Narrow(c, base, verb, init);
    var last := Refined(c, base, verb, gs[|gs| - 1]);
    assert Narrow(c, base, verb, gs) == front + last;
    if i == |gs| - 1 {
      IndexAppend(front, last, |front| + k);
      assert p in (front + last)[|front| + k];
    } else {
      assert init[i] == gs[i];
      NarrowKeeps(c, base, verb, init, i, k, p);
      var j :| 0 <= j < |front| && p in front[j];
      IndexAppend(front, last, j);
      assert p in (front + last)[j];
    }
  }

  lemma IndexAppend<T>(x: seq<T>, y: seq<T>, k: nat)
    requires k < |x| + |y|
    ensures (x + y)[k] == if k < |x| then x[k] else y[k - |x|]
  {
  }

  /** Some piece of the slices of `m` holds each parameter of `m`. */
  lemma CoveringPiece(c: Collaborators, m: Group, p: string)
    requires Assumptions(c)
    requires p in m
    ensures exists k :: 0 <= k < |c.slice(m)| && p in c.slice(m)[k]
  {
    assert SlicesOf(m, c.slice(m));
  }

  /** Confirming puts a group holding `p` either among the groups kept or among the new usable ones. */
  lemma ConfirmKeeps(groups: seq<Group>, usable: seq<Group>, r: (seq<Group>, seq<Group>), p: string)
    requires Confirms(groups, usable, r)
    requires Holds(groups, p)
    ensures Holds(r.0, p) || exists j :: |usable| <= j < |r.1| && p in r.1[j]
  {
    var i :| 0 <= i < |groups| && p in groups[i];
    var x := groups[i];
    assert x in multiset(groups);
    var added := r.1[|usable|..];
    if x in multiset(added) {
      var j :| 0 <= j < |added| && added[j] == x;
      assert r.1[|usable| + j] == x;
    } else {
      assert x in multiset(r.0);
      var j :| 0 <= j < |r.0| && r.0[j] == x;
    }
  }

  /**
   * A parameter the target reacts to, held by one of the groups the loop starts
   * from, ends up isolated: the loop adds a candidate holding that parameter alone.
   */
  lemma {:induction false} GuessFinds(c: Collaborators, base: Baseline, verb: Method, gs: seq<Group>, usable: seq<Group>,
                                      p: string)
    requires Assumptions(c)
    requires Reacts(c, base, verb, p)
    requires Holds(gs, p)
    ensures var final := Guess(c, base, verb, gs, usable).1;
      exists j :: |usable| <= j < |final| && final[j].Keys == {p}
    decreases Weight(gs)
  {
    var i :| 0 <= i < |gs| && p in gs[i];
    var reported := c.probe(base, verb, gs[i]).value;
    CoveringPiece(c, reported, p);
    var k :| 0 <= k < |c.slice(reported)| && p in c.slice(reported)[k];
    NarrowKeeps(c, base, verb, gs, i, k, p);
    var narrowed := Narrow(c, base, verb, gs);
    var r := c.confirm(narrowed, usable);
    assert Confirms(narrowed, usable, r);
    ConfirmKeeps(narrowed, usable, r, p);
    GuessKeepsConfirmed(c, base, verb, gs, usable);
    if exists j :: |usable| <= j < |r.1| && p in r.1[j] {
      var j :| |usable| <= j < |r.1| && p in r.1[j];
      Alone(r.1[j], p);
      assert Guess(c, base, verb, gs, usable).1[j] == r.1[j];
    } else {
      GuessStep(c, base, verb, gs, usable);
      GuessFinds(c, base, verb, r.0, r.1, p);
    }
  }

  /** A group of at most one entry that holds `p` holds `p` alone. */
  lemma Alone(m: Group, p: string)
    requires p in m && |m| <= 1
    ensures m.Keys == {p}
  {
    if q :| q in m && q != p {
      SubsetCard({p, q}, m.Keys);
    }
  }

  /** Every candidate the loop adds has at most one entry: narrowing ends at single parameters. */
  lemma {:induction false} GuessIsolates(c: Collaborators, base: Baseline, verb: Method, gs: seq<Group>, usable: seq<Group>)
    requires Assumptions(c)
    ensures var final := Guess(c, base, verb, gs, usable).1;
      |usable| <= |final| && forall j :: |usable| <= j < |final| ==> |final[j]| <= 1
    decreases Weight(gs)
  {
    var r := c.confirm(Narrow(c, base, verb, gs), usable);
    assert Confirms(Narrow(c, base, verb, gs), usable, r);
    GuessKeepsConfirmed(c, base, verb, gs, usable);
    GuessStep(c, base, verb, gs, usable);
    if r.0 != [] {
      GuessIsolates(c, base, verb, r.0, r.1);
      var final := Guess(c, base, verb, gs, usable).1;
      forall j | |usable| <= j < |r.1|
        ensures |final[j]| <= 1
      {
        assert final[j] == final[..|r.1|][j];
      }
    }
  }

  /** The usable list after the first round is a prefix of the one the loop ends with. */
  lemma GuessKeepsConfirmed(c: Collaborators, base: Baseline, verb: Method, gs: seq<Group>, usable: seq<Group>)
    requires Assumptions(c)
    ensures var confirmed := c.confirm(Narrow(c, base, verb, gs), usable).1;
      var final := Guess(c, base, verb, gs, usable).1;
      |confirmed| <= |final| && final[..|confirmed|] == confirmed
  {
    var r := c.confirm(Narrow(c, base, verb, gs), usable);
    GuessStep(c, base, verb, gs, usable);
    if r.0 != [] {
      GuessKeepsUsable(c, base, verb, r.0, r.1);
    }
  }

  /** When no probe reports anything, the loop adds no candidate. */
  lemma GuessSilent(c: Collaborators, base: Baseline, verb: Method, gs: seq<Group>, usable: seq<Group>)
    requires Assumptions(c)
    requires forall g :: c.probe(base, verb, g).None?
    ensures Guess(c, base, verb, gs, usable).1 == usable
  {
    NarrowSilent(c, base, verb, gs);
    var r := c.confirm([], usable);
    assert Confirms([], usable, r);
    var added := r.1[|usable|..];
    var none: seq<Group> := [];
    assert multiset(r.0) + multiset(added) == multiset(none);
    assert multiset(added) <= multiset(none);
    assert added == [];
    assert r.1 == r.1[..|usable|];
  }

  /** `ts` are BRUTEFORCE tasks only, all for `verb` and against `base`. */
  predicate ProbesAgainst(ts: seq<Task>, verb: Method, base: Baseline)
  {
    forall i :: 0 <= i < |ts| ==> ts[i].mode == BruteForce && ts[i].verb == verb && ts[i].base == base
  }

  /** The loop submits only BRUTEFORCE tasks, all for this verb and against this baseline. */
  lemma {:induction false} GuessProbesOnly(c: Collaborators, base: Baseline, verb: Method, gs: seq<Group>, usable: seq<Group>)
    requires Assumptions(c)
    ensures ProbesAgainst(Guess(c, base, verb, gs, usable).0, verb, base)
    decreases Weight(gs)
  {
    var r := c.confirm(Narrow(c, base, verb, gs), usable);
    var probes := Submissions(BruteForce, verb, base, gs);
    if r.0 != [] {
      NarrowingProgress(c, base, verb, gs, usable);
      GuessProbesOnly(c, base, verb, r.0, r.1);
      var more := Guess(c, base, verb, r.0, r.1).0;
      var ts: seq<Task> := probes + more;
      assert Guess(c, base, verb, gs, usable).0 == ts;
      forall i | 0 <= i < |ts|
        ensures ts[i].mode == BruteForce && ts[i].verb == verb && ts[i].base == base
      {
        if i >= |probes| {
          assert ts[i] == more[i - |probes|];
        }
      }
    }
  }

  lemma {:induction false} VerifiedParamsAppend(a: seq<Task>, b: seq<Task>)
    ensures VerifiedParams(a + b) == VerifiedParams(a) + VerifiedParams(b)
    decreases |b|
  {
    if b == [] {
      assert a + b == a;
    } else {
      VerifiedParamsAppend(a, b[..|b| - 1]);
      assert (a + b)[..|a + b| - 1] == a + b[..|b| - 1];
    }
  }

  lemma {:induction false} VerifiedParamsOfProbes(ts: seq<Task>)
    requires forall i :: 0 <= i < |ts| ==> ts[i].mode == BruteForce
    ensures VerifiedParams(ts) == []
  {
    if ts != [] {
      VerifiedParamsOfProbes(ts[..|ts| - 1]);
    }
  }

  lemma {:induction false} VerifiedParamsOfVerifications(verb: Method, base: Baseline, gs: seq<Group>)
    ensures VerifiedParams(Submissions(Verify, verb, base, gs)) == gs
  {
    if gs != [] {
      VerifiedParamsOfVerifications(verb, base, gs[..|gs| - 1]);
      assert gs == gs[..|gs| - 1] + [gs[|gs| - 1]];
    }
  }

  // ---------------------------------------------------------------------------
  // Properties of one `startGuess`

  /** Exactly one VERIFY task per candidate, in the candidates' order, and none during narrowing. */
  lemma VerifyOnePerCandidate(c: Collaborators, verb: Method, wordlist: seq<string>)
    requires Assumptions(c)
    ensures VerifiedParams(GuessRun(c, verb, wordlist).0) == GuessRun(c, verb, wordlist).1
  {
    var base := Baseline(verb, ControlRequest());
    var gs := c.slice(c.populate(wordlist));
    var probes := Guess(c, base, verb, gs, []).0;
    var usable := Guess(c, base, verb, gs, []).1;
    GuessProbesOnly(c, base, verb, gs, []);
    VerifiedParamsOfProbes(probes);
    VerifiedParamsOfVerifications(verb, base, usable);
    VerifiedParamsAppend(probes, Submissions(Verify, verb, base, usable));
  }

  /** Every task of a run is for its verb and against the same baseline, from the control request alone. */
  lemma AllTasksShareBaseline(c: Collaborators, verb: Method, wordlist: seq<string>)
    requires Assumptions(c)
    ensures var ts := GuessRun(c, verb, wordlist).0;
      forall i :: 0 <= i < |ts| ==> ts[i].verb == verb && ts[i].base == Baseline(verb, ControlRequest())
  {
    var base := Baseline(verb, ControlRequest());
    GuessProbesOnly(c, base, verb, c.slice(c.populate(wordlist)), []);
  }

  /** Every candidate is made of parameters populated from the wordlist. */
  lemma CandidatesFromWordlist(c: Collaborators, verb: Method, wordlist: seq<string>)
    requires Assumptions(c)
    ensures var candidates := GuessRun(c, verb, wordlist).1;
      forall j :: 0 <= j < |candidates| ==> candidates[j].Keys <= c.populate(wordlist).Keys
  {
    var m := c.populate(wordlist);
    assert SlicesOf(m, c.slice(m));
    GuessWithin(c, Baseline(verb, ControlRequest()), verb, c.slice(m), [], m.Keys);
  }

  /** Every candidate of a run holds at most one parameter. */
  lemma CandidatesIsolated(c: Collaborators, verb: Method, wordlist: seq<string>)
    requires Assumptions(c)
    ensures var candidates := GuessRun(c, verb, wordlist).1;
      forall j :: 0 <= j < |candidates| ==> |candidates[j]| <= 1
  {
    GuessIsolates(c, Baseline(verb, ControlRequest()), verb, c.slice(c.populate(wordlist)), []);
  }

  /** Every populated wordlist parameter the target reacts to ends up as a candidate on its own. */
  lemma WordlistParamFound(c: Collaborators, verb: Method, wordlist: seq<string>, p: string)
    requires Assumptions(c)
    requires p in c.populate(wordlist)
    requires Reacts(c, Baseline(verb, ControlRequest()), verb, p)
    ensures var candidates := GuessRun(c, verb, wordlist).1;
      exists j :: 0 <= j < |candidates| && candidates[j].Keys == {p}
  {
    var m := c.populate(wordlist);
    CoveringPiece(c, m, p);
    GuessFinds(c, Baseline(verb, ControlRequest()), verb, c.slice(m), [], p);
  }

  /** Against a target on which no probe reports anything, a run finds no candidate. */
  lemma SilentTargetNoCandidates(c: Collaborators, verb: Method, wordlist: seq<string>)
    requires Assumptions(c)
    requires forall g :: c.probe(Baseline(verb, ControlRequest()), verb, g).None?
    ensures GuessRun(c, verb, wordlist).1 == []
  {
    GuessSilent(c, Baseline(verb, ControlRequest()), verb, c.slice(c.populate(wordlist)), []);
  }
}
