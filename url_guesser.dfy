/**
 * The coordinator of URL parameter guessing: it merges the wordlists it is
 * configured with, and for every enabled request method sends the baseline
 * request, runs the narrowing loop and submits one verification task per
 * usable candidate.
 *
 * The executor the tasks go to is modelled by the list of tasks submitted to
 * it, in order, and the network by the list of baseline requests sent. The
 * search itself is specified in ParamGroups.
 */
module UrlGuessing {
  import opened Wrappers
  import opened ParamGroups

  /** The settings the coordinator reads from the parameter miner configuration. */
  datatype ParamMinerConfig = ParamMinerConfig(
    usePredefinedUrlWordlists: bool,
    useCustomUrlWordlists: bool,
    urlGetRequest: bool,
    urlPostRequest: bool,
    urlXmlRequest: bool,
    urlJsonRequest: bool)

  /** Whether the configuration asks for guessing with request method `verb`. */
  predicate Enabled(config: ParamMinerConfig, verb: Method)
  {
    match verb
    case GET => config.urlGetRequest
    case POST => config.urlPostRequest
    case XML => config.urlXmlRequest
    case JSON => config.urlJsonRequest
  }

  /** The fixed order in which methods are guessed. */
  function Rank(verb: Method): nat
  {
    match verb
    case GET => 0
    case POST => 1
    case XML => 2
    case JSON => 3
  }

  /** The methods guessed, in the order they are guessed: every enabled one, each once, GET, POST, XML, JSON. */
  function EnabledMethods(config: ParamMinerConfig): (r: seq<Method>)
    ensures forall verb :: verb in r <==> Enabled(config, verb)
    ensures forall i, j :: 0 <= i < j < |r| ==> Rank(r[i]) < Rank(r[j])
  {
    (if config.urlGetRequest then [GET] else [])
    + (if config.urlPostRequest then [POST] else [])
    + (if config.urlXmlRequest then [XML] else [])
    + (if config.urlJsonRequest then [JSON] else [])
  }

  /** The four methods in the order the run considers them. */
  const AllMethods: seq<Method> := [GET, POST, XML, JSON]

  /** The enabled methods among the first `k` the run considers, in order. */
  function EnabledPrefix(config: ParamMinerConfig, k: nat): seq<Method>
    requires k <= 4
  {
    if k == 0 then []
    else EnabledPrefix(config, k - 1) + (if Enabled(config, AllMethods[k - 1]) then [AllMethods[k - 1]] else [])
  }

  /**
   * The methods guessed with once the first `k` were considered: all enabled
   * ones when there is a wordlist, otherwise only the first, whose failure ends the run.
   */
  function StartedVerbs(config: ParamMinerConfig, hasWordlist: bool, k: nat): seq<Method>
    requires k <= 4
  {
    var enabled := EnabledPrefix(config, k);
    if hasWordlist || |enabled| <= 1 then enabled else enabled[..1]
  }

  /** Considering method number `k` adds it to the methods guessed with exactly when it is enabled and the run has not failed. */
  lemma StartedStep(config: ParamMinerConfig, hasWordlist: bool, k: nat)
    requires k < 4
    ensures var before := StartedVerbs(config, hasWordlist, k);
      var going := hasWordlist || before == [];
      StartedVerbs(config, hasWordlist, k + 1)
      == if going && Enabled(config, AllMethods[k]) then before + [AllMethods[k]] else before
  {
  }

  /** Having considered all four methods, the run has guessed with every enabled one, or only the first without a wordlist. */
  lemma StartedAll(config: ParamMinerConfig, hasWordlist: bool)
    ensures hasWordlist ==> StartedVerbs(config, hasWordlist, 4) == EnabledMethods(config)
    ensures !hasWordlist ==>
              StartedVerbs(config, hasWordlist, 4)
              == EnabledMethods(config)[..if EnabledMethods(config) == [] then 0 else 1]
  {
    var get := if config.urlGetRequest then [GET] else [];
    var post := if config.urlPostRequest then [POST] else [];
    var xml := if config.urlXmlRequest then [XML] else [];
    var json := if config.urlJsonRequest then [JSON] else [];
    assert EnabledPrefix(config, 1) == get;
    assert EnabledPrefix(config, 2) == get + post;
    assert EnabledPrefix(config, 3) == get + post + xml;
    assert EnabledPrefix(config, 4) == get + post + xml + json;
  }

  // ---------------------------------------------------------------------------
  // Wordlist merge

  predicate Distinct(s: seq<string>)
  {
    forall i, j :: 0 <= i < j < |s| ==> s[i] != s[j]
  }

  /**
   * The wordlist made from a default and a custom list, either possibly absent:
   * with both, every word of either exactly once, in an order left open; with
   * the default alone, the default list as it is; otherwise the custom list.
   */
  ghost predicate MergedFrom(w: Option<seq<string>>, predefined: Option<seq<string>>, custom: Option<seq<string>>)
  {
    if predefined.Some? && custom.Some? then
      && w.Some?
      && Distinct(w.value)
      && (forall x :: x in w.value <==> x in predefined.value || x in custom.value)
      && |w.value| == |(set x | x in predefined.value) + (set x | x in custom.value)|
    else if predefined.Some? then
      w == predefined
    else
      w == custom
  }

  /** The constructor's merge: with both lists, their words gathered in a set and copied out one by one. */
  method MergeWordlists(predefined: Option<seq<string>>, custom: Option<seq<string>>)
    returns (w: Option<seq<string>>)
    ensures MergedFrom(w, predefined, custom)
  {
    if predefined.Some? && custom.Some? {
      var words := (set x | x in predefined.value) + (set x | x in custom.value);
      var rest := words;
      var merged: seq<string> := [];
      while rest != {}
        invariant rest <= words
        invariant Distinct(merged)
        invariant forall x :: x in merged <==> x in words && x !in rest
        invariant |merged| + |rest| == |words|
        decreases |rest|
      {
        var x :| x in rest;
        merged := merged + [x];
        rest := rest - {x};
      }
      w := Some(merged);
    } else if custom.None? && predefined.Some? {
      w := predefined;
    } else {
      w := custom;
    }
  }

  // ---------------------------------------------------------------------------
  // What a whole run submits

  /** The baseline requests sent for `verbs`, in order. */
  function ControlBaselines(verbs: seq<Method>): (r: seq<Baseline>)
    ensures |r| == |verbs|
    ensures forall i :: 0 <= i < |verbs| ==> r[i] == Baseline(verbs[i], ControlRequest())
  {
    if verbs == [] then []
    else ControlBaselines(verbs[..|verbs| - 1]) + [Baseline(verbs[|verbs| - 1], ControlRequest())]
  }

  /** The tasks submitted by guessing with each of `verbs` in turn. */
  function RunTasks(c: Collaborators, verbs: seq<Method>, wordlist: seq<string>): seq<Task>
    requires Assumptions(c)
  {
    if verbs == [] then []
    else RunTasks(c, verbs[..|verbs| - 1], wordlist) + GuessRun(c, verbs[|verbs| - 1], wordlist).0
  }

  /** Every task of `ts` is for one of `verbs`. */
  predicate OnlyFor(ts: seq<Task>, verbs: seq<Method>)
  {
    forall i :: 0 <= i < |ts| ==> ts[i].verb in verbs
  }

  /** Tasks for an earlier method all come before tasks for a later one. */
  predicate InMethodOrder(ts: seq<Task>)
  {
    forall i, j :: 0 <= i <= j < |ts| ==> Rank(ts[i].verb) <= Rank(ts[j].verb)
  }

  /** Every task of a run is for one of the given methods, and tasks for an earlier method all come first. */
  lemma {:induction false} RunTasksInOrder(c: Collaborators, verbs: seq<Method>, wordlist: seq<string>)
    requires Assumptions(c)
    requires forall i, j :: 0 <= i < j < |verbs| ==> Rank(verbs[i]) < Rank(verbs[j])
    ensures OnlyFor(RunTasks(c, verbs, wordlist), verbs)
    ensures InMethodOrder(RunTasks(c, verbs, wordlist))
  {
    if verbs != [] {
      var init := verbs[..|verbs| - 1];
      var last := verbs[|verbs| - 1];
      RunTasksInOrder(c, init, wordlist);
      AllTasksShareBaseline(c, last, wordlist);
      assert verbs == init + [last];
      TasksInOrderAppend(RunTasks(c, init, wordlist), GuessRun(c, last, wordlist).0, init, last);
    }
  }

  lemma TasksInOrderAppend(earlier: seq<Task>, later: seq<Task>, init: seq<Method>, last: Method)
    requires OnlyFor(earlier, init) && InMethodOrder(earlier)
    requires forall i :: 0 <= i < |later| ==> later[i].verb == last
    requires forall k :: 0 <= k < |init| ==> Rank(init[k]) < Rank(last)
    ensures OnlyFor(earlier + later, init + [last])
    ensures InMethodOrder(earlier + later)
  {
    var ts := earlier + later;
    forall i | 0 <= i < |ts|
      ensures ts[i].verb in init + [last]
    {
      if i < |earlier| {
        assert ts[i] == earlier[i];
      } else {
        assert ts[i] == later[i - |earlier|];
      }
    }
    forall i, j | 0 <= i <= j < |ts|
      ensures Rank(ts[i].verb) <= Rank(ts[j].verb)
    {
      if j < |earlier| {
        assert ts[i] == earlier[i] && ts[j] == earlier[j];
      } else {
        assert ts[j] == later[j - |earlier|];
        if i < |earlier| {
          assert ts[i] == earlier[i];
          var k :| 0 <= k < |init| && init[k] == ts[i].verb;
        } else {
          assert ts[i] == later[i - |earlier|];
        }
      }
    }
  }

  /** Guessing with one more method appends its tasks and its baseline request. */
  lemma RunStep(c: Collaborators, verbs: seq<Method>, verb: Method, wordlist: Option<seq<string>>)
    requires Assumptions(c)
    ensures wordlist.Some? ==>
              RunTasks(c, verbs + [verb], wordlist.value) == RunTasks(c, verbs, wordlist.value) + GuessRun(c, verb, wordlist.value).0
    ensures ControlBaselines(verbs + [verb]) == ControlBaselines(verbs) + [Baseline(verb, ControlRequest())]
  {
    assert (verbs + [verb])[..|verbs|] == verbs;
  }

  /** A run guesses with the enabled methods only, in the order GET, POST, XML, JSON. */
  lemma RunFollowsConfig(c: Collaborators, config: ParamMinerConfig, wordlist: seq<string>)
    requires Assumptions(c)
    ensures var ts := RunTasks(c, EnabledMethods(config), wordlist);
      && (forall i :: 0 <= i < |ts| ==> Enabled(config, ts[i].verb))
      && InMethodOrder(ts)
  {
    var ts := RunTasks(c, EnabledMethods(config), wordlist);
    RunTasksInOrder(c, EnabledMethods(config), wordlist);
    forall i | 0 <= i < |ts|
      ensures Enabled(config, ts[i].verb)
    {
      assert ts[i].verb in EnabledMethods(config);
    }
  }

  /**
   * A run from tasks `startSub` and requests `startReq` that has guessed with
   * `verbs` and reached tasks `sub` and requests `req`; `ok` is false once
   * guessing has failed, which happens exactly when there is no wordlist.
   */
  ghost predicate RunState(c: Collaborators, wordlist: Option<seq<string>>, verbs: seq<Method>, ok: bool,
                           startSub: seq<Task>, sub: seq<Task>, startReq: seq<Baseline>, req: seq<Baseline>)
  {
    && Assumptions(c)
    && req == startReq + ControlBaselines(verbs)
    && (wordlist.Some? ==> ok && sub == startSub + RunTasks(c, verbs, wordlist.value))
    && (wordlist.None? ==> sub == startSub && (ok <==> verbs == []))
  }

  /** Guessing with one more method, as StartGuess does it, keeps the state of a run. */
  lemma RunStateStep(c: Collaborators, wordlist: Option<seq<string>>, verbs: seq<Method>, verb: Method, ok: bool, ok': bool,
                     startSub: seq<Task>, sub: seq<Task>, sub': seq<Task>,
                     startReq: seq<Baseline>, req: seq<Baseline>, req': seq<Baseline>)
    requires RunState(c, wordlist, verbs, ok, startSub, sub, startReq, req)
    requires ok
    requires req' == req + [Baseline(verb, ControlRequest())]
    requires ok' <==> wordlist.Some?
    requires ok' ==> sub' == sub + GuessRun(c, verb, wordlist.value).0
    requires !ok' ==> sub' == sub
    ensures RunState(c, wordlist, verbs + [verb], ok', startSub, sub', startReq, req')
  {
    RunStep(c, verbs, verb, wordlist);
    AppendAssoc(startReq, ControlBaselines(verbs), [Baseline(verb, ControlRequest())]);
    if wordlist.Some? {
      AppendAssoc(startSub, RunTasks(c, verbs, wordlist.value), GuessRun(c, verb, wordlist.value).0);
    }
  }

  /** A run starts having guessed with no method. */
  lemma RunStateStart(c: Collaborators, config: ParamMinerConfig, wordlist: Option<seq<string>>,
                      startSub: seq<Task>, startReq: seq<Baseline>)
    requires Assumptions(c)
    ensures StartedVerbs(config, wordlist.Some?, 0) == []
    ensures RunState(c, wordlist, [], true, startSub, startSub, startReq, startReq)
  {
    assert startSub + [] == startSub && startReq + [] == startReq;
  }

  /**
   * What a whole run does, from tasks `startSub` and requests `startReq` to
   * tasks `sub` and requests `req`: with a wordlist, it sends the baseline and
   * submits the tasks of every enabled method, in order; without one, it sends
   * the baseline of the first enabled method only (guessing then fails) and
   * submits nothing.
   */
  ghost predicate RunOutcome(c: Collaborators, config: ParamMinerConfig, wordlist: Option<seq<string>>,
                             startSub: seq<Task>, sub: seq<Task>, startReq: seq<Baseline>, req: seq<Baseline>)
  {
    && Assumptions(c)
    && (wordlist.Some? ==>
          && sub == startSub + RunTasks(c, EnabledMethods(config), wordlist.value)
          && req == startReq + ControlBaselines(EnabledMethods(config)))
    && (wordlist.None? ==>
          && sub == startSub
          && req == startReq + ControlBaselines(EnabledMethods(config)[..if EnabledMethods(config) == [] then 0 else 1]))
  }

  /** Once all four methods were considered, a run has done what Run promises. */
  lemma RunStateDone(c: Collaborators, config: ParamMinerConfig, wordlist: Option<seq<string>>, verbs: seq<Method>, ok: bool,
                     startSub: seq<Task>, sub: seq<Task>, startReq: seq<Baseline>, req: seq<Baseline>)
    requires verbs == StartedVerbs(config, wordlist.Some?, 4)
    requires RunState(c, wordlist, verbs, ok, startSub, sub, startReq, req)
    ensures RunOutcome(c, config, wordlist, startSub, sub, startReq, req)
  {
    StartedAll(config, wordlist.Some?);
  }

  // ---------------------------------------------------------------------------
  // The coordinator

  /** Adds the items to the end of the list, one at a time. */
  method AppendEach(list: seq<Group>, items: seq<Group>) returns (r: seq<Group>)
    ensures r == list + items
  {
    r := list;
    for j := 0 to |items|
      invariant r == list + items[..j]
    {
      assert items[..j + 1] == items[..j] + [items[j]];
      r := r + [items[j]];
    }
    assert items[..|items|] == items;
  }

  class UrlGuesser {
    const config: ParamMinerConfig
    const collab: Collaborators
    /** The merged wordlist; None when neither list was loaded (a null list). */
    const wordlist: Option<seq<string>>
    /** The tasks submitted to the executor, in order. */
    var submitted: seq<Task>
    /** The baseline requests sent, in order. */
    var requests: seq<Baseline>

    /**
     * `predefinedFile` and `customFile` are what reading the built-in and the
     * configured wordlist file yields (None for null); each is loaded only when
     * the configuration asks for it.
     */
    constructor (config: ParamMinerConfig, collab: Collaborators,
                 predefinedFile: Option<seq<string>>, customFile: Option<seq<string>>)
      ensures this.config == config && this.collab == collab
      ensures MergedFrom(wordlist, if config.usePredefinedUrlWordlists then predefinedFile else None,
                         if config.useCustomUrlWordlists then customFile else None)
      ensures submitted == [] && requests == []
    {
      this.config := config;
      this.collab := collab;
      var predefined := if config.usePredefinedUrlWordlists then predefinedFile else None;
      var custom := if config.useCustomUrlWordlists then customFile else None;
      var merged := MergeWordlists(predefined, custom);
      wordlist := merged;
      submitted := [];
      requests := [];
    }

    /**
     * One round: one BRUTEFORCE task per group, in order; the slices of what
     * each probe reports, in order, are the groups of the next round.
     */
    method NarrowDownParams(base: Baseline, verb: Method, groups: seq<Group>) returns (narrowed: seq<Group>)
      modifies this`submitted
      ensures narrowed == Narrow(collab, base, verb, groups)
      ensures submitted == old(submitted) + Submissions(BruteForce, verb, base, groups)
    {
      narrowed := [];
      for i := 0 to |groups|
        invariant narrowed == Narrow(collab, base, verb, groups[..i])
        invariant submitted == old(submitted) + Submissions(BruteForce, verb, base, groups[..i])
      {
        NarrowPrefix(collab, base, verb, groups, i);
        AppendAssoc(old(submitted), Submissions(BruteForce, verb, base, groups[..i]), [Task(BruteForce, verb, base, groups[i])]);
        narrowed := NarrowGroup(base, verb, groups[i], narrowed);
      }
      assert groups[..|groups|] == groups;
    }

    /**
     * One turn of `narrowDownParams`: submit the group's probe, and when it
     * reports a change, append the slices of the reported parameters.
     */
    method NarrowGroup(base: Baseline, verb: Method, group: Group, narrowed: seq<Group>) returns (narrowed': seq<Group>)
      modifies this`submitted
      ensures narrowed' == narrowed + Refined(collab, base, verb, group)
      ensures submitted == old(submitted) + [Task(BruteForce, verb, base, group)]
    {
      submitted := submitted + [Task(BruteForce, verb, base, group)];
      var outcome := collab.probe(base, verb, group);
      narrowed' := narrowed;
      if outcome.Some? {
        var slices := collab.slice(outcome.value);
        narrowed' := AppendEach(narrowed', slices);
      }
    }

    /**
     * Guessing with one request method: the baseline request, the narrowing
     * loop, then one VERIFY task per usable candidate. Returns false when the
     * wordlist is null: populating it throws, after the baseline was sent.
     */
    method StartGuess(verb: Method) returns (ok: bool)
      requires Assumptions(collab)
      modifies this`submitted, this`requests
      ensures requests == old(requests) + [Baseline(verb, ControlRequest())]
      ensures ok <==> wordlist.Some?
      ensures ok ==> submitted == old(submitted) + GuessRun(collab, verb, wordlist.value).0
      ensures !ok ==> submitted == old(submitted)
    {
      var base := Baseline(verb, ControlRequest());
      requests := requests + [base];
      if wordlist.None? {
        return false;
      }
      var groups := collab.slice(collab.populate(wordlist.value));
      var usable := NarrowingLoop(base, verb, groups);
      SubmitVerifications(base, verb, usable);
      AppendAssoc(old(submitted), Guess(collab, base, verb, groups, []).0, Submissions(Verify, verb, base, usable));
      return true;
    }

    /**
     * The `while (true)` loop of guessing: rounds until confirming leaves no
     * group. Returns the usable parameters.
     */
    method NarrowingLoop(base: Baseline, verb: Method, groups0: seq<Group>) returns (usable: seq<Group>)
      requires Assumptions(collab)
      modifies this`submitted
      ensures submitted == old(submitted) + Guess(collab, base, verb, groups0, []).0
      ensures usable == Guess(collab, base, verb, groups0, []).1
    {
      var groups := groups0;
      usable := [];
      ghost var whole := Guess(collab, base, verb, groups0, []);
      assert old(submitted) + whole.0 == submitted + Guess(collab, base, verb, groups, usable).0;
      while true
        invariant LoopState(collab, base, verb, groups, usable, old(submitted), submitted, whole)
        decreases Weight(groups)
      {
        LoopTurn(collab, base, verb, groups, usable, old(submitted), submitted, whole);
        var narrowed := NarrowDownParams(base, verb, groups);
        var confirmed := collab.confirm(narrowed, usable);
        groups, usable := confirmed.0, confirmed.1;
        if groups == [] {
          break;
        }
      }
    }

    /** The verification pass: one VERIFY task per usable candidate, in order. */
    method SubmitVerifications(base: Baseline, verb: Method, usable: seq<Group>)
      modifies this`submitted
      ensures submitted == old(submitted) + Submissions(Verify, verb, base, usable)
    {
      for i := 0 to |usable|
        invariant submitted == old(submitted) + Submissions(Verify, verb, base, usable[..i])
      {
        assert usable[..i + 1] == usable[..i] + [usable[i]];
        submitted := submitted + [Task(Verify, verb, base, usable[i])];
      }
      assert usable[..|usable|] == usable;
    }

    /**
     * The state of a run from `startSub` and `startReq` that has considered
     * the first `k` methods and guessed with `verbs`; `ok` is false once
     * guessing has failed.
     */
    ghost predicate RunSoFar(k: nat, verbs: seq<Method>, ok: bool, startSub: seq<Task>, startReq: seq<Baseline>)
      reads this
    {
      && k <= 4
      && verbs == StartedVerbs(config, wordlist.Some?, k)
      && RunState(collab, wordlist, verbs, ok, startSub, submitted, startReq, requests)
    }

    /**
     * Guessing with every enabled method in turn, GET, POST, XML, JSON; a
     * failure ends the run.
     */
    method Run()
      requires Assumptions(collab)
      modifies this`submitted, this`requests
      ensures RunOutcome(collab, config, wordlist, old(submitted), submitted, old(requests), requests)
    {
      ghost var verbs: seq<Method> := [];
      var ok := true;
      ghost var startSub, startReq := submitted, requests;
      RunStateStart(collab, config, wordlist, startSub, startReq);
      assert RunSoFar(0, verbs, ok, startSub, startReq);
      ok, verbs := GuessIfEnabled(config.urlGetRequest, 0, ok, verbs, startSub, startReq);
      ok, verbs := GuessIfEnabled(config.urlPostRequest, 1, ok, verbs, startSub, startReq);
      ok, verbs := GuessIfEnabled(config.urlXmlRequest, 2, ok, verbs, startSub, startReq);
      ok, verbs := GuessIfEnabled(config.urlJsonRequest, 3, ok, verbs, startSub, startReq);
      assert RunSoFar(4, verbs, ok, startSub, startReq);
      RunStateDone(collab, config, wordlist, verbs, ok, startSub, submitted, startReq, requests);
    }

    /** One `if` of the run: guessing with method number `k` when it is enabled and the run has not failed. */
    method GuessIfEnabled(enabled: bool, k: nat, ok: bool,
                          ghost verbs: seq<Method>, ghost startSub: seq<Task>, ghost startReq: seq<Baseline>)
      returns (ok': bool, ghost verbs': seq<Method>)
      requires k < 4 && enabled == Enabled(config, AllMethods[k])
      requires RunSoFar(k, verbs, ok, startSub, startReq)
      modifies this`submitted, this`requests
      ensures RunSoFar(k + 1, verbs', ok', startSub, startReq)
    {
      StartedStep(config, wordlist.Some?, k);
      ok', verbs' := ok, verbs;
      if ok && enabled {
        ghost var sub, req := submitted, requests;
        ok' := StartGuess(AllMethods[k]);
        RunStateStep(collab, wordlist, verbs, AllMethods[k], ok, ok', startSub, sub, submitted, startReq, req, requests);
        verbs' := verbs + [AllMethods[k]];
      }
    }
  }
}
