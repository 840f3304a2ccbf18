/**
 * What a call made after `invalidate` gets: never a token cached before, but possibly the outcome
 * of an exchange that was in the slot at the time.
 */
module TokenInvalidation {
  import opened Wrappers
  import opened ServiceToken

  /** The exchange had not settled when `before` was the state: it was pending, or not yet begun. */
  predicate Unsettled(before: Core, x: ExchangeId) {
    x >= |before.exchanges| || before.exchanges[x].phase.Pending?
  }

  /** What is in the cache, if anything, was given by an exchange that settled since `before`. */
  ghost predicate CachedSince(before: Core, core: Core) {
    core.cached.Some? ==>
      exists x :: Unsettled(before, x) && Minted(core, x, core.cached.value.accessToken, core.cached.value.expiresAt)
  }

  lemma {:induction false} CacheIsSince(opts: Options, tr: seq<State>, ls: seq<Label>, j: nat, n: nat)
    requires Run(opts, tr, ls) && j < n < |tr| && ls[j].Drop?
    ensures CachedSince(tr[j].core, tr[n].core)
    decreases n
  {
    var s, l, s' := tr[n - 1], ls[n - 1], tr[n];
    assert Next(opts, s, l, s');
    if n - 1 > j {
      CacheIsSince(opts, tr, ls, j, n - 1);
      ExchangesStay(opts, tr, ls, j, n - 1);
      CacheStep(opts, tr[j].core, s, l, s');
    }
  }

  /** What had settled stays settled, and nothing is forgotten. */
  lemma ExchangesStay(opts: Options, tr: seq<State>, ls: seq<Label>, j: nat, n: nat)
    requires Run(opts, tr, ls) && j <= n < |tr|
    ensures |tr[j].core.exchanges| <= |tr[n].core.exchanges|
    ensures forall x | 0 <= x < |tr[j].core.exchanges| && !Unsettled(tr[j].core, x) ::
      !tr[n].core.exchanges[x].phase.Pending?
  {
    if tr[j].core.exchanges != [] {
      Forward(opts, tr, ls, j, n, |tr[j].core.exchanges| - 1);
    }
    forall x | 0 <= x < |tr[j].core.exchanges| && !Unsettled(tr[j].core, x)
      ensures !tr[n].core.exchanges[x].phase.Pending?
    {
      Forward(opts, tr, ls, j, n, x);
    }
  }

  lemma CacheStep(opts: Options, before: Core, s: State, l: Label, s': State)
    requires CachedSince(before, s.core) && Next(opts, s, l, s')
    requires |before.exchanges| <= |s.core.exchanges|
    requires forall x | 0 <= x < |before.exchanges| && !Unsettled(before, x) :: !s.core.exchanges[x].phase.Pending?
    ensures CachedSince(before, s'.core)
  {
    if l.Respond? && Outcome(l.reply).Ok? {
      assert Unsettled(before, l.x);
      assert Minted(s'.core, l.x, s'.core.cached.value.accessToken, s'.core.cached.value.expiresAt);
    } else if s'.core.cached.Some? {
      var c := s.core.cached.value;
      var x :| Unsettled(before, x) && Minted(s.core, x, c.accessToken, c.expiresAt);
      assert Minted(s'.core, x, c.accessToken, c.expiresAt);
    }
  }

  /** A token served from the cache after an invalidation was given by an exchange that settled
      after it. */
  lemma ServedIsSinceInvalidation(opts: Options, tr: seq<State>, ls: seq<Label>, j: nat, i: nat) returns (x: nat)
    requires Run(opts, tr, ls) && j < i < |ls| && ls[j].Drop? && ls[i].Ask?
    requires ls[i].c in tr[i + 1].callers && tr[i + 1].callers[ls[i].c].Served?
    ensures Unsettled(tr[j].core, x)
    ensures x < |tr[i].core.exchanges| && !tr[i].core.exchanges[x].phase.Pending?
    ensures tr[i].core.exchanges[x].phase.outcome.Ok?
    ensures tr[i].core.exchanges[x].phase.outcome.value.accessToken == tr[i + 1].callers[ls[i].c].accessToken
  {
    assert Next(opts, tr[i], ls[i], tr[i + 1]);
    CacheIsSince(opts, tr, ls, j, i);
    var c := tr[i].core.cached.value;
    x :| Unsettled(tr[j].core, x) && Minted(tr[i].core, x, c.accessToken, c.expiresAt);
  }

  // ----- joining

  /** In the slot, though its outcome is already there: the `finally` has not run. */
  predicate HoldsSettled(core: Core) {
    core.inFlight.Some? && core.inFlight.value < |core.exchanges| && core.exchanges[core.inFlight.value].phase.Settled?
  }

  /** An exchange that `core` has not begun, or has begun and not seen settle. */
  datatype Since = BegunAfter | SettledAfter

  predicate Newer(since: Since, before: Core, x: ExchangeId) {
    x >= |before.exchanges| || (since.SettledAfter? && before.exchanges[x].phase.Pending?)
  }

  /** The caller's token or outcome, present or to come, is of an exchange begun (or settled) after
      `before`. */
  ghost predicate GetsNew(since: Since, before: Core, s: State, c: Caller) {
    c in s.callers &&
    match s.callers[c]
    case Waiting(x) => Newer(since, before, x)
    case Got(x, _) => Newer(since, before, x)
    case Served(token, _) =>
      exists x: nat :: Newer(since, before, x) && x < |s.core.exchanges| && !s.core.exchanges[x].phase.Pending?
                  && s.core.exchanges[x].phase.outcome.Ok?
                  && s.core.exchanges[x].phase.outcome.value.accessToken == token
  }

  predicate Rules(since: Since, core: Core) {
    match since
    case BegunAfter => core.inFlight.None?
    case SettledAfter => !HoldsSettled(core)
  }

  /** What a call joins after step j is what was in the slot then, or newer. */
  lemma {:induction false} SlotSince(opts: Options, tr: seq<State>, ls: seq<Label>, j: nat, n: nat)
    requires Run(opts, tr, ls) && j <= n < |tr|
    ensures tr[n].core.inFlight.Some? ==>
      tr[n].core.inFlight == tr[j].core.inFlight || tr[n].core.inFlight.value >= |tr[j].core.exchanges|
    decreases n
  {
    if j < n {
      SlotSince(opts, tr, ls, j, n - 1);
      ExchangesStay(opts, tr, ls, j, n - 1);
      assert Next(opts, tr[n - 1], ls[n - 1], tr[n]);
    }
  }

  lemma NewCallsAreNew(since: Since, opts: Options, tr: seq<State>, ls: seq<Label>, j: nat, i: nat, n: nat, c: Caller)
    requires Run(opts, tr, ls) && j < i < n < |tr| && ls[j].Drop? && ls[i] == Ask(c)
    requires Rules(since, tr[j].core)
    ensures GetsNew(since, tr[j].core, tr[n], c)
  {
    Reached(opts, tr, ls, j);
    assert Next(opts, tr[i], ls[i], tr[i + 1]);
    WaitsOnAsked(opts, tr, ls, i, n, c);
    ExchangesStay(opts, tr, ls, j, i);
    assert forall x: nat | Unsettled(tr[j].core, x) :: Newer(since, tr[j].core, x);
    if tr[i + 1].callers[c].Served? {
      var x := ServedIsSinceInvalidation(opts, tr, ls, j, i);
      Forward(opts, tr, ls, i, n, x);
    } else {
      SlotSince(opts, tr, ls, j, i);
    }
  }

  lemma FreshCaller(callers: map<Caller, CallState>) returns (c: Caller)
    ensures c !in callers
  {
    c := AboveAll(callers.Keys);
  }

  lemma {:induction false} AboveAll(cs: set<Caller>) returns (c: Caller)
    ensures forall d: Caller | d in cs :: d < c
    decreases |cs|
  {
    if cs == {} {
      c := 0;
    } else {
      var d: Caller :| d in cs;
      var rest := cs - {d};
      assert |rest| < |cs|;
      var above := AboveAll(rest);
      c := if d < above then above else d + 1;
      assert forall e | e in cs :: e == d || e in rest;
    }
  }

  lemma Extend(opts: Options, tr: seq<State>, ls: seq<Label>, l: Label, s: State)
    requires Run(opts, tr, ls) && Next(opts, tr[|ls|], l, s)
    ensures Run(opts, tr + [s], ls + [l])
  {
  }

  /** Whatever is in the slot of an emptied cache, the next caller gets the outcome of. */
  lemma NextCallJoins(opts: Options, tr: seq<State>, ls: seq<Label>)
    returns (tr': seq<State>, ls': seq<Label>, c: Caller)
    requires Run(opts, tr, ls) && tr[|ls|].core.cached.None? && tr[|ls|].core.inFlight.Some?
    ensures Run(opts, tr', ls') && tr <= tr' && ls <= ls' && |ls'| > |ls| && ls'[|ls|] == Ask(c)
    ensures c in tr'[|ls'|].callers && tr'[|ls'|].callers[c] == Waiting(tr[|ls|].core.inFlight.value)
  {
    var s := tr[|ls|];
    c := FreshCaller(s.callers);
    var asked := s.(callers := s.callers[c := Waiting(s.core.inFlight.value)]);
    Extend(opts, tr, ls, Ask(c), asked);
    tr', ls' := tr + [asked], ls + [Ask(c)];
  }

  /** If it had settled, that is an outcome from before the call. */
  lemma NextCallGetsOld(opts: Options, tr: seq<State>, ls: seq<Label>)
    returns (tr': seq<State>, ls': seq<Label>, c: Caller)
    requires Run(opts, tr, ls) && tr[|ls|].core.cached.None? && HoldsSettled(tr[|ls|].core)
    ensures Run(opts, tr', ls') && tr <= tr' && ls <= ls' && |ls'| > |ls| && ls'[|ls|] == Ask(c)
    ensures
      var core := tr[|ls|].core;
      var x := core.inFlight.value;
      c in tr'[|ls'|].callers && tr'[|ls'|].callers[c] == Got(x, core.exchanges[x].phase.outcome)
  {
    var x := tr[|ls|].core.inFlight.value;
    var outcome := tr[|ls|].core.exchanges[x].phase.outcome;
    c := FreshCaller(tr[|ls|].callers);
    var asked := tr[|ls|].(callers := tr[|ls|].callers[c := Waiting(x)]);
    Extend(opts, tr, ls, Ask(c), asked);
    tr', ls' := tr + [asked], ls + [Ask(c)];
    var cleared := asked.(core := SlotCleared(asked.core, x));
    Extend(opts, tr', ls', Clear(x), cleared);
    tr', ls' := tr' + [cleared], ls' + [Clear(x)];
    var delivered := cleared.(callers := cleared.callers[c := Got(x, outcome)]);
    Extend(opts, tr', ls', Deliver(c), delivered);
    tr', ls' := tr' + [delivered], ls' + [Deliver(c)];
  }

  const Configured := Options(true, 0.0)
  const Body := JObject(map["accessToken" := JString("old"), "expiresInSeconds" := JNumber(1.0)])
  const Old := Token("old", 1.0)

  /** A call starts an exchange, the exchange succeeds, and the cache is dropped before the `finally`
      has run. */
  lemma SettledInSlotRun() returns (tr: seq<State>, ls: seq<Label>)
    ensures Run(Configured, tr, ls) && ls == [Ask(0), Respond(0, Answer(200, Body)), Drop]
    ensures HoldsSettled(tr[|ls|].core)
    ensures tr[|ls|].core == Core(None, Some(0), [Exchange(0.0, Settled(0.0, Ok(Old)))])
  {
    var s := State(0.0, Core(None, None, []), map[]);
    var asked := State(0.0, Core(None, Some(0), [Exchange(0.0, Pending)]), map[0 := Waiting(0)]);
    var settled := Exchange(0.0, Settled(0.0, Ok(Old)));
    var answered := asked.(core := Core(Some(CachedToken("old", 1000.0)), Some(0), [settled]));
    var dropped := asked.(core := Core(None, Some(0), [settled]));
    Extend(Configured, [s], [], Ask(0), asked);
    Extend(Configured, [s, asked], [Ask(0)], Respond(0, Answer(200, Body)), answered);
    Extend(Configured, [s, asked, answered], [Ask(0), Respond(0, Answer(200, Body))], Drop, dropped);
    tr, ls := [s, asked, answered, dropped], [Ask(0), Respond(0, Answer(200, Body)), Drop];
  }

  /** So a caller that asks after the invalidation can be handed the token it was to get rid of. */
  lemma OldTokenIsHandedOut() returns (tr: seq<State>, ls: seq<Label>, j: nat, i: nat, c: Caller)
    ensures Run(Configured, tr, ls) && j < i < |ls| && ls[j].Drop? && ls[i] == Ask(c)
    ensures c in tr[|ls|].callers && tr[|ls|].callers[c].Got?
    ensures tr[|ls|].callers[c].outcome == Ok(Old) && !Unsettled(tr[j].core, tr[|ls|].callers[c].x)
  {
    var start, steps := SettledInSlotRun();
    assert Next(Configured, start[2], steps[2], start[3]);
    tr, ls, c := NextCallGetsOld(Configured, start, steps);
    j, i := 2, 3;
    assert ls[2] == steps[2] && tr[2] == start[2];
  }

  /** After a run that ends with an invalidation. */
  ghost predicate AllLaterCallsGetNew(since: Since, opts: Options, tr: seq<State>, ls: seq<Label>)
    requires Run(opts, tr, ls) && ls != []
  {
    forall tr': seq<State>, ls': seq<Label>, i: nat, n: nat, c: Caller |
      Run(opts, tr', ls') && tr <= tr' && ls <= ls' && |ls| <= i < n < |tr'| && ls'[i] == Ask(c) ::
      GetsNew(since, tr[|ls| - 1].core, tr'[n], c)
  }

  /** An invalidation makes sure that all later calls get what was begun after it exactly when the
      slot is empty at the time; what settled after it, exactly when the slot holds nothing that
      had settled. */
  lemma InvalidationIff(since: Since, opts: Options, tr: seq<State>, ls: seq<Label>)
    requires Run(opts, tr, ls) && ls != [] && ls[|ls| - 1].Drop?
    ensures AllLaterCallsGetNew(since, opts, tr, ls) <==> Rules(since, tr[|ls| - 1].core)
  {
    var j := |ls| - 1;
    if Rules(since, tr[j].core) {
      forall tr': seq<State>, ls': seq<Label>, i: nat, n: nat, c: Caller |
        Run(opts, tr', ls') && tr <= tr' && ls <= ls' && |ls| <= i < n < |tr'| && ls'[i] == Ask(c)
        ensures GetsNew(since, tr[j].core, tr'[n], c)
      {
        assert tr'[j] == tr[j] && ls'[j] == ls[j];
        NewCallsAreNew(since, opts, tr', ls', j, i, n, c);
      }
    } else {
      assert Next(opts, tr[j], ls[j], tr[j + 1]);
      Reached(opts, tr, ls, j);
      var tr', ls', c := NextCallJoins(opts, tr, ls);
      assert !GetsNew(since, tr[j].core, tr'[|ls'|], c);
    }
  }
}
