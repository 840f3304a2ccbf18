/**
 * The single-flight token cache of src/service-token/service-token.service.ts.
 *
 * One step is what runs between two awaits: a call, the settling of an exchange, the `finally`
 * that clears the slot, the resumption of a waiting caller. Instants and lifetimes are reals, in
 * milliseconds.
 */
module ServiceToken {
  import opened Wrappers

  type Instant = real
  type Caller = nat
  type ExchangeId = nat

  datatype Options = Options(isConfigured: bool, refreshSkewSeconds: real)

  datatype Error = NoCredential | Unreachable | Refused(status: int) | InvalidBody | NoUsableToken

  datatype Token = Token(accessToken: string, expiresInSeconds: real)

  datatype CachedToken = CachedToken(accessToken: string, expiresAt: Instant)

  // ----- the reply of the exchange

  /** A parsed body. An array is an object without the two fields. */
  datatype Json = JNull | JBool(b: bool) | JNumber(n: real) | JString(s: string) | JObject(fields: map<string, Json>)

  datatype Reply = NoAnswer | Answer(status: int, body: Json)

  /** The body carries this token. */
  predicate Carries(body: Json, t: Token) {
    && body.JObject? && "accessToken" in body.fields && "expiresInSeconds" in body.fields
    && body.fields["accessToken"] == JString(t.accessToken)
    && body.fields["expiresInSeconds"] == JNumber(t.expiresInSeconds)
  }

  function NarrowToken(body: Json): (r: Result<Token, Error>)
    ensures r.Ok? ==> Carries(body, r.value) && r.value.accessToken != "" && r.value.expiresInSeconds > 0.0
    ensures r.Err? ==> forall t: Token | Carries(body, t) :: t.accessToken == "" || t.expiresInSeconds <= 0.0
  {
    if !body.JObject? then Err(InvalidBody)
    else if "accessToken" !in body.fields || "expiresInSeconds" !in body.fields then Err(NoUsableToken)
    else
      match (body.fields["accessToken"], body.fields["expiresInSeconds"])
      case (JString(s), JNumber(n)) => if s == "" || n <= 0.0 then Err(NoUsableToken) else Ok(Token(s, n))
      case _ => Err(NoUsableToken)
  }

  function Outcome(reply: Reply): Result<Token, Error> {
    match reply
    case NoAnswer => Err(Unreachable)
    case Answer(status, body) => if status < 200 || status >= 300 then Err(Refused(status)) else NarrowToken(body)
  }

  /** An exchange succeeds exactly when the answer is a 2xx whose body carries a usable token. */
  lemma OutcomeIff(reply: Reply, t: Token)
    ensures Outcome(reply) == Ok(t) <==>
      && reply.Answer? && 200 <= reply.status <= 299
      && Carries(reply.body, t) && t.accessToken != "" && t.expiresInSeconds > 0.0
    ensures Outcome(reply) == Err(Unreachable) <==> reply.NoAnswer?
    ensures forall status :: Outcome(reply) == Err(Refused(status)) <==>
              reply.Answer? && reply.status == status && !(200 <= status <= 299)
  {
  }

  // ----- cache, slot and exchanges

  /** Pending until the reply; settled until the slot is cleared behind it. */
  datatype Phase =
    | Pending
    | Settled(at: Instant, outcome: Result<Token, Error>)
    | Cleared(at: Instant, outcome: Result<Token, Error>)

  datatype Exchange = Exchange(startedAt: Instant, phase: Phase)

  /** The service's two fields, and every exchange begun so far in order. */
  datatype Core = Core(cached: Option<CachedToken>, inFlight: Option<ExchangeId>, exchanges: seq<Exchange>)

  /** What a call hands its caller: a token at once, or a promise to wait on. */
  datatype Ticket = Immediate(accessToken: string) | Join(x: ExchangeId)

  predicate ServesCached(core: Core, opts: Options, now: Instant) {
    core.cached.Some? && core.cached.value.expiresAt - opts.refreshSkewSeconds * 1000.0 > now
  }

  /** Without a credential fetchToken throws before it awaits anything. */
  function Begun(opts: Options, now: Instant): Exchange {
    Exchange(now, if opts.isConfigured then Pending else Settled(now, Err(NoCredential)))
  }

  function Asked(core: Core, opts: Options, now: Instant): Core {
    if ServesCached(core, opts, now) || core.inFlight.Some? then core
    else core.(inFlight := Some(|core.exchanges|), exchanges := core.exchanges + [Begun(opts, now)])
  }

  function TicketFor(core: Core, opts: Options, now: Instant): Ticket {
    if ServesCached(core, opts, now) then Immediate(core.cached.value.accessToken)
    else if core.inFlight.Some? then Join(core.inFlight.value)
    else Join(|core.exchanges|)
  }

  function SettledBy(core: Core, x: ExchangeId, reply: Reply, now: Instant): Core
    requires x < |core.exchanges|
  {
    var outcome := Outcome(reply);
    core.(exchanges := core.exchanges[x := core.exchanges[x].(phase := Settled(now, outcome))],
          cached := if outcome.Ok?
                    then Some(CachedToken(outcome.value.accessToken, now + outcome.value.expiresInSeconds * 1000.0))
                    else core.cached)
  }

  /** The `finally` callback: it empties the slot whatever is in it. */
  function SlotCleared(core: Core, x: ExchangeId): Core
    requires x < |core.exchanges| && core.exchanges[x].phase.Settled?
  {
    var ph := core.exchanges[x].phase;
    core.(inFlight := None, exchanges := core.exchanges[x := core.exchanges[x].(phase := Cleared(ph.at, ph.outcome))])
  }

  class ServiceTokenService {
    const options: Options
    var cached: Option<CachedToken>
    var inFlight: Option<ExchangeId>
    var exchanges: seq<Exchange>

    function View(): Core
      reads this
    {
      Core(cached, inFlight, exchanges)
    }

    constructor (options: Options)
      ensures this.options == options && View() == Core(None, None, [])
    {
      this.options := options;
      cached, inFlight, exchanges := None, None, [];
    }

    method GetAccessToken(now: Instant) returns (ticket: Ticket)
      modifies this
      ensures View() == Asked(old(View()), options, now)
      ensures ticket == TicketFor(old(View()), options, now)
    {
      if cached.Some? && cached.value.expiresAt - options.refreshSkewSeconds * 1000.0 > now {
        return Immediate(cached.value.accessToken);
      }
      if inFlight.None? {
        exchanges := exchanges + [Exchange(now, Pending)];
        if !options.isConfigured {
          exchanges := exchanges[|exchanges| - 1 := Exchange(now, Settled(now, Err(NoCredential)))];
        }
        inFlight := Some(|exchanges| - 1);
      }
      ticket := Join(inFlight.value);
    }

    /** The rest of fetchToken, from the reply on. */
    method Settle(x: ExchangeId, reply: Reply, now: Instant)
      requires x < |exchanges| && exchanges[x].phase.Pending?
      modifies this
      ensures View() == SettledBy(old(View()), x, reply, now)
    {
      var outcome := Outcome(reply);
      if outcome.Ok? {
        cached := Some(CachedToken(outcome.value.accessToken, now + outcome.value.expiresInSeconds * 1000.0));
      }
      exchanges := exchanges[x := exchanges[x].(phase := Settled(now, outcome))];
    }

    method Finally(x: ExchangeId)
      requires x < |exchanges| && exchanges[x].phase.Settled?
      modifies this
      ensures View() == SlotCleared(old(View()), x)
    {
      inFlight := None;
      var ph := exchanges[x].phase;
      exchanges := exchanges[x := exchanges[x].(phase := Cleared(ph.at, ph.outcome))];
    }

    method Invalidate()
      modifies this`cached
      ensures cached == None
    {
      cached := None;
    }
  }

  // ----- every interleaving

  datatype CallState =
    | Served(accessToken: string, at: Instant)
    | Waiting(x: ExchangeId)
    | Got(x: ExchangeId, outcome: Result<Token, Error>)

  datatype State = State(clock: Instant, core: Core, callers: map<Caller, CallState>)

  datatype Label =
    | Tick(clock: Instant)
    | Ask(c: Caller)
    | Respond(x: ExchangeId, reply: Reply)
    | Clear(x: ExchangeId)
    | Deliver(c: Caller)
    | Drop

  ghost predicate Init(s: State) {
    s.core == Core(None, None, []) && s.callers == map[]
  }

  ghost predicate Next(opts: Options, s: State, l: Label, s': State) {
    match l
    case Tick(clock) => s.clock <= clock && s' == s.(clock := clock)
    case Ask(c) =>
      && c !in s.callers
      && var t := TicketFor(s.core, opts, s.clock);
         s' == s.(core := Asked(s.core, opts, s.clock),
                  callers := s.callers[c := if t.Immediate? then Served(t.accessToken, s.clock) else Waiting(t.x)])
    case Respond(x, reply) =>
      && x < |s.core.exchanges| && s.core.exchanges[x].phase.Pending?
      && s' == s.(core := SettledBy(s.core, x, reply, s.clock))
    case Clear(x) =>
      && x < |s.core.exchanges| && s.core.exchanges[x].phase.Settled?
      && s' == s.(core := SlotCleared(s.core, x))
    case Deliver(c) =>
      && c in s.callers && s.callers[c].Waiting?
      && s.callers[c].x < |s.core.exchanges| && s.core.exchanges[s.callers[c].x].phase.Cleared?
      && s' == s.(callers := s.callers[c := Got(s.callers[c].x, s.core.exchanges[s.callers[c].x].phase.outcome)])
    case Drop => s' == s.(core := s.core.(cached := None))
  }

  ghost predicate Run(opts: Options, tr: seq<State>, ls: seq<Label>) {
    && |tr| == |ls| + 1 && Init(tr[0])
    && forall i {:trigger ls[i]} | 0 <= i < |ls| :: Next(opts, tr[i], ls[i], tr[i + 1])
  }

  /** An exchange is unfinished exactly while it is the one in the slot, and that is the newest. */
  ghost predicate OneInFlight(core: Core) {
    && (forall x | 0 <= x < |core.exchanges| :: !core.exchanges[x].phase.Cleared? <==> core.inFlight == Some(x))
    && (core.inFlight.Some? ==> core.inFlight.value == |core.exchanges| - 1)
  }

  /** The cached token is one an exchange was given, for the lifetime it was given with. */
  ghost predicate Minted(core: Core, x: ExchangeId, accessToken: string, expiresAt: Instant) {
    && x < |core.exchanges| && !core.exchanges[x].phase.Pending?
    && var ph := core.exchanges[x].phase;
       ph.outcome.Ok? && ph.outcome.value.accessToken == accessToken
       && expiresAt == ph.at + ph.outcome.value.expiresInSeconds * 1000.0
  }

  ghost predicate CacheOk(core: Core) {
    core.cached.Some? ==> exists x :: Minted(core, x, core.cached.value.accessToken, core.cached.value.expiresAt)
  }

  ghost predicate CallersOk(s: State) {
    forall c | c in s.callers ::
      match s.callers[c]
      case Served(_, _) => true
      case Waiting(x) => x < |s.core.exchanges|
      case Got(x, o) =>
        x < |s.core.exchanges| && s.core.exchanges[x].phase.Cleared? && s.core.exchanges[x].phase.outcome == o
  }

  ghost predicate Inv(s: State) {
    OneInFlight(s.core) && CacheOk(s.core) && CallersOk(s)
  }

  lemma NextInv(opts: Options, s: State, l: Label, s': State)
    requires Inv(s) && Next(opts, s, l, s')
    ensures Inv(s')
  {
    assert CacheOk(s'.core) by {
      if l.Respond? && Outcome(l.reply).Ok? {
        assert Minted(s'.core, l.x, s'.core.cached.value.accessToken, s'.core.cached.value.expiresAt);
      } else if s'.core.cached.Some? {
        var x :| Minted(s.core, x, s.core.cached.value.accessToken, s.core.cached.value.expiresAt);
        assert Minted(s'.core, x, s'.core.cached.value.accessToken, s'.core.cached.value.expiresAt);
      }
    }
  }

  lemma {:induction false} Reached(opts: Options, tr: seq<State>, ls: seq<Label>, n: nat)
    requires Run(opts, tr, ls) && n < |tr|
    ensures Inv(tr[n])
  {
    if n > 0 {
      Reached(opts, tr, ls, n - 1);
      NextInv(opts, tr[n - 1], ls[n - 1], tr[n]);
    }
  }

  // ----- single flight

  /** However calls, replies, failures, invalidations and ticks interleave, at most one exchange is
      outstanding, and a call made while it is joins it instead of starting another, unless the
      cache serves it. */
  lemma SingleFlight(opts: Options, tr: seq<State>, ls: seq<Label>, n: nat, x: nat, y: nat)
    requires Run(opts, tr, ls) && n < |tr|
    requires x < |tr[n].core.exchanges| && y < |tr[n].core.exchanges|
    requires !tr[n].core.exchanges[x].phase.Cleared? && !tr[n].core.exchanges[y].phase.Cleared?
    ensures x == y
    ensures n < |ls| && ls[n].Ask? ==>
      && tr[n + 1].core == tr[n].core
      && (tr[n + 1].callers[ls[n].c] == Waiting(x) || ServesCached(tr[n].core, opts, tr[n].clock))
  {
    Reached(opts, tr, ls, n);
    if n < |ls| && ls[n].Ask? {
      assert Next(opts, tr[n], ls[n], tr[n + 1]);
    }
  }

  lemma StepForward(opts: Options, s: State, l: Label, s': State, x: nat)
    requires Inv(s) && Next(opts, s, l, s') && x < |s.core.exchanges|
    ensures x < |s'.core.exchanges| && s'.core.exchanges[x].startedAt == s.core.exchanges[x].startedAt
    ensures !s.core.exchanges[x].phase.Pending? ==>
      && !s'.core.exchanges[x].phase.Pending?
      && s'.core.exchanges[x].phase.outcome == s.core.exchanges[x].phase.outcome
      && s'.core.exchanges[x].phase.at == s.core.exchanges[x].phase.at
    ensures s.core.exchanges[x].phase.Cleared? ==> s'.core.exchanges[x].phase.Cleared?
  {
  }

  lemma {:induction false} Forward(opts: Options, tr: seq<State>, ls: seq<Label>, i: nat, j: nat, x: nat)
    requires Run(opts, tr, ls) && i <= j < |tr| && x < |tr[i].core.exchanges|
    ensures x < |tr[j].core.exchanges| && tr[j].core.exchanges[x].startedAt == tr[i].core.exchanges[x].startedAt
    ensures !tr[i].core.exchanges[x].phase.Pending? ==>
      && !tr[j].core.exchanges[x].phase.Pending?
      && tr[j].core.exchanges[x].phase.outcome == tr[i].core.exchanges[x].phase.outcome
      && tr[j].core.exchanges[x].phase.at == tr[i].core.exchanges[x].phase.at
    ensures tr[i].core.exchanges[x].phase.Cleared? ==> tr[j].core.exchanges[x].phase.Cleared?
    decreases j
  {
    if i < j {
      Forward(opts, tr, ls, i, j - 1, x);
      Reached(opts, tr, ls, j - 1);
      StepForward(opts, tr[j - 1], ls[j - 1], tr[j], x);
    }
  }

  /** All that joined one exchange get its one outcome, success or failure, whenever each resumes. */
  lemma JoinersAgree(opts: Options, tr: seq<State>, ls: seq<Label>, i: nat, j: nat, c: Caller, d: Caller)
    requires Run(opts, tr, ls) && i <= j < |tr|
    requires c in tr[i].callers && tr[i].callers[c].Got? && d in tr[j].callers && tr[j].callers[d].Got?
    requires tr[i].callers[c].x == tr[j].callers[d].x
    ensures tr[i].callers[c].outcome == tr[j].callers[d].outcome
  {
    Reached(opts, tr, ls, i);
    Reached(opts, tr, ls, j);
    Forward(opts, tr, ls, i, j, tr[i].callers[c].x);
  }

  /** Clearing empties the slot after success and failure alike, and never drops an exchange that
      is still running. */
  lemma ClearedSlotIsOwn(opts: Options, tr: seq<State>, ls: seq<Label>, i: nat)
    requires Run(opts, tr, ls) && i < |ls| && ls[i].Clear?
    ensures tr[i].core.inFlight == Some(ls[i].x) && tr[i + 1].core.inFlight == None
    ensures var xs := tr[i + 1].core.exchanges; forall y | 0 <= y < |xs| :: xs[y].phase.Cleared?
  {
    Reached(opts, tr, ls, i);
    Reached(opts, tr, ls, i + 1);
    assert Next(opts, tr[i], ls[i], tr[i + 1]);
  }

  lemma {:induction false} WaitsOnAsked(opts: Options, tr: seq<State>, ls: seq<Label>, i: nat, n: nat, c: Caller)
    requires Run(opts, tr, ls) && i < n < |tr| && ls[i] == Ask(c)
    ensures c in tr[n].callers && c in tr[i + 1].callers
    ensures tr[i + 1].callers[c].Served? ==> tr[n].callers[c] == tr[i + 1].callers[c]
    ensures tr[i + 1].callers[c].Waiting? ==> !tr[n].callers[c].Served? && tr[n].callers[c].x == tr[i + 1].callers[c].x
    ensures !tr[i + 1].callers[c].Got?
    decreases n
  {
    assert Next(opts, tr[i], ls[i], tr[i + 1]);
    if n > i + 1 {
      WaitsOnAsked(opts, tr, ls, i, n - 1, c);
      assert Next(opts, tr[n - 1], ls[n - 1], tr[n]);
    }
  }

  /** No call made after an exchange was cleared ever waits on it or receives what it was rejected
      with. */
  lemma NoStaleOutcome(opts: Options, tr: seq<State>, ls: seq<Label>, j: nat, i: nat, n: nat, c: Caller)
    requires Run(opts, tr, ls) && j < i < n < |tr| && ls[j].Clear? && ls[i] == Ask(c)
    ensures c in tr[n].callers
    ensures !tr[n].callers[c].Served? ==> tr[n].callers[c].x > ls[j].x
  {
    assert Next(opts, tr[j], ls[j], tr[j + 1]);
    Forward(opts, tr, ls, j + 1, i, ls[j].x);
    Reached(opts, tr, ls, i);
    WaitsOnAsked(opts, tr, ls, i, n, c);
    assert Next(opts, tr[i], ls[i], tr[i + 1]);
  }

  // ----- failures

  /** A failed exchange leaves the cached token alone; a successful one replaces it by its own, for
      the lifetime it was given. */
  lemma ReplyAndCache(opts: Options, tr: seq<State>, ls: seq<Label>, i: nat)
    requires Run(opts, tr, ls) && i < |ls| && ls[i].Respond?
    ensures Outcome(ls[i].reply).Err? ==> tr[i + 1].core.cached == tr[i].core.cached
    ensures Outcome(ls[i].reply).Ok? ==>
      var t := Outcome(ls[i].reply).value;
      tr[i + 1].core.cached == Some(CachedToken(t.accessToken, tr[i].clock + 1000.0 * t.expiresInSeconds))
    ensures ls[i].x < |tr[i + 1].core.exchanges|
    ensures tr[i + 1].core.exchanges[ls[i].x].phase == Settled(tr[i].clock, Outcome(ls[i].reply))
  {
    assert Next(opts, tr[i], ls[i], tr[i + 1]);
  }

  /** Without a credential nothing is ever exchanged: every call waits on a refusal, and gets it. */
  ghost predicate OnlyRefusals(s: State) {
    && s.core.cached == None
    && (forall x | 0 <= x < |s.core.exchanges| ::
          !s.core.exchanges[x].phase.Pending? && s.core.exchanges[x].phase.outcome == Err(NoCredential))
    && (forall c | c in s.callers ::
          !s.callers[c].Served? && (s.callers[c].Got? ==> s.callers[c].outcome == Err(NoCredential)))
  }

  lemma {:induction false} UnconfiguredRefuses(opts: Options, tr: seq<State>, ls: seq<Label>, n: nat)
    requires Run(opts, tr, ls) && !opts.isConfigured && n < |tr|
    ensures OnlyRefusals(tr[n])
  {
    if n > 0 {
      UnconfiguredRefuses(opts, tr, ls, n - 1);
      assert Next(opts, tr[n - 1], ls[n - 1], tr[n]);
    }
  }

  /** With one, no exchange ends for want of it. */
  ghost predicate NoneUncredentialled(core: Core) {
    forall x | 0 <= x < |core.exchanges| && !core.exchanges[x].phase.Pending? ::
      core.exchanges[x].phase.outcome != Err(NoCredential)
  }

  lemma {:induction false} ConfiguredExchanges(opts: Options, tr: seq<State>, ls: seq<Label>, n: nat)
    requires Run(opts, tr, ls) && opts.isConfigured && n < |tr|
    ensures NoneUncredentialled(tr[n].core)
  {
    if n > 0 {
      ConfiguredExchanges(opts, tr, ls, n - 1);
      assert Next(opts, tr[n - 1], ls[n - 1], tr[n]);
    }
  }

  /** A call is served from the cache exactly while the token there has more than the skew left. */
  lemma ServedIffFresh(opts: Options, tr: seq<State>, ls: seq<Label>, i: nat)
    requires Run(opts, tr, ls) && i < |ls| && ls[i].Ask?
    ensures ls[i].c in tr[i + 1].callers
    ensures tr[i + 1].callers[ls[i].c].Served? <==>
      tr[i].core.cached.Some? && tr[i].core.cached.value.expiresAt - tr[i].clock > 1000.0 * opts.refreshSkewSeconds
    ensures tr[i + 1].callers[ls[i].c].Served? ==>
      tr[i + 1].callers[ls[i].c].accessToken == tr[i].core.cached.value.accessToken
  {
    assert Next(opts, tr[i], ls[i], tr[i + 1]);
  }

  // ----- freshness

  /** A token served from the cache was minted by an exchange and has more than the skew left. */
  lemma ServedIsFresh(opts: Options, tr: seq<State>, ls: seq<Label>, i: nat) returns (x: nat, expiresAt: Instant)
    requires Run(opts, tr, ls) && i < |ls| && ls[i].Ask?
    requires ls[i].c in tr[i + 1].callers && tr[i + 1].callers[ls[i].c].Served?
    ensures Minted(tr[i].core, x, tr[i + 1].callers[ls[i].c].accessToken, expiresAt)
    ensures expiresAt > tr[i].clock + opts.refreshSkewSeconds * 1000.0
  {
    Reached(opts, tr, ls, i);
    assert Next(opts, tr[i], ls[i], tr[i + 1]);
    expiresAt := tr[i].core.cached.value.expiresAt;
    x :| Minted(tr[i].core, x, tr[i].core.cached.value.accessToken, expiresAt);
  }

  // ----- spacing

  /** A healthy stretch: no invalidation, and every reply carries a token for at least lifetimeMs. */
  ghost predicate Healthy(opts: Options, ls: seq<Label>, lifetimeMs: real) {
    && opts.isConfigured
    && forall i | 0 <= i < |ls| ::
         && !ls[i].Drop?
         && (ls[i].Respond? ==>
               Outcome(ls[i].reply).Ok? && Outcome(ls[i].reply).value.expiresInSeconds * 1000.0 >= lifetimeMs)
  }

  function Gap(opts: Options, lifetimeMs: real): real {
    lifetimeMs - opts.refreshSkewSeconds * 1000.0
  }

  ghost predicate Spaced(core: Core, clock: Instant, gap: real) {
    && (forall x | 0 <= x < |core.exchanges| ::
          && core.exchanges[x].startedAt <= clock
          && (!core.exchanges[x].phase.Pending? ==> core.exchanges[x].startedAt <= core.exchanges[x].phase.at <= clock))
    && (forall x | 0 <= x < |core.exchanges| - 1 ::
          && !core.exchanges[x].phase.Pending?
          && core.exchanges[x].phase.at + gap <= core.exchanges[x + 1].startedAt)
  }

  ghost predicate Remembers(core: Core, lifetimeMs: real) {
    core.exchanges != [] ==>
      var last := core.exchanges[|core.exchanges| - 1];
      !last.phase.Pending? ==> core.cached.Some? && core.cached.value.expiresAt >= last.phase.at + lifetimeMs
  }

  lemma AskKeepsSpacing(opts: Options, s: State, l: Label, s': State, lifetimeMs: real)
    requires Inv(s) && Next(opts, s, l, s') && l.Ask? && opts.isConfigured
    requires Spaced(s.core, s.clock, Gap(opts, lifetimeMs)) && Remembers(s.core, lifetimeMs)
    ensures Spaced(s'.core, s'.clock, Gap(opts, lifetimeMs)) && Remembers(s'.core, lifetimeMs)
  {
  }

  lemma RespondKeepsSpacing(opts: Options, s: State, l: Label, s': State, lifetimeMs: real)
    requires Inv(s) && Next(opts, s, l, s') && l.Respond?
    requires Outcome(l.reply).Ok? && Outcome(l.reply).value.expiresInSeconds * 1000.0 >= lifetimeMs
    requires Spaced(s.core, s.clock, Gap(opts, lifetimeMs)) && Remembers(s.core, lifetimeMs)
    ensures Spaced(s'.core, s'.clock, Gap(opts, lifetimeMs)) && Remembers(s'.core, lifetimeMs)
  {
  }

  lemma StepKeepsSpacing(opts: Options, s: State, l: Label, s': State, lifetimeMs: real)
    requires Inv(s) && Next(opts, s, l, s') && Healthy(opts, [l], lifetimeMs)
    requires Spaced(s.core, s.clock, Gap(opts, lifetimeMs)) && Remembers(s.core, lifetimeMs)
    ensures Spaced(s'.core, s'.clock, Gap(opts, lifetimeMs)) && Remembers(s'.core, lifetimeMs)
  {
    assert [l][0] == l;
    if l.Ask? {
      AskKeepsSpacing(opts, s, l, s', lifetimeMs);
    } else if l.Respond? {
      RespondKeepsSpacing(opts, s, l, s', lifetimeMs);
    }
  }

  lemma {:induction false} SpacingReached(opts: Options, tr: seq<State>, ls: seq<Label>, n: nat, lifetimeMs: real)
    requires Run(opts, tr, ls) && Healthy(opts, ls, lifetimeMs) && n < |tr|
    ensures Spaced(tr[n].core, tr[n].clock, Gap(opts, lifetimeMs)) && Remembers(tr[n].core, lifetimeMs)
  {
    if n > 0 {
      SpacingReached(opts, tr, ls, n - 1, lifetimeMs);
      Reached(opts, tr, ls, n - 1);
      StepKeepsSpacing(opts, tr[n - 1], ls[n - 1], tr[n], lifetimeMs);
    }
  }

  lemma {:induction false} GapsAddUp(core: Core, clock: Instant, gap: real, x: nat)
    requires Spaced(core, clock, gap) && x < |core.exchanges|
    ensures core.exchanges[0].startedAt + x as real * gap <= core.exchanges[x].startedAt
  {
    if x > 0 {
      GapsAddUp(core, clock, gap, x - 1);
      assert x as real * gap == (x - 1) as real * gap + gap;
    }
  }

  /** Each exchange starts at least lifetime - skew after the one before it completed, so a run
      makes at most 1 + elapsed / (lifetime - skew) of them. */
  lemma ExchangesAreSpaced(opts: Options, tr: seq<State>, ls: seq<Label>, n: nat, lifetimeMs: real)
    requires Run(opts, tr, ls) && Healthy(opts, ls, lifetimeMs) && n < |tr|
    requires Gap(opts, lifetimeMs) > 0.0
    ensures
      var xs := tr[n].core.exchanges;
      && (forall x | 0 <= x < |xs| - 1 ::
            !xs[x].phase.Pending? && xs[x + 1].startedAt >= xs[x].phase.at + Gap(opts, lifetimeMs))
      && (xs != [] ==> |xs| as real <= 1.0 + (tr[n].clock - xs[0].startedAt) / Gap(opts, lifetimeMs))
  {
    SpacingReached(opts, tr, ls, n, lifetimeMs);
    var xs, gap := tr[n].core.exchanges, Gap(opts, lifetimeMs);
    if xs != [] {
      GapsAddUp(tr[n].core, tr[n].clock, gap, |xs| - 1);
      Quotient((|xs| - 1) as real, gap, tr[n].clock - xs[0].startedAt);
    }
  }

  lemma Quotient(k: real, gap: real, elapsed: real)
    requires gap > 0.0 && k * gap <= elapsed
    ensures k <= elapsed / gap
  {
    var q := elapsed / gap;
    assert q * gap == elapsed;
    if k > q {
      assert (k - q) * gap > 0.0;
    }
  }
}
