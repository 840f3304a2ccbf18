/**
 * The claim / publish / retry protocol as a state machine: any number of processors over one
 * table, each stopped at the awaits of `runCycle` and `process`. A step reads whatever clock it
 * likes. A store write, once sent, lands at any later moment or never, also after its caller
 * saw an exception or died.
 */
module OutboxProtocol {
  import opened Wrappers
  import opened OutboxRows

  type Pid = nat

  /** Where one processor stands. `todo` is the part of its batch not finished, current event first. */
  datatype Phase =
    | Idle
    | Claiming(cfg: Config, token: Token, now: Instant, snaps: seq<Row>)
    | Looping(cfg: Config, todo: seq<Row>)
    | Publishing(cfg: Config, todo: seq<Row>)
    | Marking(cfg: Config, todo: seq<Row>, w: Write)
    | Recording(cfg: Config, todo: seq<Row>, w: Write)

  datatype Claim = Claim(ids: set<Id>, at: Instant)

  /** `used` and what follows only record what happened: `called` the publish calls begun,
      `accepted` those whose event has reached the gateway, `acked` those that returned. */
  datatype State = State(
    clock: Instant,
    rows: Table,
    locks: map<Id, Pid>,
    procs: map<Pid, Phase>,
    wire: set<Write>,
    used: set<Token>,
    claims: map<Token, Claim>,
    latest: map<Id, Token>,
    called: set<(Id, Token)>,
    accepted: set<(Id, Token)>,
    acked: set<(Id, Token)>,
    landings: seq<Write>)

  datatype Label =
    | Tick(clock: Instant)
    | Enqueue(row: Row)
    | SetDeleted(id: Id, deletedAt: Option<Instant>)
    | OpenClaim(p: Pid, cfg: Config, token: Token, now: Instant, skipped: set<Id>, picked: seq<Id>)
    | CommitClaim(p: Pid, claimedAt: Instant, lost: bool)
    | AbortClaim(p: Pid)
    | Begin(p: Pid)
    | Accept(id: Id, token: Token)
    | PublishReturns(p: Pid, now: Instant)
    | PublishThrows(p: Pid, blame: Blame)
    | Land(w: Write)
    | StoreReturns(p: Pid)
    | StoreThrows(p: Pid, blame: Blame)
    | Finish(p: Pid)
    | Crash(p: Pid)

  // ----- steps

  ghost predicate Init(s: State) {
    && s.rows == map[] && s.locks == map[] && s.wire == {} && s.used == {} && s.claims == map[]
    && s.latest == map[] && s.called == {} && s.accepted == {} && s.acked == {} && s.landings == []
    && forall p | p in s.procs :: s.procs[p].Idle?
  }

  /** What a service's own `enqueue` inserts. */
  predicate Fresh(r: Row) {
    && r.status.Pending? && r.attemptCount == 0 && r.nextAttemptAt.Some?
    && r.claimedAt.None? && r.claimToken.None?
  }

  function Released(locks: map<Id, Pid>, p: Pid): map<Id, Pid> {
    map id | id in locks && locks[id] != p :: locks[id]
  }

  /** A row and the claim an event of it came with. */
  function Key(e: Row): (Id, Token) {
    (e.id, if e.claimToken.Some? then e.claimToken.value else 0)
  }

  /** Control moves past the current event. */
  function Advanced(ph: Phase): Phase
    requires (ph.Looping? || ph.Marking? || ph.Recording?) && ph.todo != []
  {
    Looping(ph.cfg, ph.todo[1..])
  }

  /** The query skips what open claims hold, and what an UPDATE holds while it is under way. */
  ghost predicate StepOpenClaim(s: State, s': State, p: Pid, cfg: Config, token: Token, now: Instant,
                                skipped: set<Id>, picked: seq<Id>) {
    && p in s.procs && s.procs[p].Idle? && token !in s.used
    && s.locks.Keys <= skipped && Selects(s.rows, skipped, now, cfg, picked)
    && s' == s.(used := s.used + {token},
                locks := s.locks + (map id | id in picked :: p),
                procs := s.procs[p := Claiming(cfg, token, now, Snapshot(s.rows, picked))])
  }

  ghost predicate StepCommitClaim(s: State, s': State, p: Pid, claimedAt: Instant, lost: bool) {
    && p in s.procs && s.procs[p].Claiming?
    && var ph := s.procs[p];
       var ids := Ids(ph.snaps);
       s' == s.(rows := ClaimRows(s.rows, ids, ph.token, claimedAt),
                locks := Released(s.locks, p),
                procs := s.procs[p := if lost then Idle else Looping(ph.cfg, Stamped(ph.snaps, ph.token, claimedAt))],
                claims := s.claims[ph.token := Claim(ids, claimedAt)],
                latest := s.latest + (map id | id in ids :: ph.token))
  }

  ghost predicate StepBegin(s: State, s': State, p: Pid) {
    && p in s.procs && s.procs[p].Looping? && s.procs[p].todo != []
    && var ph := s.procs[p];
       s' == s.(procs := s.procs[p := if HasLease(ph.todo[0]) then Publishing(ph.cfg, ph.todo) else Advanced(ph)],
                called := if HasLease(ph.todo[0]) then s.called + {Key(ph.todo[0])} else s.called)
  }

  /** The gateway takes the event of a call, which may be still running, have thrown, or have died
      with its processor. */
  ghost predicate StepAccept(s: State, s': State, id: Id, token: Token) {
    (id, token) in s.called && s' == s.(accepted := s.accepted + {(id, token)})
  }

  /** A call that returns has been accepted. */
  ghost predicate StepPublishReturns(s: State, s': State, p: Pid, now: Instant) {
    && p in s.procs && s.procs[p].Publishing? && s.procs[p].todo != [] && HasLease(s.procs[p].todo[0])
    && var ph := s.procs[p];
       var w := MarkWrite(ph.todo[0], now);
       s' == s.(procs := s.procs[p := Marking(ph.cfg, ph.todo, w)],
                wire := s.wire + {w},
                accepted := s.accepted + {(w.id, w.token)},
                acked := s.acked + {(w.id, w.token)})
  }

  /** The catch block: reached from `publish` and from `markPublished` alike. */
  ghost predicate StepFail(s: State, s': State, p: Pid, blame: Blame) {
    && p in s.procs && (s.procs[p].Publishing? || s.procs[p].Marking?)
    && s.procs[p].todo != [] && HasLease(s.procs[p].todo[0])
    && var ph := s.procs[p];
       var w := FailureWrite(ph.todo[0], ph.cfg, blame);
       s' == s.(procs := s.procs[p := Recording(ph.cfg, ph.todo, w)], wire := s.wire + {w})
  }

  /** An UPDATE reaches the table. One that would change a row waits for that row's lock. */
  ghost predicate StepLand(s: State, s': State, w: Write) {
    && w in s.wire && (Lands(s.rows, w) ==> w.id !in s.locks)
    && s' == s.(rows := AfterWrite(s.rows, w), wire := s.wire - {w},
                landings := if Lands(s.rows, w) then s.landings + [w] else s.landings)
  }

  ghost predicate StepGoIdle(s: State, s': State, p: Pid) {
    s' == s.(procs := s.procs[p := Idle], locks := Released(s.locks, p))
  }

  ghost predicate Next(s: State, l: Label, s': State) {
    match l
    case Tick(clock) => s.clock <= clock && s' == s.(clock := clock)
    case Enqueue(row) => row.id !in s.rows && Fresh(row) && s' == s.(rows := s.rows[row.id := row])
    case SetDeleted(id, at) =>
      id in s.rows && id !in s.locks && s' == s.(rows := s.rows[id := s.rows[id].(deletedAt := at)])
    case OpenClaim(p, cfg, token, now, skipped, picked) => StepOpenClaim(s, s', p, cfg, token, now, skipped, picked)
    case CommitClaim(p, claimedAt, lost) => StepCommitClaim(s, s', p, claimedAt, lost)
    case AbortClaim(p) => p in s.procs && s.procs[p].Claiming? && StepGoIdle(s, s', p)
    case Begin(p) => StepBegin(s, s', p)
    case Accept(id, token) => StepAccept(s, s', id, token)
    case PublishReturns(p, now) => StepPublishReturns(s, s', p, now)
    case PublishThrows(p, blame) => p in s.procs && s.procs[p].Publishing? && StepFail(s, s', p, blame)
    case Land(w) => StepLand(s, s', w)
    case StoreReturns(p) =>
      && p in s.procs && (s.procs[p].Marking? || s.procs[p].Recording?) && s.procs[p].todo != []
      && s.procs[p].w !in s.wire
      && s' == s.(procs := s.procs[p := Advanced(s.procs[p])])
    case StoreThrows(p, blame) =>
      && p in s.procs
      && (if s.procs[p].Marking? then StepFail(s, s', p, blame)
          else s.procs[p].Recording? && StepGoIdle(s, s', p))
    case Finish(p) => p in s.procs && s.procs[p].Looping? && s.procs[p].todo == [] && StepGoIdle(s, s', p)
    case Crash(p) => p in s.procs && StepGoIdle(s, s', p)
  }

  ghost predicate Run(tr: seq<State>, ls: seq<Label>) {
    && |tr| == |ls| + 1 && Init(tr[0])
    && forall i {:trigger ls[i]} | 0 <= i < |ls| :: Next(tr[i], ls[i], tr[i + 1])
  }

  // ----- the invariant

  /** A row is PROCESSING exactly while it is leased, and waits for an attempt exactly while it is
      not finished. */
  predicate RowOk(r: Row) {
    && (r.status.Processing? <==> r.claimToken.Some?)
    && (r.status.Processing? <==> r.claimedAt.Some?)
    && (r.status.Pending? || r.status.Processing? <==> r.nextAttemptAt.Some?)
  }

  ghost predicate TableOk(s: State) {
    forall id | id in s.rows :: s.rows[id].id == id && RowOk(s.rows[id])
  }

  ghost predicate ClaimedIn(s: State, id: Id, token: Token) {
    id in s.rows && token in s.claims && id in s.claims[token].ids
  }

  ghost predicate LeaseOk(s: State, id: Id)
    requires id in s.rows
  {
    s.rows[id].claimToken.Some? ==>
      && ClaimedIn(s, id, s.rows[id].claimToken.value)
      && s.rows[id].claimedAt == Some(s.claims[s.rows[id].claimToken.value].at)
      && id in s.latest && s.latest[id] == s.rows[id].claimToken.value
  }

  ghost predicate LeasesOk(s: State) {
    && s.claims.Keys <= s.used
    && (forall k | k in s.claims :: s.claims[k].ids <= s.rows.Keys)
    && forall id | id in s.rows :: LeaseOk(s, id)
  }

  /** A snapshot in some processor's hands: stale perhaps, but while its token is the row's, its
      attempt count is the row's too. */
  ghost predicate HeldOk(s: State, e: Row) {
    && HasLease(e) && ClaimedIn(s, e.id, e.claimToken.value)
    && e.tenantId == s.rows[e.id].tenantId
    && (s.rows[e.id].claimToken == e.claimToken ==> s.rows[e.id].attemptCount == e.attemptCount)
  }

  ghost predicate SentOk(s: State, w: Write) {
    && ClaimedIn(s, w.id, w.token)
    && w.tenantId == s.rows[w.id].tenantId
    && (w.Mark? ==> (w.id, w.token) in s.acked)
    && (w.Failure? ==> (w.isDeadLetter <==> w.nextAttemptAt.None?))
    && (w.Failure? && s.rows[w.id].claimToken == Some(w.token) ==> w.attemptCount == s.rows[w.id].attemptCount + 1)
  }

  ghost predicate AllHeldOk(s: State, todo: seq<Row>) {
    forall i | 0 <= i < |todo| :: HeldOk(s, todo[i])
  }

  ghost predicate WireOk(s: State) {
    forall w | w in s.wire :: SentOk(s, w)
  }

  /** An open claim transaction: its rows were due when it read them, are locked by it and are
      still what it read. */
  ghost predicate ClaimingOk(s: State, p: Pid, cfg: Config, token: Token, now: Instant, snaps: seq<Row>) {
    && token in s.used && token !in s.claims && |snaps| <= cfg.batchSize
    && (forall i | 0 <= i < |snaps| ::
          && snaps[i].id in s.rows && s.rows[snaps[i].id] == snaps[i]
          && snaps[i].id in s.locks && s.locks[snaps[i].id] == p
          && Due(snaps[i], now, cfg.claimTimeoutMs))
    && (forall i, j | 0 <= i < j < |snaps| :: snaps[i].id != snaps[j].id)
  }

  ghost predicate PhaseOk(s: State, p: Pid)
    requires p in s.procs
  {
    match s.procs[p]
    case Idle => true
    case Claiming(cfg, token, now, snaps) => ClaimingOk(s, p, cfg, token, now, snaps)
    case Looping(_, todo) => AllHeldOk(s, todo)
    case Publishing(_, todo) => AllHeldOk(s, todo) && todo != []
    case Marking(_, todo, _) => AllHeldOk(s, todo) && todo != []
    case Recording(_, todo, _) => AllHeldOk(s, todo) && todo != []
  }

  ghost predicate PhasesOk(s: State) {
    && (forall p | p in s.procs :: PhaseOk(s, p))
    && (forall p, q | p in s.procs && q in s.procs && p != q && s.procs[p].Claiming? && s.procs[q].Claiming? ::
          s.procs[p].token != s.procs[q].token)
  }

  ghost predicate LocksOk(s: State) {
    forall id | id in s.locks ::
      s.locks[id] in s.procs && s.procs[s.locks[id]].Claiming? && id in Ids(s.procs[s.locks[id]].snaps)
  }

  ghost predicate Inv(s: State) {
    TableOk(s) && LeasesOk(s) && WireOk(s) && PhasesOk(s) && LocksOk(s)
  }

  // ----- what a step may do behind the back of a snapshot or of a write under way

  /** Rows and claims stay; a row keeps its tenant, and its attempts too unless its lease ends or
      goes to a new claim. */
  ghost predicate Compatible(s: State, s': State) {
    && s.rows.Keys <= s'.rows.Keys && s.acked <= s'.acked
    && (forall k | k in s.claims :: k in s'.claims && s'.claims[k] == s.claims[k])
    && (forall id | id in s.rows :: RowKept(s, s.rows[id], s'.rows[id]))
  }

  ghost predicate RowKept(s: State, r: Row, r': Row) {
    && r'.tenantId == r.tenantId
    && (|| r'.claimToken.None?
        || r'.claimToken.value !in s.claims
        || (r'.claimToken == r.claimToken && r'.attemptCount == r.attemptCount))
  }

  lemma HeldStays(s: State, s': State, e: Row)
    requires Compatible(s, s') && HeldOk(s, e)
    ensures HeldOk(s', e)
  {
    assert RowKept(s, s.rows[e.id], s'.rows[e.id]);
  }

  lemma SentStays(s: State, s': State, w: Write)
    requires Compatible(s, s') && SentOk(s, w)
    ensures SentOk(s', w)
  {
    assert RowKept(s, s.rows[w.id], s'.rows[w.id]);
  }

  /** Nothing happened to what an open claim holds. */
  ghost predicate Undisturbed(s: State, s': State, token: Token, snaps: seq<Row>) {
    && s.used <= s'.used && token !in s'.claims
    && forall i | 0 <= i < |snaps| && snaps[i].id in s.rows && snaps[i].id in s.locks ::
         && snaps[i].id in s'.rows && s'.rows[snaps[i].id] == s.rows[snaps[i].id]
         && snaps[i].id in s'.locks && s'.locks[snaps[i].id] == s.locks[snaps[i].id]
  }

  lemma PhaseStays(s: State, s': State, q: Pid)
    requires Compatible(s, s') && q in s.procs && q in s'.procs && s'.procs[q] == s.procs[q] && PhaseOk(s, q)
    requires s.procs[q].Claiming? ==> Undisturbed(s, s', s.procs[q].token, s.procs[q].snaps)
    ensures PhaseOk(s', q)
  {
    if !s.procs[q].Claiming? && !s.procs[q].Idle? {
      var todo := s.procs[q].todo;
      forall i | 0 <= i < |todo| ensures HeldOk(s', todo[i]) {
        HeldStays(s, s', todo[i]);
      }
    }
  }

  // ----- every step keeps it

  lemma InitInv(s: State)
    requires Init(s)
    ensures Inv(s)
  {
  }

  /** One row is inserted or changed, and it is not locked. */
  lemma RowStep(s: State, s': State, r: Row)
    requires Inv(s) && RowOk(r) && r.id !in s.locks
    requires s'.procs == s.procs && s'.locks == s.locks && s'.claims == s.claims && s'.used == s.used
    requires s'.latest == s.latest && s'.acked == s.acked && s'.wire <= s.wire
    requires s'.rows == s.rows[r.id := r]
    requires r.claimToken.Some? ==>
      r.id in s.rows && r.claimToken == s.rows[r.id].claimToken && r.claimedAt == s.rows[r.id].claimedAt
    requires r.id in s.rows ==> RowKept(s, s.rows[r.id], r)
    ensures Inv(s')
  {
    assert Compatible(s, s');
    forall w | w in s'.wire ensures SentOk(s', w) {
      SentStays(s, s', w);
    }
    forall q | q in s'.procs ensures PhaseOk(s', q) {
      assert PhaseOk(s, q);
      PhaseStays(s, s', q);
    }
    forall id | id in s'.rows ensures LeaseOk(s', id) {
      if id in s.rows {
        assert LeaseOk(s, id);
      }
    }
  }

  lemma LandInv(s: State, s': State, w: Write)
    requires Inv(s) && StepLand(s, s', w)
    ensures Inv(s')
  {
    assert SentOk(s, w);
    if Lands(s.rows, w) {
      RowStep(s, s', Patched(s.rows[w.id], w));
    } else if w.id in s.rows {
      assert s.rows == s.rows[w.id := s.rows[w.id]];
      forall v | v in s'.wire ensures SentOk(s', v) {
        assert Compatible(s, s');
        SentStays(s, s', v);
      }
      forall q | q in s'.procs ensures PhaseOk(s', q) {
        PhaseStays(s, s', q);
      }
    }
  }

  /** One processor moves on, outside its claim transaction; the rows stay as they are. */
  lemma LocalStep(s: State, s': State, p: Pid)
    requires Inv(s) && p in s.procs
    requires s'.rows == s.rows && s'.claims == s.claims && s'.used == s.used && s'.latest == s.latest
    requires s.acked <= s'.acked
    requires s'.procs.Keys == s.procs.Keys && forall q | q in s.procs && q != p :: s'.procs[q] == s.procs[q]
    requires !s'.procs[p].Claiming? && s'.locks == Released(s.locks, p)
    requires PhaseOk(s', p)
    requires forall w | w in s'.wire && w !in s.wire :: SentOk(s', w)
    ensures Inv(s')
  {
    assert Compatible(s, s');
    forall w | w in s'.wire ensures SentOk(s', w) {
      if w in s.wire {
        SentStays(s, s', w);
      }
    }
    forall q | q in s'.procs ensures PhaseOk(s', q) {
      if q != p {
        assert PhaseOk(s, q);
        PhaseStays(s, s', q);
      }
    }
    forall id | id in s'.rows ensures LeaseOk(s', id) {
      assert LeaseOk(s, id);
    }
  }

  /** A processor outside a claim transaction holds no lock. */
  lemma NothingToRelease(s: State, p: Pid)
    requires LocksOk(s) && p in s.procs && !s.procs[p].Claiming?
    ensures Released(s.locks, p) == s.locks
  {
  }

  lemma TodoHeld(s: State, s': State, todo: seq<Row>)
    requires s'.rows == s.rows && s'.claims == s.claims && AllHeldOk(s, todo)
    ensures AllHeldOk(s', todo)
    ensures todo != [] ==> AllHeldOk(s', todo[1..])
  {
    forall i | 0 <= i < |todo| ensures HeldOk(s', todo[i]) {
      assert HeldOk(s, todo[i]);
    }
  }

  lemma GoIdleInv(s: State, s': State, p: Pid)
    requires Inv(s) && p in s.procs && StepGoIdle(s, s', p)
    ensures Inv(s')
  {
    LocalStep(s, s', p);
  }

  lemma BeginInv(s: State, s': State, p: Pid)
    requires Inv(s) && StepBegin(s, s', p)
    ensures Inv(s')
  {
    assert PhaseOk(s, p);
    NothingToRelease(s, p);
    TodoHeld(s, s', s.procs[p].todo);
    LocalStep(s, s', p);
  }

  lemma PublishReturnsInv(s: State, s': State, p: Pid, now: Instant)
    requires Inv(s) && StepPublishReturns(s, s', p, now)
    ensures Inv(s')
  {
    assert PhaseOk(s, p);
    NothingToRelease(s, p);
    var todo := s.procs[p].todo;
    TodoHeld(s, s', todo);
    assert HeldOk(s, todo[0]);
    assert SentOk(s', MarkWrite(todo[0], now));
    LocalStep(s, s', p);
  }

  lemma FailInv(s: State, s': State, p: Pid, blame: Blame)
    requires Inv(s) && StepFail(s, s', p, blame)
    ensures Inv(s')
  {
    assert PhaseOk(s, p);
    NothingToRelease(s, p);
    var todo := s.procs[p].todo;
    TodoHeld(s, s', todo);
    assert HeldOk(s, todo[0]);
    assert SentOk(s', FailureWrite(todo[0], s.procs[p].cfg, blame));
    LocalStep(s, s', p);
  }

  lemma StoreReturnsInv(s: State, s': State, p: Pid)
    requires Inv(s) && Next(s, StoreReturns(p), s')
    ensures Inv(s')
  {
    assert PhaseOk(s, p);
    NothingToRelease(s, p);
    TodoHeld(s, s', s.procs[p].todo);
    LocalStep(s, s', p);
  }

  lemma OpenClaimHolds(s: State, s': State, p: Pid, cfg: Config, token: Token, now: Instant,
                        skipped: set<Id>, picked: seq<Id>)
    requires Inv(s) && StepOpenClaim(s, s', p, cfg, token, now, skipped, picked)
    ensures ClaimingOk(s', p, cfg, token, now, s'.procs[p].snaps)
    ensures forall id | id in picked :: id in Ids(s'.procs[p].snaps) && id !in s.locks
  {
    var snaps := s'.procs[p].snaps;
    forall i | 0 <= i < |snaps| ensures snaps[i].id == picked[i] && snaps[i].id in Ids(snaps) && picked[i] !in s.locks {
      assert Candidate(s.rows, skipped, now, cfg.claimTimeoutMs, picked[i]);
    }
  }

  lemma OpenClaimPhases(s: State, s': State, p: Pid, cfg: Config, token: Token, now: Instant,
                        skipped: set<Id>, picked: seq<Id>)
    requires Inv(s) && StepOpenClaim(s, s', p, cfg, token, now, skipped, picked)
    ensures PhasesOk(s')
  {
    OpenClaimHolds(s, s', p, cfg, token, now, skipped, picked);
    assert Compatible(s, s');
    forall q | q in s'.procs ensures PhaseOk(s', q) {
      if q != p {
        assert PhaseOk(s, q);
        PhaseStays(s, s', q);
      }
    }
    forall q | q in s.procs && q != p && s.procs[q].Claiming? ensures s.procs[q].token != token {
      assert PhaseOk(s, q);
    }
  }

  lemma OpenClaimInv(s: State, s': State, p: Pid, cfg: Config, token: Token, now: Instant,
                        skipped: set<Id>, picked: seq<Id>)
    requires Inv(s) && StepOpenClaim(s, s', p, cfg, token, now, skipped, picked)
    ensures Inv(s')
  {
    OpenClaimPhases(s, s', p, cfg, token, now, skipped, picked);
    assert LocksOk(s') by {
      OpenClaimHolds(s, s', p, cfg, token, now, skipped, picked);
    }
    assert WireOk(s') by {
      forall w | w in s'.wire ensures SentOk(s', w) {
        SentStays(s, s', w);
      }
    }
    assert LeasesOk(s') by {
      forall id | id in s'.rows ensures LeaseOk(s', id) {
        assert LeaseOk(s, id);
      }
    }
  }

  lemma RowOfSnap(s: State, p: Pid, id: Id) returns (i: nat)
    requires Inv(s) && p in s.procs && s.procs[p].Claiming? && id in Ids(s.procs[p].snaps)
    ensures i < |s.procs[p].snaps| && s.procs[p].snaps[i].id == id
    ensures id in s.rows && s.rows[id] == s.procs[p].snaps[i]
    ensures id in s.locks && s.locks[id] == p
    ensures Due(s.rows[id], s.procs[p].now, s.procs[p].cfg.claimTimeoutMs)
  {
    assert PhaseOk(s, p);
    i :| 0 <= i < |s.procs[p].snaps| && s.procs[p].snaps[i].id == id;
  }

  /** The rows a commit stamps are exactly the ones its transaction holds, unchanged since it read them. */
  lemma CommitRows(s: State, s': State, p: Pid, claimedAt: Instant, lost: bool)
    requires Inv(s) && StepCommitClaim(s, s', p, claimedAt, lost)
    ensures s'.rows.Keys == s.rows.Keys && Ids(s.procs[p].snaps) <= s.rows.Keys
    ensures s.procs[p].token !in s.claims
    ensures forall id | id in s.rows ::
      s'.rows[id] == if id !in Ids(s.procs[p].snaps) then s.rows[id]
                     else StampRow(s.rows[id], s.procs[p].token, claimedAt)
    ensures forall id | id in Ids(s.procs[p].snaps) ::
      id in s.locks && s.locks[id] == p && Due(s.rows[id], s.procs[p].now, s.procs[p].cfg.claimTimeoutMs)
  {
    assert PhaseOk(s, p);
    forall id | id in Ids(s.procs[p].snaps)
      ensures id in s.rows && id in s.locks && s.locks[id] == p
      ensures Due(s.rows[id], s.procs[p].now, s.procs[p].cfg.claimTimeoutMs)
    {
      var i := RowOfSnap(s, p, id);
    }
  }

  lemma CommitCompatible(s: State, s': State, p: Pid, claimedAt: Instant, lost: bool)
    requires Inv(s) && StepCommitClaim(s, s', p, claimedAt, lost)
    ensures Compatible(s, s')
  {
    CommitRows(s, s', p, claimedAt, lost);
    forall id | id in s.rows ensures RowKept(s, s.rows[id], s'.rows[id]) {
    }
  }

  lemma CommitTable(s: State, s': State, p: Pid, claimedAt: Instant, lost: bool)
    requires Inv(s) && StepCommitClaim(s, s', p, claimedAt, lost)
    ensures TableOk(s') && LeasesOk(s')
  {
    CommitRows(s, s', p, claimedAt, lost);
    assert PhaseOk(s, p);
    forall id | id in s'.rows ensures s'.rows[id].id == id && RowOk(s'.rows[id]) && LeaseOk(s', id) {
      assert RowOk(s.rows[id]) && LeaseOk(s, id);
    }
  }

  lemma CommitBatch(s: State, s': State, p: Pid, claimedAt: Instant)
    requires Inv(s) && StepCommitClaim(s, s', p, claimedAt, false)
    ensures AllHeldOk(s', s'.procs[p].todo)
  {
    CommitRows(s, s', p, claimedAt, false);
    var snaps, todo := s.procs[p].snaps, s'.procs[p].todo;
    assert PhaseOk(s, p);
    forall i | 0 <= i < |todo| ensures HeldOk(s', todo[i]) {
      assert todo[i] == StampRow(snaps[i], s.procs[p].token, claimedAt);
      assert snaps[i].id in Ids(snaps);
    }
  }

  lemma CommitOthers(s: State, s': State, p: Pid, claimedAt: Instant, lost: bool, q: Pid)
    requires Inv(s) && StepCommitClaim(s, s', p, claimedAt, lost)
    requires q in s.procs && q != p && Compatible(s, s')
    ensures PhaseOk(s', q)
  {
    CommitRows(s, s', p, claimedAt, lost);
    assert PhaseOk(s, q);
    if s.procs[q].Claiming? {
      var snaps := s.procs[q].snaps;
      forall i | 0 <= i < |snaps| ensures snaps[i].id !in Ids(s.procs[p].snaps) {
        assert s.locks[snaps[i].id] == q;
      }
    }
    PhaseStays(s, s', q);
  }

  lemma CommitClaimInv(s: State, s': State, p: Pid, claimedAt: Instant, lost: bool)
    requires Inv(s) && StepCommitClaim(s, s', p, claimedAt, lost)
    ensures Inv(s')
  {
    CommitTable(s, s', p, claimedAt, lost);
    CommitCompatible(s, s', p, claimedAt, lost);
    forall w | w in s'.wire ensures SentOk(s', w) {
      SentStays(s, s', w);
    }
    forall q | q in s'.procs ensures PhaseOk(s', q) {
      if q != p {
        CommitOthers(s, s', p, claimedAt, lost, q);
      } else if !lost {
        CommitBatch(s, s', p, claimedAt);
      }
    }
  }

  /** The clock moves, or the gateway does. */
  lemma OutsideInv(s: State, s': State)
    requires Inv(s) && s' == s.(clock := s'.clock, accepted := s'.accepted)
    ensures Inv(s')
  {
    assert Compatible(s, s');
    forall w | w in s'.wire ensures SentOk(s', w) {
      SentStays(s, s', w);
    }
    forall q | q in s'.procs ensures PhaseOk(s', q) {
      PhaseStays(s, s', q);
    }
  }

  lemma NextInv(s: State, l: Label, s': State)
    requires Inv(s) && Next(s, l, s')
    ensures Inv(s')
  {
    match l
    case Tick(clock) => OutsideInv(s, s');
    case Enqueue(row) => RowStep(s, s', row);
    case SetDeleted(id, at) => RowStep(s, s', s'.rows[id]);
    case OpenClaim(p, cfg, token, now, skipped, picked) => OpenClaimInv(s, s', p, cfg, token, now, skipped, picked);
    case CommitClaim(p, claimedAt, lost) => CommitClaimInv(s, s', p, claimedAt, lost);
    case AbortClaim(p) => GoIdleInv(s, s', p);
    case Begin(p) => BeginInv(s, s', p);
    case Accept(_, _) => OutsideInv(s, s');
    case PublishReturns(p, now) => PublishReturnsInv(s, s', p, now);
    case PublishThrows(p, blame) => FailInv(s, s', p, blame);
    case Land(w) => LandInv(s, s', w);
    case StoreReturns(p) => StoreReturnsInv(s, s', p);
    case StoreThrows(p, blame) =>
      if s.procs[p].Marking? { FailInv(s, s', p, blame); } else { GoIdleInv(s, s', p); }
    case Finish(p) => GoIdleInv(s, s', p);
    case Crash(p) => GoIdleInv(s, s', p);
  }
}
