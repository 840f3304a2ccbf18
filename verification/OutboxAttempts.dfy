/**
 * Publish calls over every run of the outbox protocol: at most one per row and claim, and how many
 * a row can see in its life.
 */
module OutboxAttempts {
  import opened OutboxRows
  import opened OutboxProtocol
  import opened OutboxSafety
  import opened OutboxHistory
  import opened OutboxBudget
  import opened OutboxDeadLetter

  // ----- calls

  /** The step calls `publish` with an event of this row. */
  ghost predicate Starts(s: State, l: Label, id: Id) {
    && l.Begin? && l.p in s.procs && s.procs[l.p].Looping? && s.procs[l.p].todo != []
    && HasLease(s.procs[l.p].todo[0]) && s.procs[l.p].todo[0].id == id
  }

  /** How many of the first n steps did. */
  ghost function Calls(tr: seq<State>, ls: seq<Label>, n: nat, id: Id): nat
    requires |tr| == |ls| + 1 && n < |tr|
  {
    if n == 0 then 0 else Calls(tr, ls, n - 1, id) + (if Starts(tr[n - 1], ls[n - 1], id) then 1 else 0)
  }

  // ----- what is in hand

  function Held(ph: Phase): seq<Row> {
    match ph
    case Idle => []
    case Claiming(_, _, _, _) => []
    case Looping(_, todo) => todo
    case Publishing(_, todo) => todo
    case Marking(_, todo, _) => todo
    case Recording(_, todo, _) => todo
  }

  /** The part of a batch not begun. */
  function Waiting(ph: Phase): seq<Row> {
    if ph.Looping? || Held(ph) == [] then Held(ph) else Held(ph)[1..]
  }

  ghost predicate Apart(a: seq<Row>, b: seq<Row>) {
    forall i, j | 0 <= i < |a| && 0 <= j < |b| :: Key(a[i]) != Key(b[j])
  }

  ghost predicate Distinct(a: seq<Row>) {
    forall i, j | 0 <= i < j < |a| :: Key(a[i]) != Key(a[j])
  }

  /** What waits has not been called; the event being handled has, and is acknowledged once
      `publish` has returned. */
  ghost predicate PhaseFlies(acked: set<(Id, Token)>, ph: Phase, called: set<(Id, Token)>) {
    && Distinct(Held(ph))
    && (forall k | 0 <= k < |Waiting(ph)| :: Key(Waiting(ph)[k]) !in called)
    && (ph.Publishing? && ph.todo != [] ==> Key(ph.todo[0]) in called && Key(ph.todo[0]) !in acked)
    && (ph.Marking? && ph.todo != [] ==> Key(ph.todo[0]) in called && Key(ph.todo[0]) in acked)
    && (ph.Recording? && ph.todo != [] ==> Key(ph.todo[0]) in called)
  }

  ghost predicate AllFly(s: State) {
    forall p | p in s.procs :: PhaseFlies(s.acked, s.procs[p], s.called)
  }

  ghost predicate AllApart(procs: map<Pid, Phase>) {
    forall p, q | p in procs && q in procs && p != q :: Apart(Held(procs[p]), Held(procs[q]))
  }

  ghost predicate SentWereCalled(s: State) {
    && s.acked <= s.accepted <= s.called
    && (forall w | w in s.wire :: (w.id, w.token) in s.called)
    && (forall i | 0 <= i < |s.landings| :: (s.landings[i].id, s.landings[i].token) in s.called)
  }

  ghost predicate AllClaimed(s: State) {
    forall x | x in s.called :: ClaimedIn(s, x.0, x.1)
  }

  ghost predicate FlightOk(s: State) {
    AllClaimed(s) && SentWereCalled(s) && AllFly(s) && AllApart(s.procs)
  }

  // ----- one processor's part

  lemma BegunPhase(acked: set<(Id, Token)>, called: set<(Id, Token)>, cfg: Config, todo: seq<Row>)
    requires PhaseFlies(acked, Looping(cfg, todo), called) && todo != [] && acked <= called
    ensures PhaseFlies(acked, Publishing(cfg, todo), called + {Key(todo[0])})
  {
    assert Waiting(Looping(cfg, todo))[0] == todo[0];
    forall k | 0 <= k < |todo[1..]| ensures Key(todo[1..][k]) !in called + {Key(todo[0])} {
      assert Waiting(Looping(cfg, todo))[k + 1] == todo[1..][k];
      assert Key(todo[0]) != Key(todo[k + 1]);
    }
  }

  lemma MarkingPhase(acked: set<(Id, Token)>, called: set<(Id, Token)>, ph: Phase, w: Write)
    requires PhaseFlies(acked, ph, called) && ph.Publishing? && ph.todo != []
    ensures PhaseFlies(acked + {Key(ph.todo[0])}, Marking(ph.cfg, ph.todo, w), called)
  {
    assert Waiting(Marking(ph.cfg, ph.todo, w)) == Waiting(ph);
  }

  lemma RecordingPhase(acked: set<(Id, Token)>, called: set<(Id, Token)>, ph: Phase, w: Write)
    requires PhaseFlies(acked, ph, called) && (ph.Publishing? || ph.Marking?) && ph.todo != []
    ensures PhaseFlies(acked, Recording(ph.cfg, ph.todo, w), called)
  {
    assert Waiting(Recording(ph.cfg, ph.todo, w)) == Waiting(ph);
  }

  lemma AdvancedPhase(acked: set<(Id, Token)>, called: set<(Id, Token)>, ph: Phase)
    requires PhaseFlies(acked, ph, called) && (ph.Marking? || ph.Recording?) && ph.todo != []
    ensures PhaseFlies(acked, Looping(ph.cfg, ph.todo[1..]), called)
  {
    assert Waiting(Looping(ph.cfg, ph.todo[1..])) == Waiting(ph);
  }

  /** Growing sets disturb nobody but the processor they grow for. */
  lemma OtherPhase(acked: set<(Id, Token)>, acked': set<(Id, Token)>, ph: Phase, e: Row,
                   called: set<(Id, Token)>, called': set<(Id, Token)>)
    requires PhaseFlies(acked, ph, called) && Apart([e], Held(ph))
    requires called <= called' <= called + {Key(e)} && acked <= acked' <= acked + {Key(e)}
    ensures PhaseFlies(acked', ph, called')
  {
    assert Key([e][0]) == Key(e);
    forall k | 0 <= k < |Waiting(ph)| ensures Key(Waiting(ph)[k]) !in called' {
      assert Waiting(ph)[k] in Held(ph);
    }
  }

  lemma ApartFromFirst(a: seq<Row>, b: seq<Row>)
    requires Apart(a, b) && a != []
    ensures Apart([a[0]], b)
  {
  }

  // ----- all processors

  lemma AllFlyOn(s: State, s': State, p: Pid, e: Row)
    requires AllFly(s) && AllApart(s.procs)
    requires p in s.procs && Held(s.procs[p]) != [] && e == Held(s.procs[p])[0]
    requires p in s'.procs && s'.procs == s.procs[p := s'.procs[p]]
    requires s.called <= s'.called <= s.called + {Key(e)} && s.acked <= s'.acked <= s.acked + {Key(e)}
    requires PhaseFlies(s'.acked, s'.procs[p], s'.called)
    ensures AllFly(s')
  {
    forall q | q in s'.procs ensures PhaseFlies(s'.acked, s'.procs[q], s'.called) {
      if q != p {
        ApartFromFirst(Held(s.procs[p]), Held(s.procs[q]));
        OtherPhase(s.acked, s'.acked, s.procs[q], e, s.called, s'.called);
      }
    }
  }

  /** A processor that comes to hold less stays apart from the others. */
  lemma StillApart(procs: map<Pid, Phase>, p: Pid, ph: Phase)
    requires AllApart(procs) && p in procs
    requires Held(ph) == Held(procs[p]) || Held(ph) == [] || (Held(procs[p]) != [] && Held(ph) == Held(procs[p])[1..])
    ensures AllApart(procs[p := ph])
  {
    var procs' := procs[p := ph];
    forall q | q in procs && q != p ensures Apart(Held(ph), Held(procs[q])) && Apart(Held(procs[q]), Held(ph)) {
      assert Apart(Held(procs[p]), Held(procs[q])) && Apart(Held(procs[q]), Held(procs[p]));
      assert forall i | 0 <= i < |Held(ph)| :: Held(ph)[i] in Held(procs[p]);
    }
  }

  // ----- every step

  lemma BeginFlight(s: State, s': State, p: Pid)
    requires Inv(s) && FlightOk(s) && StepBegin(s, s', p)
    ensures FlightOk(s')
  {
    assert PhaseOk(s, p);
    var ph := s.procs[p];
    assert HeldOk(s, ph.todo[0]);
    assert s'.procs[p] == Publishing(ph.cfg, ph.todo) && s'.called == s.called + {Key(ph.todo[0])};
    BegunPhase(s.acked, s.called, ph.cfg, ph.todo);
    AllFlyOn(s, s', p, ph.todo[0]);
    StillApart(s.procs, p, s'.procs[p]);
    assert AllClaimed(s');
  }

  lemma PublishReturnsFlight(s: State, s': State, p: Pid, now: Instant)
    requires Inv(s) && FlightOk(s) && StepPublishReturns(s, s', p, now)
    ensures FlightOk(s')
  {
    var ph := s.procs[p];
    var w := MarkWrite(ph.todo[0], now);
    assert PhaseFlies(s.acked, ph, s.called);
    MarkingPhase(s.acked, s.called, ph, w);
    AllFlyOn(s, s', p, ph.todo[0]);
    StillApart(s.procs, p, s'.procs[p]);
    assert (w.id, w.token) == Key(ph.todo[0]);
    assert AllClaimed(s');
  }

  lemma FailFlight(s: State, s': State, p: Pid, blame: Blame)
    requires Inv(s) && FlightOk(s) && StepFail(s, s', p, blame)
    ensures FlightOk(s')
  {
    var ph := s.procs[p];
    var w := FailureWrite(ph.todo[0], ph.cfg, blame);
    assert PhaseFlies(s.acked, ph, s.called);
    RecordingPhase(s.acked, s.called, ph, w);
    AllFlyOn(s, s', p, ph.todo[0]);
    StillApart(s.procs, p, s'.procs[p]);
    assert (w.id, w.token) == Key(ph.todo[0]);
    assert AllClaimed(s');
  }

  lemma StoreReturnsFlight(s: State, s': State, p: Pid)
    requires FlightOk(s) && Next(s, StoreReturns(p), s')
    ensures FlightOk(s')
  {
    var ph := s.procs[p];
    assert PhaseFlies(s.acked, ph, s.called);
    AdvancedPhase(s.acked, s.called, ph);
    AllFlyOn(s, s', p, ph.todo[0]);
    StillApart(s.procs, p, s'.procs[p]);
    assert AllClaimed(s');
  }

  /** Whoever holds nothing afterwards. */
  lemma EmptyHandedFlight(s: State, s': State, p: Pid)
    requires FlightOk(s) && p in s.procs && p in s'.procs && Held(s'.procs[p]) == []
    requires s' == s.(locks := s'.locks, used := s'.used, procs := s.procs[p := s'.procs[p]])
    requires s'.procs[p].Idle? || s'.procs[p].Claiming?
    ensures FlightOk(s')
  {
    StillApart(s.procs, p, s'.procs[p]);
    assert PhaseFlies(s'.acked, s'.procs[p], s'.called);
    assert AllFly(s') && AllClaimed(s');
  }

  /** A token not claimed with yet is on nothing in hand. */
  lemma HeldTokens(s: State, q: Pid, token: Token)
    requires Inv(s) && q in s.procs && token !in s.claims
    ensures forall j | 0 <= j < |Held(s.procs[q])| :: Key(Held(s.procs[q])[j]).1 != token
  {
    assert PhaseOk(s, q);
    forall j | 0 <= j < |Held(s.procs[q])| ensures Key(Held(s.procs[q])[j]).1 != token {
      assert HeldOk(s, Held(s.procs[q])[j]);
    }
  }

  lemma NewBatchApart(s: State, s': State, p: Pid, at: Instant, lost: bool)
    requires Inv(s) && AllApart(s.procs) && StepCommitClaim(s, s', p, at, lost)
    ensures AllApart(s'.procs)
  {
    assert PhaseOk(s, p);
    assert forall i | 0 <= i < |Held(s'.procs[p])| :: Key(Held(s'.procs[p])[i]).1 == s.procs[p].token;
    forall q | q in s.procs && q != p
      ensures Apart(Held(s'.procs[p]), Held(s.procs[q])) && Apart(Held(s.procs[q]), Held(s'.procs[p]))
    {
      HeldTokens(s, q, s.procs[p].token);
    }
  }

  lemma NewBatchIsUncalled(s: State, s': State, p: Pid, at: Instant)
    requires Inv(s) && AllClaimed(s) && StepCommitClaim(s, s', p, at, false)
    ensures forall k | 0 <= k < |s'.procs[p].todo| :: Key(s'.procs[p].todo[k]) !in s.called
  {
    assert PhaseOk(s, p);
    var token, todo := s.procs[p].token, s'.procs[p].todo;
    forall x | x in s.called ensures x.1 != token {
      assert ClaimedIn(s, x.0, x.1);
    }
    assert forall k | 0 <= k < |todo| :: Key(todo[k]).1 == token;
  }

  lemma NewBatchIsDistinct(s: State, s': State, p: Pid, at: Instant)
    requires Inv(s) && StepCommitClaim(s, s', p, at, false)
    ensures Distinct(s'.procs[p].todo)
  {
    assert PhaseOk(s, p);
    var snaps, todo := s.procs[p].snaps, s'.procs[p].todo;
    assert forall k | 0 <= k < |todo| :: todo[k].id == snaps[k].id;
  }

  lemma NewBatchFlies(s: State, s': State, p: Pid, at: Instant, lost: bool)
    requires Inv(s) && AllClaimed(s) && AllFly(s) && StepCommitClaim(s, s', p, at, lost)
    ensures AllFly(s')
  {
    if !lost {
      NewBatchIsUncalled(s, s', p, at);
      NewBatchIsDistinct(s, s', p, at);
    }
    assert PhaseFlies(s'.acked, s'.procs[p], s'.called);
  }

  lemma CommitFlight(s: State, s': State, p: Pid, at: Instant, lost: bool)
    requires Inv(s) && FlightOk(s) && StepCommitClaim(s, s', p, at, lost)
    ensures FlightOk(s')
  {
    NewBatchApart(s, s', p, at, lost);
    NewBatchFlies(s, s', p, at, lost);
    CommitCompatible(s, s', p, at, lost);
    forall x | x in s'.called ensures ClaimedIn(s', x.0, x.1) {
      assert ClaimedIn(s, x.0, x.1);
    }
  }

  /** A step of the table, the clock or the gateway. */
  lemma TableFlight(s: State, l: Label, s': State)
    requires FlightOk(s) && Next(s, l, s')
    requires l.Tick? || l.Enqueue? || l.SetDeleted? || l.Land? || l.Accept?
    ensures FlightOk(s')
  {
    assert s'.procs == s.procs && s'.acked == s.acked && s'.called == s.called;
    assert AllFly(s');
    forall x | x in s'.called ensures ClaimedIn(s', x.0, x.1) {
      assert ClaimedIn(s, x.0, x.1);
    }
  }

  lemma IdleFlight(s: State, l: Label, s': State)
    requires FlightOk(s) && Next(s, l, s')
    requires l.OpenClaim? || l.AbortClaim? || l.Finish? || l.Crash?
    ensures FlightOk(s')
  {
    EmptyHandedFlight(s, s', l.p);
  }

  lemma StoreThrowsFlight(s: State, s': State, p: Pid, blame: Blame)
    requires Inv(s) && FlightOk(s) && Next(s, StoreThrows(p, blame), s')
    ensures FlightOk(s')
  {
    if s.procs[p].Marking? {
      FailFlight(s, s', p, blame);
    } else {
      EmptyHandedFlight(s, s', p);
    }
  }

  /** A step of an attempt. */
  lemma AttemptFlight(s: State, l: Label, s': State)
    requires Inv(s) && FlightOk(s) && Next(s, l, s')
    requires l.PublishReturns? || l.PublishThrows? || l.StoreReturns? || l.StoreThrows?
    ensures FlightOk(s')
  {
    match l
    case PublishReturns(p, now) => PublishReturnsFlight(s, s', p, now);
    case PublishThrows(p, blame) => FailFlight(s, s', p, blame);
    case StoreReturns(p) => StoreReturnsFlight(s, s', p);
    case StoreThrows(p, blame) => StoreThrowsFlight(s, s', p, blame);
  }

  lemma NextFlight(s: State, l: Label, s': State)
    requires Inv(s) && FlightOk(s) && Next(s, l, s')
    ensures FlightOk(s')
  {
    if l.Begin? {
      BeginFlight(s, s', l.p);
    } else if l.CommitClaim? {
      CommitFlight(s, s', l.p, l.claimedAt, l.lost);
    } else if l.PublishReturns? || l.PublishThrows? || l.StoreReturns? || l.StoreThrows? {
      AttemptFlight(s, l, s');
    } else if l.OpenClaim? || l.AbortClaim? || l.Finish? || l.Crash? {
      IdleFlight(s, l, s');
    } else {
      TableFlight(s, l, s');
    }
  }

  lemma InitFlight(s: State)
    requires Init(s)
    ensures FlightOk(s)
  {
  }

  lemma {:induction false} FlightReached(tr: seq<State>, ls: seq<Label>, n: nat)
    requires Run(tr, ls) && n < |tr|
    ensures FlightOk(tr[n])
  {
    if n == 0 {
      InitFlight(tr[0]);
    } else {
      FlightReached(tr, ls, n - 1);
      Reached(tr, ls, n - 1);
      NextFlight(tr[n - 1], ls[n - 1], tr[n]);
    }
  }

  // ----- one call per claim

  ghost function TokensOf(keys: set<(Id, Token)>, id: Id): set<Token> {
    set x | x in keys && x.0 == id :: x.1
  }

  /** An event that begins has not been called before. */
  lemma BeginsNew(s: State, p: Pid)
    requires FlightOk(s) && p in s.procs && s.procs[p].Looping? && s.procs[p].todo != []
    ensures Key(s.procs[p].todo[0]) !in s.called
  {
    assert PhaseFlies(s.acked, s.procs[p], s.called);
    assert Waiting(s.procs[p])[0] == s.procs[p].todo[0];
  }

  lemma TokensGrow(keys: set<(Id, Token)>, key: (Id, Token), id: Id)
    ensures TokensOf(keys + {key}, id) == TokensOf(keys, id) + (if key.0 == id then {key.1} else {})
    ensures key.1 in TokensOf(keys, id) && key.0 == id ==> key in keys
  {
  }

  /** Every call is under a claim of its own, so there are as many calls as claims called under. */
  lemma {:induction false} OneCallPerClaim(tr: seq<State>, ls: seq<Label>, n: nat, id: Id)
    requires Run(tr, ls) && n < |tr|
    ensures Calls(tr, ls, n, id) == |TokensOf(tr[n].called, id)|
  {
    if n > 0 {
      OneCallPerClaim(tr, ls, n - 1, id);
      FlightReached(tr, ls, n - 1);
      CallCounts(tr[n - 1], ls[n - 1], tr[n], id);
    }
  }

  /** A step adds a token exactly when it is a call for the row. */
  lemma CallCounts(s: State, l: Label, s': State, id: Id)
    requires FlightOk(s) && Next(s, l, s')
    ensures |TokensOf(s'.called, id)| == |TokensOf(s.called, id)| + (if Starts(s, l, id) then 1 else 0)
  {
    if l.Begin? && HasLease(s.procs[l.p].todo[0]) {
      BeginsNew(s, l.p);
      TokensGrow(s.called, Key(s.procs[l.p].todo[0]), id);
    }
  }

  // ----- what became of every claim

  /** The claims ever committed on a row. */
  ghost function ClaimsOf(s: State, id: Id): set<Token> {
    set k | k in s.claims && id in s.claims[k].ids
  }

  /** The claims under which a terminal write landed on the row. */
  function LandedTokens(landings: seq<Write>, id: Id): set<Token> {
    set i | 0 <= i < |landings| && landings[i].id == id :: landings[i].token
  }

  /** Claims that came to nothing: a crash, a write that never arrived or came too late, or still
      under way. */
  ghost function Unlanded(s: State, id: Id): set<Token> {
    ClaimsOf(s, id) - LandedTokens(s.landings, id)
  }

  function PublishedOnce(r: Row): nat {
    if r.status.Published? then 1 else 0
  }

  ghost predicate TalliesOk(s: State) {
    forall id | id in s.rows ::
      |LandedTokens(s.landings, id)| == s.rows[id].attemptCount + PublishedOnce(s.rows[id])
  }

  lemma LandTallies(s: State, s': State, w: Write)
    requires Inv(s) && HistoryOk(s) && TalliesOk(s) && StepLand(s, s', w) && Lands(s.rows, w)
    ensures TalliesOk(s')
  {
    assert SentOk(s, w) && RowOk(s.rows[w.id]);
    assert w.token !in LandedTokens(s.landings, w.id);
    forall id | id in s'.rows
      ensures |LandedTokens(s'.landings, id)| == s'.rows[id].attemptCount + PublishedOnce(s'.rows[id])
    {
      LandedAppend(s.landings, w, id);
    }
  }

  lemma LandedAppend(landings: seq<Write>, w: Write, id: Id)
    ensures LandedTokens(landings + [w], id) == LandedTokens(landings, id) + (if w.id == id then {w.token} else {})
  {
    var more := landings + [w];
    assert forall i | 0 <= i < |landings| :: more[i] == landings[i];
    assert more[|landings|] == w;
  }

  lemma UnlandedTallies(s: State, s': State)
    requires HistoryOk(s) && TalliesOk(s) && NothingLanded(s, s')
    ensures TalliesOk(s')
  {
    forall id | id in s'.rows && id !in s.rows ensures LandedTokens(s.landings, id) == {} {
      forall i | 0 <= i < |s.landings| ensures s.landings[i].id != id {
        assert ClaimedIn(s, s.landings[i].id, s.landings[i].token);
      }
    }
  }

  lemma {:induction false} TalliesReached(tr: seq<State>, ls: seq<Label>, n: nat)
    requires Run(tr, ls) && n < |tr|
    ensures TalliesOk(tr[n])
  {
    if n > 0 {
      TalliesReached(tr, ls, n - 1);
      HistoryReached(tr, ls, n - 1);
      Reached(tr, ls, n - 1);
      var s, l, s' := tr[n - 1], ls[n - 1], tr[n];
      if l.Land? && Lands(s.rows, l.w) {
        LandTallies(s, s', l.w);
      } else if !l.Land? {
        StepUnlanded(s, l, s');
        UnlandedTallies(s, s');
      }
    }
  }

  lemma CalledIsClaimed(tr: seq<State>, ls: seq<Label>, n: nat, id: Id)
    requires Run(tr, ls) && n < |tr|
    ensures LandedTokens(tr[n].landings, id) <= TokensOf(tr[n].called, id) <= ClaimsOf(tr[n], id)
  {
    FlightReached(tr, ls, n);
    forall k | k in LandedTokens(tr[n].landings, id) ensures k in TokensOf(tr[n].called, id) {
      assert (id, k) in tr[n].called;
    }
    forall k | k in TokensOf(tr[n].called, id) ensures k in ClaimsOf(tr[n], id) {
      assert (id, k) in tr[n].called;
      assert ClaimedIn(tr[n], id, k);
    }
  }

  /** Conservation: every claim of a row was a recorded failure, the publication, or came to
      nothing. The publish calls lie between the writes that landed and the claims. */
  lemma EveryClaimIsAccountedFor(tr: seq<State>, ls: seq<Label>, n: nat, id: Id)
    requires Run(tr, ls) && n < |tr| && id in tr[n].rows
    ensures
      var r := tr[n].rows[id];
      && |ClaimsOf(tr[n], id)| == r.attemptCount + PublishedOnce(r) + |Unlanded(tr[n], id)|
      && r.attemptCount + PublishedOnce(r) <= Calls(tr, ls, n, id) <= |ClaimsOf(tr[n], id)|
  {
    TalliesReached(tr, ls, n);
    OneCallPerClaim(tr, ls, n, id);
    CalledIsClaimed(tr, ls, n, id);
    SubsetCount(LandedTokens(tr[n].landings, id), ClaimsOf(tr[n], id));
    SubsetCount(LandedTokens(tr[n].landings, id), TokensOf(tr[n].called, id));
    SubsetCount(TokensOf(tr[n].called, id), ClaimsOf(tr[n], id));
  }

  /** Under one retry policy a row is published at most as often as the budget says, not counting
      the claims that came to nothing. */
  lemma CallsWithinBudget(tr: seq<State>, ls: seq<Label>, n: nat, id: Id, cfg: Config)
    requires Run(tr, ls) && FixedPolicy(ls, cfg) && n < |tr| && id in tr[n].rows
    ensures Calls(tr, ls, n, id) <= Budget(cfg) + |Unlanded(tr[n], id)|
  {
    EveryClaimIsAccountedFor(tr, ls, n, id);
    BudgetReached(tr, ls, n, cfg);
    assert RowFits(tr[n].rows[id], cfg);
    if tr[n].rows[id].status.Published? {
      PublishedUnspent(tr, ls, n, id, cfg);
    }
  }
}
