/**
 * Which events the gateway has accepted, at least once and how often, and when a row that was given
 * up is one of them. The gateway accepts an event at any moment after its publish call has begun,
 * whatever becomes of the call; a call that returns has been accepted.
 */
module OutboxDelivery {
  import opened Wrappers
  import opened OutboxRows
  import opened OutboxProtocol
  import opened OutboxSafety
  import opened OutboxHistory
  import opened OutboxDeadLetter
  import opened OutboxAttempts

  /** The gateway has accepted an event of this row. */
  ghost predicate Accepted(s: State, id: Id) {
    exists k: Token :: (id, k) in s.accepted
  }

  lemma RecordNext(tr: seq<State>, ls: seq<Label>, n: nat)
    requires Run(tr, ls) && n < |ls|
    ensures tr[n].acked <= tr[n + 1].acked && tr[n].accepted <= tr[n + 1].accepted
  {
    assert Next(tr[n], ls[n], tr[n + 1]);
  }

  lemma {:induction false} RecordStays(tr: seq<State>, ls: seq<Label>, i: nat, n: nat)
    requires Run(tr, ls) && i <= n < |tr|
    ensures tr[i].acked <= tr[n].acked && tr[i].accepted <= tr[n].accepted
    decreases n
  {
    if i < n {
      RecordStays(tr, ls, i, n - 1);
      RecordNext(tr, ls, n - 1);
    }
  }

  /** The gateway took the event of a call on its own, before step n. */
  ghost predicate AcceptStep(ls: seq<Label>, n: nat, key: (Id, Token))
    requires n <= |ls|
  {
    exists m: nat :: m < n && ls[m] == Accept(key.0, key.1)
  }

  lemma {:induction false} AcceptStepIsAccepted(tr: seq<State>, ls: seq<Label>, n: nat, key: (Id, Token))
    requires Run(tr, ls) && n < |tr| && AcceptStep(ls, n, key)
    ensures key in tr[n].accepted
  {
    var m: nat :| m < n && ls[m] == Accept(key.0, key.1);
    assert Next(tr[m], ls[m], tr[m + 1]);
    RecordStays(tr, ls, m + 1, n);
  }

  lemma {:induction false} AcceptedHow(tr: seq<State>, ls: seq<Label>, n: nat, key: (Id, Token))
    requires Run(tr, ls) && n < |tr| && key in tr[n].accepted
    ensures key in tr[n].acked || AcceptStep(ls, n, key)
  {
    assert n > 0;
    assert Next(tr[n - 1], ls[n - 1], tr[n]);
    RecordNext(tr, ls, n - 1);
    if key in tr[n - 1].accepted {
      AcceptedHow(tr, ls, n - 1, key);
    }
  }

  // ----- at least once

  /** A PUBLISHED row was accepted at least once; no row is accepted under more claims than it was
      called under. */
  lemma AcceptedAtLeastOnce(tr: seq<State>, ls: seq<Label>, n: nat, id: Id)
    requires Run(tr, ls) && n < |tr| && id in tr[n].rows
    ensures tr[n].rows[id].status.Published? ==> Accepted(tr[n], id)
    ensures |TokensOf(tr[n].accepted, id)| <= Calls(tr, ls, n, id)
  {
    FlightReached(tr, ls, n);
    OneCallPerClaim(tr, ls, n, id);
    SubsetCount(TokensOf(tr[n].accepted, id), TokensOf(tr[n].called, id));
    if tr[n].rows[id].status.Published? {
      HistoryReached(tr, ls, n);
      var i :| 0 <= i < |tr[n].landings| && tr[n].landings[i].Mark? && tr[n].landings[i].id == id;
      assert (id, tr[n].landings[i].token) in tr[n].accepted;
    }
  }

  // ----- a call that threw never returns

  /** The call for this key was made, has not returned and is no longer being waited for. */
  ghost predicate Over(s: State, key: (Id, Token)) {
    && key in s.called && key !in s.acked
    && forall p | p in s.procs && s.procs[p].Publishing? && s.procs[p].todo != [] :: Key(s.procs[p].todo[0]) != key
  }

  lemma OverStep(s: State, l: Label, s': State, key: (Id, Token))
    requires FlightOk(s) && Next(s, l, s') && Over(s, key)
    ensures Over(s', key)
  {
    if l.Begin? {
      BeginsNew(s, l.p);
    }
  }

  lemma OverNext(tr: seq<State>, ls: seq<Label>, n: nat, key: (Id, Token))
    requires Run(tr, ls) && n < |ls| && Over(tr[n], key)
    ensures Over(tr[n + 1], key)
  {
    FlightReached(tr, ls, n);
    OverStep(tr[n], ls[n], tr[n + 1], key);
  }

  lemma {:induction false} OverForever(tr: seq<State>, ls: seq<Label>, i: nat, n: nat, key: (Id, Token))
    requires Run(tr, ls) && i <= n < |tr| && Over(tr[i], key)
    ensures Over(tr[n], key)
    decreases n
  {
    if i < n {
      OverForever(tr, ls, i, n - 1, key);
      OverNext(tr, ls, n - 1, key);
    }
  }

  lemma ThrowIsOver(s: State, p: Pid, blame: Blame, s': State)
    requires FlightOk(s) && StepFail(s, s', p, blame) && s.procs[p].Publishing?
    ensures Over(s', Key(s.procs[p].todo[0]))
  {
    var mine := Held(s.procs[p]);
    assert PhaseFlies(s.acked, s.procs[p], s.called);
    forall q | q in s'.procs && s'.procs[q].Publishing? && s'.procs[q].todo != []
      ensures Key(s'.procs[q].todo[0]) != Key(mine[0])
    {
      assert Apart(mine, Held(s.procs[q]));
    }
  }

  lemma StoreThrewIsAcked(tr: seq<State>, ls: seq<Label>, i: nat, w: Write)
    requires Run(tr, ls) && i < |ls| && SentAt(tr, ls, i, w) && ls[i].StoreThrows?
    ensures (w.id, w.token) in tr[i].acked
  {
    FlightReached(tr, ls, i);
    assert Next(tr[i], ls[i], tr[i + 1]);
    assert PhaseFlies(tr[i].acked, tr[i].procs[ls[i].p], tr[i].called);
  }

  lemma PublishThrewIsOver(tr: seq<State>, ls: seq<Label>, i: nat, w: Write)
    requires Run(tr, ls) && i < |ls| && SentAt(tr, ls, i, w) && ls[i].PublishThrows?
    ensures Over(tr[i + 1], (w.id, w.token))
  {
    FlightReached(tr, ls, i);
    assert Next(tr[i], ls[i], tr[i + 1]);
    ThrowIsOver(tr[i], ls[i].p, ls[i].blame, tr[i + 1]);
  }

  /** The publish call of a failed attempt returned exactly when it was the store call that threw.
      Its event was accepted exactly then, or when the gateway took it and the answer was lost. */
  lemma FailedAttemptAccepted(tr: seq<State>, ls: seq<Label>, i: nat, w: Write, n: nat)
    requires Run(tr, ls) && i < n < |tr| && SentAt(tr, ls, i, w)
    ensures (w.id, w.token) in tr[n].acked <==> ls[i].StoreThrows?
    ensures (w.id, w.token) in tr[n].accepted <==> ls[i].StoreThrows? || AcceptStep(ls, n, (w.id, w.token))
  {
    var key := (w.id, w.token);
    if ls[i].StoreThrows? {
      StoreThrewIsAcked(tr, ls, i, w);
      RecordStays(tr, ls, i, n);
      FlightReached(tr, ls, n);
    } else {
      PublishThrewIsOver(tr, ls, i, w);
      OverForever(tr, ls, i + 1, n, key);
      if key in tr[n].accepted {
        AcceptedHow(tr, ls, n, key);
      }
    }
    if AcceptStep(ls, n, key) {
      AcceptStepIsAccepted(tr, ls, n, key);
    }
  }

  // ----- what becomes of a call

  /** This processor awaits `publish` for this key. */
  ghost predicate PublishingOn(s: State, p: Pid, key: (Id, Token)) {
    p in s.procs && s.procs[p].Publishing? && s.procs[p].todo != [] && Key(s.procs[p].todo[0]) == key
  }

  /** The call threw, or its processor died waiting, before step n; or it is still awaited. */
  ghost predicate CutOff(tr: seq<State>, ls: seq<Label>, n: nat, key: (Id, Token))
    requires |tr| == |ls| + 1 && n < |tr|
  {
    || (exists i: nat :: i < n && (ls[i].PublishThrows? || ls[i].Crash?) && PublishingOn(tr[i], ls[i].p, key))
    || (exists p :: PublishingOn(tr[n], p, key))
  }

  lemma {:induction false} CalledHow(tr: seq<State>, ls: seq<Label>, n: nat, key: (Id, Token))
    requires Run(tr, ls) && n < |tr| && key in tr[n].called && key !in tr[n].acked
    ensures CutOff(tr, ls, n, key)
  {
    assert n > 0;
    var s, l, s' := tr[n - 1], ls[n - 1], tr[n];
    assert Next(s, l, s');
    RecordNext(tr, ls, n - 1);
    if key !in s.called {
      assert PublishingOn(s', l.p, key);
    } else {
      CalledHow(tr, ls, n - 1, key);
      if p :| PublishingOn(s, p, key) {
        PublishingNext(s, l, s', p, key);
      }
    }
  }

  lemma PublishingNext(s: State, l: Label, s': State, p: Pid, key: (Id, Token))
    requires Next(s, l, s') && PublishingOn(s, p, key) && key !in s'.acked
    ensures PublishingOn(s', p, key) || ((l.PublishThrows? || l.Crash?) && l.p == p)
  {
  }

  // ----- what becomes of a mark

  /** This processor awaits `markPublished` for an event of this row. */
  ghost predicate MarkingOn(s: State, p: Pid, id: Id) {
    p in s.procs && s.procs[p].Marking? && s.procs[p].todo != [] && s.procs[p].todo[0].id == id
  }

  /** And the write has not reached the table. */
  ghost predicate MarkUnderWay(s: State, p: Pid, key: (Id, Token)) {
    && MarkingOn(s, p, key.0)
    && s.procs[p].w.Mark? && (s.procs[p].w.id, s.procs[p].w.token) == key && s.procs[p].w in s.wire
  }

  /** `markPublished` throws in this step, or its caller dies. */
  ghost predicate MarkCutAt(s: State, l: Label, id: Id) {
    (l.StoreThrows? || l.Crash?) && MarkingOn(s, l.p, id)
  }

  ghost predicate MarkArrives(l: Label, key: (Id, Token)) {
    l.Land? && l.w.Mark? && (l.w.id, l.w.token) == key
  }

  ghost predicate MarkSent(tr: seq<State>, ls: seq<Label>, n: nat, key: (Id, Token))
    requires |tr| == |ls| + 1 && n < |tr|
  {
    || (exists i: nat :: i < n && MarkCutAt(tr[i], ls[i], key.0))
    || (exists i: nat :: i < n && MarkArrives(ls[i], key))
    || (exists p :: MarkUnderWay(tr[n], p, key))
  }

  /** Every call that returned is followed by a mark, which is cut off, arrives, or is under way. */
  lemma {:induction false} AckedHow(tr: seq<State>, ls: seq<Label>, n: nat, key: (Id, Token))
    requires Run(tr, ls) && n < |tr| && key in tr[n].acked
    ensures MarkSent(tr, ls, n, key)
  {
    assert n > 0;
    var s, l, s' := tr[n - 1], ls[n - 1], tr[n];
    assert Next(s, l, s');
    if key !in s.acked {
      assert MarkUnderWay(s', l.p, key);
    } else {
      AckedHow(tr, ls, n - 1, key);
      if p :| MarkUnderWay(s, p, key) {
        MarkNext(s, l, s', p, key);
      }
    }
  }

  lemma MarkNext(s: State, l: Label, s': State, p: Pid, key: (Id, Token))
    requires Next(s, l, s') && MarkUnderWay(s, p, key)
    ensures MarkUnderWay(s', p, key) || MarkCutAt(s, l, key.0) || MarkArrives(l, key)
  {
  }

  // ----- dead letters

  /** In this step a mark of this row fails: it throws, its caller dies, or it arrives under a claim
      the row no longer carries. */
  ghost predicate MarkFailsAt(s: State, l: Label, id: Id) {
    MarkCutAt(s, l, id) || (l.Land? && l.w.Mark? && l.w.id == id && !Lands(s.rows, l.w))
  }

  /** The gateway took an event of this row of whose call it was never heard again. */
  ghost predicate AnswerLost(tr: seq<State>, ls: seq<Label>, n: nat, id: Id)
    requires |tr| == |ls| + 1 && n < |tr|
  {
    exists k: Token :: AcceptStep(ls, n, (id, k)) && CutOff(tr, ls, n, (id, k))
  }

  /** A DEAD_LETTER row was accepted by the gateway exactly when a mark of it failed or is still under
      way, or when the answer of a call was lost. */
  lemma DeadLetterAcceptedIff(tr: seq<State>, ls: seq<Label>, n: nat, id: Id)
    requires Run(tr, ls) && n < |tr| && id in tr[n].rows && tr[n].rows[id].status.DeadLetter?
    ensures Accepted(tr[n], id) <==>
      || (exists i: nat :: i < n && MarkFailsAt(tr[i], ls[i], id))
      || (exists p, k: Token :: MarkUnderWay(tr[n], p, (id, k)))
      || AnswerLost(tr, ls, n, id)
  {
    if k: Token :| (id, k) in tr[n].accepted {
      AcceptedDeadLetter(tr, ls, n, id, k);
    }
    if i: nat :| i < n && MarkFailsAt(tr[i], ls[i], id) {
      FailedMarkIsAcked(tr, ls, i, id);
      RecordStays(tr, ls, i, n);
      FlightReached(tr, ls, n);
    }
    if p, k: Token :| MarkUnderWay(tr[n], p, (id, k)) {
      Reached(tr, ls, n);
      FlightReached(tr, ls, n);
      assert SentOk(tr[n], tr[n].procs[p].w);
      assert (id, k) in tr[n].accepted;
    }
    if AnswerLost(tr, ls, n, id) {
      var k: Token :| AcceptStep(ls, n, (id, k)) && CutOff(tr, ls, n, (id, k));
      AcceptStepIsAccepted(tr, ls, n, (id, k));
    }
  }

  lemma FailedMarkIsAcked(tr: seq<State>, ls: seq<Label>, i: nat, id: Id)
    requires Run(tr, ls) && i < |ls| && MarkFailsAt(tr[i], ls[i], id)
    ensures exists k: Token :: (id, k) in tr[i].acked
  {
    Reached(tr, ls, i);
    FlightReached(tr, ls, i);
    assert Next(tr[i], ls[i], tr[i + 1]);
    if MarkCutAt(tr[i], ls[i], id) {
      var ph := tr[i].procs[ls[i].p];
      assert PhaseFlies(tr[i].acked, ph, tr[i].called);
      assert Key(ph.todo[0]) in tr[i].acked;
    } else {
      assert SentOk(tr[i], ls[i].w);
      assert (id, ls[i].w.token) in tr[i].acked;
    }
  }

  lemma AcceptedDeadLetter(tr: seq<State>, ls: seq<Label>, n: nat, id: Id, k: Token)
    requires Run(tr, ls) && n < |tr| && id in tr[n].rows && tr[n].rows[id].status.DeadLetter?
    requires (id, k) in tr[n].accepted
    ensures
      || (exists i: nat :: i < n && MarkFailsAt(tr[i], ls[i], id))
      || (exists p :: MarkUnderWay(tr[n], p, (id, k)))
      || AnswerLost(tr, ls, n, id)
  {
    var key := (id, k);
    FlightReached(tr, ls, n);
    if key !in tr[n].acked {
      AcceptedHow(tr, ls, n, key);
      CalledHow(tr, ls, n, key);
    } else {
      AckedHow(tr, ls, n, key);
      if i: nat :| i < n && MarkArrives(ls[i], key) {
        if LandsAt(tr, ls, i) {
          LandedMarkPublishes(tr, ls, i, n);
        }
        assert MarkFailsAt(tr[i], ls[i], id);
      } else if i: nat :| i < n && MarkCutAt(tr[i], ls[i], id) {
        assert MarkFailsAt(tr[i], ls[i], id);
      }
    }
  }

  /** A mark that lands leaves the row PUBLISHED for good. */
  lemma LandedMarkPublishes(tr: seq<State>, ls: seq<Label>, i: nat, n: nat)
    requires Run(tr, ls) && i < n < |tr| && LandsAt(tr, ls, i) && ls[i].w.Mark?
    ensures ls[i].w.id in tr[n].rows && tr[n].rows[ls[i].w.id].status.Published?
  {
    assert Next(tr[i], ls[i], tr[i + 1]);
    LandingsGrow(tr, ls, i + 1, n);
    HistoryReached(tr, ls, n);
    assert tr[i + 1].landings[|tr[i].landings|] == ls[i].w;
    assert tr[n].landings[|tr[i].landings|] == ls[i].w;
  }

  // ----- both ways of being given up and yet accepted

  const OneTry := Config(1, 0, 1, 0, 0)
  const FirstRow := Row(0, 0, 0, None, Pending, 0, Some(0), None, None, None, None)
  const LeasedRow := StampRow(FirstRow, 0, 0)
  const Glitch := Blame(false, "", 0, 0.0)
  const GivenUp := FailureWrite(LeasedRow, OneTry, Glitch)

  /** One row and one processor, before the row is claimed. */
  function Unclaimed(ph: Phase, used: set<Token>, locks: map<Id, Pid>): State {
    State(0, map[0 := FirstRow], locks, map[0 := ph], {}, used, map[], map[], {}, {}, {}, [])
  }

  /** And after. */
  function AtWork(ph: Phase): State {
    State(0, map[0 := LeasedRow], map[], map[0 := ph], {}, {0}, map[0 := Claim({0}, 0)], map[0 := 0], {}, {}, {}, [])
  }

  /** And while `publish` is awaited. */
  function InCall(): State {
    AtWork(Publishing(OneTry, [LeasedRow])).(called := {(0, 0)})
  }

  lemma FirstRowIsSelected()
    ensures Selects(map[0 := FirstRow], {}, 0, OneTry, [0])
  {
    assert Candidate(map[0 := FirstRow], {}, 0, 0, 0);
  }

  lemma OpenStep()
    ensures Next(Unclaimed(Idle, {}, map[]), OpenClaim(0, OneTry, 0, 0, {}, [0]),
                 Unclaimed(Claiming(OneTry, 0, 0, [FirstRow]), {0}, map[0 := 0]))
  {
    var s := Unclaimed(Idle, {}, map[]);
    FirstRowIsSelected();
    assert Snapshot(s.rows, [0]) == [FirstRow];
    assert (map id | id in [0] :: 0) == map[0 := 0];
  }

  lemma CommitStep()
    ensures Next(Unclaimed(Claiming(OneTry, 0, 0, [FirstRow]), {0}, map[0 := 0]), CommitClaim(0, 0, false),
                 AtWork(Looping(OneTry, [LeasedRow])))
  {
    var snaps := [FirstRow];
    assert snaps[0].id == 0;
    assert Ids(snaps) == {0};
    assert Stamped(snaps, 0, 0) == [LeasedRow];
    assert ClaimRows(map[0 := FirstRow], {0}, 0, 0) == map[0 := LeasedRow];
  }

  lemma Go(tr: seq<State>, ls: seq<Label>, l: Label, t: State) returns (tr': seq<State>, ls': seq<Label>)
    requires Run(tr, ls) && Next(tr[|ls|], l, t)
    ensures Run(tr', ls') && tr' != [] && tr'[|ls'|] == t
  {
    tr', ls' := tr + [t], ls + [l];
  }

  lemma EnqueuedRun() returns (tr: seq<State>, ls: seq<Label>)
    ensures Run(tr, ls) && tr != [] && tr[|ls|] == Unclaimed(Idle, {}, map[])
  {
    var s := State(0, map[], map[], map[0 := Idle], {}, {}, map[], map[], {}, {}, {}, []);
    tr, ls := Go([s], [], Enqueue(FirstRow), Unclaimed(Idle, {}, map[]));
  }

  lemma CalledRun() returns (tr: seq<State>, ls: seq<Label>)
    ensures Run(tr, ls) && tr != [] && tr[|ls|] == InCall()
  {
    OpenStep();
    CommitStep();
    tr, ls := EnqueuedRun();
    tr, ls := Go(tr, ls, OpenClaim(0, OneTry, 0, 0, {}, [0]),
                 Unclaimed(Claiming(OneTry, 0, 0, [FirstRow]), {0}, map[0 := 0]));
    tr, ls := Go(tr, ls, CommitClaim(0, 0, false), AtWork(Looping(OneTry, [LeasedRow])));
    tr, ls := Go(tr, ls, Begin(0), InCall());
  }

  lemma MarkThrowsSteps()
    ensures
      var mark := MarkWrite(LeasedRow, 0);
      var done := InCall().(accepted := {(0, 0)}, acked := {(0, 0)});
      var marking := done.(procs := map[0 := Marking(OneTry, [LeasedRow], mark)], wire := {mark});
      var recording := done.(procs := map[0 := Recording(OneTry, [LeasedRow], GivenUp)], wire := {mark, GivenUp});
      && Next(InCall(), PublishReturns(0, 0), marking)
      && Next(marking, StoreThrows(0, Glitch), recording)
  {
  }

  lemma GivenUpLands(s: State, wire: set<Write>)
    requires s.rows == map[0 := LeasedRow] && s.locks == map[] && s.landings == [] && s.wire == wire + {GivenUp}
    requires GivenUp !in wire
    ensures Next(s, Land(GivenUp),
                 s.(rows := map[0 := Patched(LeasedRow, GivenUp)], wire := wire, landings := [GivenUp]))
  {
  }

  /** `publish` returns and `markPublished` throws, with one attempt allowed: a DEAD_LETTER row that
      was accepted. */
  lemma DeadLetterAfterMarkThrew() returns (tr: seq<State>, ls: seq<Label>)
    ensures Run(tr, ls) && tr != []
    ensures 0 in tr[|ls|].rows && tr[|ls|].rows[0].status.DeadLetter?
    ensures (0, 0) in tr[|ls|].accepted && (0, 0) in tr[|ls|].acked
  {
    var mark := MarkWrite(LeasedRow, 0);
    var done := InCall().(accepted := {(0, 0)}, acked := {(0, 0)});
    var recording := done.(procs := map[0 := Recording(OneTry, [LeasedRow], GivenUp)], wire := {mark, GivenUp});
    MarkThrowsSteps();
    GivenUpLands(recording, {mark});
    tr, ls := CalledRun();
    tr, ls := Go(tr, ls, PublishReturns(0, 0),
                 done.(procs := map[0 := Marking(OneTry, [LeasedRow], mark)], wire := {mark}));
    tr, ls := Go(tr, ls, StoreThrows(0, Glitch), recording);
    tr, ls := Go(tr, ls, Land(GivenUp),
                 recording.(rows := map[0 := Patched(LeasedRow, GivenUp)], wire := {mark}, landings := [GivenUp]));
  }

  /** The gateway takes the event and `publish` throws all the same: a DEAD_LETTER row that was
      accepted, though no call of it returned. */
  lemma DeadLetterAfterAnswerLost() returns (tr: seq<State>, ls: seq<Label>)
    ensures Run(tr, ls) && tr != []
    ensures 0 in tr[|ls|].rows && tr[|ls|].rows[0].status.DeadLetter?
    ensures (0, 0) in tr[|ls|].accepted && tr[|ls|].acked == {}
  {
    var taken := InCall().(accepted := {(0, 0)});
    var recording := taken.(procs := map[0 := Recording(OneTry, [LeasedRow], GivenUp)], wire := {GivenUp});
    GivenUpLands(recording, {});
    tr, ls := CalledRun();
    tr, ls := Go(tr, ls, Accept(0, 0), taken);
    tr, ls := Go(tr, ls, PublishThrows(0, Glitch), recording);
    tr, ls := Go(tr, ls, Land(GivenUp),
                 recording.(rows := map[0 := Patched(LeasedRow, GivenUp)], wire := {}, landings := [GivenUp]));
  }
}
