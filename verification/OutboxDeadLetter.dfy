/**
 * When the outbox gives up: a row is DEAD_LETTER exactly because of a failed attempt that was
 * permanent or had no budget left.
 */
module OutboxDeadLetter {
  import opened OutboxRetry
  import opened OutboxRows
  import opened OutboxProtocol
  import opened OutboxSafety
  import opened OutboxHistory
  import opened OutboxBudget

  /** Step i is a failed attempt, and this is what it sent. */
  ghost predicate SentAt(tr: seq<State>, ls: seq<Label>, i: nat, w: Write)
    requires |tr| == |ls| + 1 && i < |ls|
  {
    && (ls[i].PublishThrows? || ls[i].StoreThrows?)
    && StepFail(tr[i], tr[i + 1], ls[i].p, ls[i].blame)
    && w == FailureWrite(tr[i].procs[ls[i].p].todo[0], tr[i].procs[ls[i].p].cfg, ls[i].blame)
  }

  /** The attempt that failed in step i cannot be repeated. */
  ghost predicate Hopeless(tr: seq<State>, ls: seq<Label>, i: nat, w: Write)
    requires |tr| == |ls| + 1 && i < |ls| && SentAt(tr, ls, i, w)
  {
    ls[i].blame.permanent || tr[i].procs[ls[i].p].todo[0].attemptCount + 1 >= tr[i].procs[ls[i].p].cfg.maxAttempts
  }

  lemma {:induction false} FailureHasSender(tr: seq<State>, ls: seq<Label>, n: nat, w: Write) returns (i: nat)
    requires Run(tr, ls) && n < |tr| && w.Failure? && (w in tr[n].wire || w in tr[n].landings)
    ensures i < n && SentAt(tr, ls, i, w)
  {
    assert n > 0;
    var s, l, s' := tr[n - 1], ls[n - 1], tr[n];
    assert Next(s, l, s');
    if w in s.wire || w in s.landings {
      i := FailureHasSender(tr, ls, n - 1, w);
    } else {
      SentNow(s, l, s', w);
      WireStep(s, l, s', w);
      i := n - 1;
    }
  }

  lemma SentNow(s: State, l: Label, s': State, w: Write)
    requires Next(s, l, s') && w !in s.wire && w !in s.landings && (w in s'.wire || w in s'.landings)
    ensures w in s'.wire
  {
  }

  /** Which write finished a row: the one that landed when it was last leased. */
  lemma {:induction false} FinishedByWrite(tr: seq<State>, ls: seq<Label>, n: nat, id: Id) returns (j: nat)
    requires Run(tr, ls) && n < |tr| && id in tr[n].rows && Finished(tr[n].rows[id])
    ensures j < n && LandsAt(tr, ls, j) && ls[j].w.id == id
    ensures id in tr[j].rows && !Finished(tr[j].rows[id])
    ensures Patched(tr[j].rows[id], ls[j].w).status == tr[n].rows[id].status
    ensures Patched(tr[j].rows[id], ls[j].w).attemptCount == tr[n].rows[id].attemptCount
  {
    assert n > 0;
    assert Next(tr[n - 1], ls[n - 1], tr[n]);
    if id in tr[n - 1].rows && Finished(tr[n - 1].rows[id]) {
      FinishedStays(tr, ls, n - 1, id);
      j := FinishedByWrite(tr, ls, n - 1, id);
    } else {
      FinishingStep(tr, ls, n - 1, id);
      j := n - 1;
    }
  }

  lemma FinishingStep(tr: seq<State>, ls: seq<Label>, i: nat, id: Id)
    requires Run(tr, ls) && i < |ls| && id in tr[i + 1].rows && Finished(tr[i + 1].rows[id])
    requires id in tr[i].rows ==> !Finished(tr[i].rows[id])
    ensures id in tr[i].rows && LandsAt(tr, ls, i) && ls[i].w.id == id
    ensures tr[i + 1].rows[id] == Patched(tr[i].rows[id], ls[i].w)
  {
    var s, s' := tr[i], tr[i + 1];
    assert Next(s, ls[i], s');
    if id in s.rows {
      LeaseSafety(tr, ls, i, id);
    }
  }

  /** A failed attempt whose record lands ends the row exactly when it is hopeless, and for good.
      Otherwise the row waits, for less than the ceiling if that is not zero. Either way it is free
      again and keeps as much of the reason as its column holds. */
  lemma FinalIffHopeless(tr: seq<State>, ls: seq<Label>, i: nat, w: Write, j: nat, n: nat)
    requires Run(tr, ls) && i < |ls| && SentAt(tr, ls, i, w)
    requires j < n < |tr| && ls[j] == Land(w) && Lands(tr[j].rows, w)
    ensures w.id in tr[j + 1].rows && w.id in tr[n].rows
    ensures
      var r, b := tr[j + 1].rows[w.id], ls[i].blame;
      var cfg := tr[i].procs[ls[i].p].cfg;
      var ceiling := Ceiling(w.attemptCount, cfg.backoffBaseMs, cfg.backoffMaxMs);
      && (r.status.DeadLetter? <==> Hopeless(tr, ls, i, w))
      && (Hopeless(tr, ls, i, w) ==>
            tr[n].rows[w.id].status.DeadLetter? && tr[n].rows[w.id].attemptCount == w.attemptCount)
      && (!Hopeless(tr, ls, i, w) ==>
            && r.status.Pending? && r.nextAttemptAt.Some? && b.now <= r.nextAttemptAt.value
            && (r.nextAttemptAt.value < b.now + ceiling || r.nextAttemptAt.value == b.now + ceiling == b.now))
      && r.claimToken.None? && r.claimedAt.None?
      && r.lastError.Some? && r.lastError.value <= b.reason && |r.lastError.value| <= LAST_ERROR_WIDTH
      && (r.lastError.value == b.reason <==> |b.reason| <= LAST_ERROR_WIDTH)
  {
    assert Next(tr[j], ls[j], tr[j + 1]);
    LeaseSafety(tr, ls, j, w.id);
    RowsStay(tr, ls, j + 1, n, w.id);
    if Hopeless(tr, ls, i, w) {
      FinishedForever(tr, ls, j + 1, n, w.id);
    }
  }

  lemma {:induction false} RowsStay(tr: seq<State>, ls: seq<Label>, i: nat, j: nat, id: Id)
    requires Run(tr, ls) && i <= j < |tr| && id in tr[i].rows
    ensures id in tr[j].rows
    decreases j
  {
    if i < j {
      RowsStay(tr, ls, i, j - 1, id);
      LeaseSafety(tr, ls, j - 1, id);
    }
  }

  /** Behind every DEAD_LETTER row there is a hopeless failed attempt, the row's last, whose record
      landed. */
  lemma DeadLetterMeansHopeless(tr: seq<State>, ls: seq<Label>, n: nat, id: Id) returns (w: Write, i: nat, j: nat)
    requires Run(tr, ls) && n < |tr| && id in tr[n].rows && tr[n].rows[id].status.DeadLetter?
    ensures i < j < n && SentAt(tr, ls, i, w) && Hopeless(tr, ls, i, w)
    ensures ls[j] == Land(w) && Lands(tr[j].rows, w) && w.id == id
    ensures w.attemptCount == tr[n].rows[id].attemptCount
  {
    j := FinishedByWrite(tr, ls, n, id);
    w := ls[j].w;
    assert Next(tr[j], ls[j], tr[j + 1]);
    i := FailureHasSender(tr, ls, j, w);
  }

  /** No failure is permanent. */
  ghost predicate OnlyTransient(ls: seq<Label>) {
    forall i | 0 <= i < |ls| && (ls[i].PublishThrows? || ls[i].StoreThrows?) :: !ls[i].blame.permanent
  }

  lemma PublishedUnspent(tr: seq<State>, ls: seq<Label>, n: nat, id: Id, cfg: Config)
    requires Run(tr, ls) && FixedPolicy(ls, cfg) && n < |tr| && id in tr[n].rows && tr[n].rows[id].status.Published?
    ensures tr[n].rows[id].attemptCount < Budget(cfg)
  {
    var j := FinishedByWrite(tr, ls, n, id);
    BudgetReached(tr, ls, j, cfg);
    assert RowFits(tr[j].rows[id], cfg);
  }

  /** Under one retry policy and without permanent failures, a row is given up exactly when it has
      used its whole budget. */
  lemma GivenUpIffSpent(tr: seq<State>, ls: seq<Label>, n: nat, id: Id, cfg: Config)
    requires Run(tr, ls) && FixedPolicy(ls, cfg) && OnlyTransient(ls) && n < |tr| && id in tr[n].rows
    ensures tr[n].rows[id].status.DeadLetter? <==> tr[n].rows[id].attemptCount == Budget(cfg)
  {
    BudgetReached(tr, ls, n, cfg);
    assert RowFits(tr[n].rows[id], cfg);
    if tr[n].rows[id].status.DeadLetter? {
      var w, i, j := DeadLetterMeansHopeless(tr, ls, n, id);
      BudgetReached(tr, ls, i, cfg);
      assert SamePolicy(tr[i].procs[ls[i].p].cfg, cfg);
    } else if tr[n].rows[id].status.Published? {
      PublishedUnspent(tr, ls, n, id, cfg);
    }
  }
}
