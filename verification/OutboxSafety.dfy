/**
 * What holds over every run of the outbox protocol, whatever the clocks: lease safety, disjoint
 * claims, finished rows that stay finished, and no lost publish intent.
 */
module OutboxSafety {
  import opened OutboxRows
  import opened OutboxProtocol

  lemma {:induction false} Reached(tr: seq<State>, ls: seq<Label>, n: nat)
    requires Run(tr, ls) && n < |tr|
    ensures Inv(tr[n])
  {
    if n == 0 {
      InitInv(tr[0]);
    } else {
      Reached(tr, ls, n - 1);
      NextInv(tr[n - 1], ls[n - 1], tr[n]);
    }
  }

  // ----- steps that neither commit a claim nor land a write

  /** New rows apart, the table stays but for soft deletion, and so does the record of the past. */
  ghost predicate Quiet(s: State, s': State) {
    && s'.landings == s.landings && s'.claims == s.claims && s.acked <= s'.acked && s.clock <= s'.clock
    && s.rows.Keys <= s'.rows.Keys
    && (forall id | id in s.rows :: s'.rows[id] == s.rows[id].(deletedAt := s'.rows[id].deletedAt))
    && (forall id | id in s'.rows && id !in s.rows :: Fresh(s'.rows[id]))
  }

  lemma QuietStep(s: State, l: Label, s': State)
    requires Next(s, l, s') && !l.Land? && !l.CommitClaim?
    ensures Quiet(s, s')
  {
  }

  /** Only opening a claim makes a processor hold rows it did not hold, and every processor keeps
      its settings until its cycle ends. */
  lemma PhaseStep(s: State, l: Label, s': State)
    requires Next(s, l, s') && !l.OpenClaim?
    ensures forall p | p in s'.procs && !s'.procs[p].Idle? ::
      && p in s.procs && !s.procs[p].Idle? && s.procs[p].cfg == s'.procs[p].cfg
      && (s'.procs[p].Claiming? ==> s.procs[p] == s'.procs[p])
  {
  }

  /** What a step sends. */
  lemma WireStep(s: State, l: Label, s': State, w: Write)
    requires Next(s, l, s') && w in s'.wire && w !in s.wire && w.Failure?
    ensures (l.PublishThrows? || l.StoreThrows?) && l.p in s.procs && StepFail(s, s', l.p, l.blame)
    ensures w == FailureWrite(s.procs[l.p].todo[0], s.procs[l.p].cfg, l.blame)
  {
  }

  // ----- lease safety

  /** No row goes away, and only soft deletion, the commit of a claim and a landing write change
      one. A landing write changes the row it names, for its own tenant, while it carries the
      token of that row's latest claim. */
  lemma LeaseSafety(tr: seq<State>, ls: seq<Label>, i: nat, id: Id)
    requires Run(tr, ls) && i < |ls| && id in tr[i].rows
    ensures id in tr[i + 1].rows
    ensures
      var l, r, r' := ls[i], tr[i].rows[id], tr[i + 1].rows[id];
      || r' == r
      || (l.SetDeleted? && l.id == id && r' == r.(deletedAt := l.deletedAt))
      || (l.CommitClaim? && id in Ids(tr[i].procs[l.p].snaps) && r' == StampRow(r, tr[i].procs[l.p].token, l.claimedAt))
      || (l.Land? && l.w.id == id && l.w.tenantId == r.tenantId && r' == Patched(r, l.w)
          && id in tr[i].latest && tr[i].latest[id] == l.w.token
          && tr[i + 1].landings == tr[i].landings + [l.w])
  {
    Reached(tr, ls, i);
    assert LeaseOk(tr[i], id);
    assert Next(tr[i], ls[i], tr[i + 1]);
    if ls[i].CommitClaim? {
      CommitRows(tr[i], tr[i + 1], ls[i].p, ls[i].claimedAt, ls[i].lost);
    } else if !ls[i].Land? && !ls[i].SetDeleted? {
      SameRows(tr[i], ls[i], tr[i + 1], id);
    }
  }

  lemma SameRows(s: State, l: Label, s': State, id: Id)
    requires Next(s, l, s') && !l.Land? && !l.CommitClaim? && !l.SetDeleted? && id in s.rows
    ensures id in s'.rows && s'.rows[id] == s.rows[id]
  {
  }

  /** A claim stamps rows that were due when it read them and that nobody has touched since, however
      long its transaction was open. */
  lemma ClaimTakesDueRows(tr: seq<State>, ls: seq<Label>, i: nat, id: Id)
    requires Run(tr, ls) && i < |ls| && ls[i].CommitClaim?
    ensures ls[i].p in tr[i].procs && tr[i].procs[ls[i].p].Claiming?
    ensures
      var ph := tr[i].procs[ls[i].p];
      && |ph.snaps| <= ph.cfg.batchSize
      && (id in Ids(ph.snaps) ==>
            && id in tr[i].rows && tr[i].rows[id] in ph.snaps
            && Due(tr[i].rows[id], ph.now, ph.cfg.claimTimeoutMs)
            && Leased(tr[i].rows[id], tr[i + 1].rows[id], ph.token, ls[i].claimedAt))
  {
    Reached(tr, ls, i);
    var s, p := tr[i], ls[i].p;
    assert Next(s, ls[i], tr[i + 1]);
    assert PhaseOk(s, p);
    CommitRows(s, tr[i + 1], p, ls[i].claimedAt, ls[i].lost);
    if id in Ids(s.procs[p].snaps) {
      var k := RowOfSnap(s, p, id);
    }
  }

  /** What a landing write sets, column by column. */
  lemma LandingSetsColumns(tr: seq<State>, ls: seq<Label>, i: nat)
    requires Run(tr, ls) && i < |ls| && ls[i].Land? && Lands(tr[i].rows, ls[i].w)
    ensures
      var w := ls[i].w;
      && w.id in tr[i].rows && w.id in tr[i + 1].rows
      && (w.Mark? ==> Succeeded(tr[i].rows[w.id], tr[i + 1].rows[w.id], w.publishedAt))
      && (w.Failure? ==> Recorded(tr[i].rows[w.id], tr[i + 1].rows[w.id],
                                  w.attemptCount, w.nextAttemptAt, w.isDeadLetter, w.lastError))
  {
    assert Next(tr[i], ls[i], tr[i + 1]);
    WritesSetColumns(tr[i].rows[ls[i].w.id], ls[i].w);
  }

  /** A superseded attempt changes nothing at all. */
  lemma SupersededWriteIsInert(tr: seq<State>, ls: seq<Label>, i: nat)
    requires Run(tr, ls) && i < |ls| && ls[i].Land?
    requires ls[i].w.id in tr[i].latest ==> tr[i].latest[ls[i].w.id] != ls[i].w.token
    ensures !Lands(tr[i].rows, ls[i].w)
    ensures tr[i + 1].rows == tr[i].rows && tr[i + 1].landings == tr[i].landings
  {
    Reached(tr, ls, i);
    assert Next(tr[i], ls[i], tr[i + 1]);
    if ls[i].w.id in tr[i].rows {
      assert LeaseOk(tr[i], ls[i].w.id);
    }
  }

  /** Open claim transactions hold disjoint rows. */
  lemma ClaimsAreDisjoint(tr: seq<State>, ls: seq<Label>, n: nat, p: Pid, q: Pid)
    requires Run(tr, ls) && n < |tr|
    requires p != q && p in tr[n].procs && q in tr[n].procs
    requires tr[n].procs[p].Claiming? && tr[n].procs[q].Claiming?
    ensures Ids(tr[n].procs[p].snaps) !! Ids(tr[n].procs[q].snaps)
  {
    Reached(tr, ls, n);
    var s := tr[n];
    assert PhaseOk(s, p) && PhaseOk(s, q);
    forall id | id in Ids(s.procs[p].snaps) ensures s.locks[id] == p {
    }
    forall id | id in Ids(s.procs[q].snaps) ensures s.locks[id] == q {
    }
  }

  // ----- the shape of a row

  predicate Finished(r: Row) {
    r.status.Published? || r.status.DeadLetter?
  }

  /** PROCESSING exactly while leased, and waiting for an attempt exactly while unfinished. */
  lemma LifecycleShape(tr: seq<State>, ls: seq<Label>, n: nat, id: Id)
    requires Run(tr, ls) && n < |tr| && id in tr[n].rows
    ensures
      var r := tr[n].rows[id];
      && r.id == id
      && (r.status.Processing? <==> r.claimToken.Some?) && (r.status.Processing? <==> r.claimedAt.Some?)
      && (Finished(r) <==> r.nextAttemptAt.None?)
      && (r.claimToken.Some? ==> id in tr[n].latest && tr[n].latest[id] == r.claimToken.value)
  {
    Reached(tr, ls, n);
    assert RowOk(tr[n].rows[id]) && LeaseOk(tr[n], id);
  }

  /** Every event a processor has still to handle carries a lease, so the refusal at the top of
      `process` never fires; and while that lease is the row's, the event counts attempts as the
      row does, however old the snapshot is. */
  lemma SnapshotsAgree(tr: seq<State>, ls: seq<Label>, n: nat, p: Pid, k: nat)
    requires Run(tr, ls) && n < |tr| && p in tr[n].procs
    requires !tr[n].procs[p].Idle? && !tr[n].procs[p].Claiming? && k < |tr[n].procs[p].todo|
    ensures
      var e := tr[n].procs[p].todo[k];
      && HasLease(e) && e.id in tr[n].rows && e.tenantId == tr[n].rows[e.id].tenantId
      && (tr[n].rows[e.id].claimToken == e.claimToken ==> tr[n].rows[e.id].attemptCount == e.attemptCount)
  {
    Reached(tr, ls, n);
    assert PhaseOk(tr[n], p);
    assert HeldOk(tr[n], tr[n].procs[p].todo[k]);
  }

  // ----- finished rows are absorbing

  lemma FinishedStays(tr: seq<State>, ls: seq<Label>, i: nat, id: Id)
    requires Run(tr, ls) && i < |ls|
    requires id in tr[i].rows && Finished(tr[i].rows[id])
    ensures id in tr[i + 1].rows
    ensures tr[i + 1].rows[id] == tr[i].rows[id].(deletedAt := tr[i + 1].rows[id].deletedAt)
  {
    Reached(tr, ls, i);
    var s, s' := tr[i], tr[i + 1];
    assert Next(s, ls[i], s') && RowOk(s.rows[id]);
    match ls[i]
    case CommitClaim(p, at, lost) => CommitRows(s, s', p, at, lost);
    case Land(w) =>
    case _ => QuietStep(s, ls[i], s');
  }

  /** Neither a claim nor a terminal write changes a PUBLISHED or DEAD_LETTER row again, at any
      later point of the run. */
  lemma {:induction false} FinishedForever(tr: seq<State>, ls: seq<Label>, i: nat, j: nat, id: Id)
    requires Run(tr, ls) && i <= j < |tr|
    requires id in tr[i].rows && Finished(tr[i].rows[id])
    ensures id in tr[j].rows
    ensures tr[j].rows[id] == tr[i].rows[id].(deletedAt := tr[j].rows[id].deletedAt)
    decreases j
  {
    if i < j {
      FinishedForever(tr, ls, i, j - 1, id);
      FinishedStays(tr, ls, j - 1, id);
    }
  }

  // ----- no publish intent is lost

  /** Whatever has crashed or thrown, an unfinished row has a time from which every claim with
      this timeout finds it due. */
  lemma NoIntentLost(tr: seq<State>, ls: seq<Label>, n: nat, id: Id, timeoutMs: nat)
    requires Run(tr, ls) && n < |tr|
    requires id in tr[n].rows && !Finished(tr[n].rows[id])
    ensures
      var r := tr[n].rows[id];
      && r.nextAttemptAt.Some?
      && (r.status.Processing? ==> r.claimedAt.Some?)
      && forall now: Instant ::
           Due(r, now, timeoutMs) <==>
             && r.deletedAt.None? && r.nextAttemptAt.value <= now
             && (r.status.Processing? ==> r.claimedAt.value + timeoutMs < now)
  {
    Reached(tr, ls, n);
    assert RowOk(tr[n].rows[id]);
  }

  /** Due earlier, or at the same time and no younger. */
  predicate ComesFirst(a: Row, b: Row) {
    && a.nextAttemptAt.Some? && b.nextAttemptAt.Some?
    && a.nextAttemptAt.value <= b.nextAttemptAt.value
    && (a.nextAttemptAt.value == b.nextAttemptAt.value ==> a.createdAt <= b.createdAt)
  }

  /** A claim reads its rows in the order they are due. */
  lemma ClaimInOrder(tr: seq<State>, ls: seq<Label>, i: nat, j: nat, k: nat)
    requires Run(tr, ls) && i < |ls| && ls[i].OpenClaim? && j < k < |ls[i].picked|
    ensures ls[i].picked[j] in tr[i].rows && ls[i].picked[k] in tr[i].rows
    ensures ComesFirst(tr[i].rows[ls[i].picked[j]], tr[i].rows[ls[i].picked[k]])
  {
    assert Next(tr[i], ls[i], tr[i + 1]);
    assert Candidate(tr[i].rows, ls[i].skipped, ls[i].now, ls[i].cfg.claimTimeoutMs, ls[i].picked[j]);
    assert Candidate(tr[i].rows, ls[i].skipped, ls[i].now, ls[i].cfg.claimTimeoutMs, ls[i].picked[k]);
  }

  /** A claim takes an unfinished row that is due and not locked, by a claim or an UPDATE, unless it
      is filled by rows that are due no later. */
  lemma DueRowIsTaken(tr: seq<State>, ls: seq<Label>, i: nat, id: Id)
    requires Run(tr, ls) && i < |ls| && ls[i].OpenClaim?
    requires id in tr[i].rows && !Finished(tr[i].rows[id]) && tr[i].rows[id].deletedAt.None? && id !in ls[i].skipped
    ensures
      var l, r := ls[i], tr[i].rows[id];
      && r.nextAttemptAt.Some? && (r.status.Processing? ==> r.claimedAt.Some?)
      && (r.nextAttemptAt.value <= l.now
          && (r.status.Processing? ==> r.claimedAt.value + l.cfg.claimTimeoutMs < l.now) ==>
            || id in l.picked
            || (|l.picked| == l.cfg.batchSize
                && forall k | 0 <= k < |l.picked| ::
                     l.picked[k] in tr[i].rows && ComesFirst(tr[i].rows[l.picked[k]], r)))
  {
    NoIntentLost(tr, ls, i, id, ls[i].cfg.claimTimeoutMs);
    assert Next(tr[i], ls[i], tr[i + 1]);
    assert Due(tr[i].rows[id], ls[i].now, ls[i].cfg.claimTimeoutMs) ==>
        Candidate(tr[i].rows, ls[i].skipped, ls[i].now, ls[i].cfg.claimTimeoutMs, id);
  }

  /** A dead processor holds no row. What its open claim had locked is as it was, and the next claim
      to look finds it: the locks left belong to open claims of others. */
  lemma CrashFreesRows(tr: seq<State>, ls: seq<Label>, i: nat, id: Id)
    requires Run(tr, ls) && i < |ls| && ls[i].Crash?
    ensures ls[i].p in tr[i].procs
    ensures
      var s, s', ph := tr[i], tr[i + 1], tr[i].procs[ls[i].p];
      && (id in s'.locks ==>
            s'.locks[id] != ls[i].p && s'.locks[id] in s'.procs && s'.procs[s'.locks[id]].Claiming?)
      && (ph.Claiming? && id in Ids(ph.snaps) ==>
            && Candidate(s'.rows, s'.locks.Keys, ph.now, ph.cfg.claimTimeoutMs, id)
            && s'.rows[id] in ph.snaps && s.rows[id] == s'.rows[id])
  {
    Reached(tr, ls, i);
    Reached(tr, ls, i + 1);
    assert Next(tr[i], ls[i], tr[i + 1]);
    if tr[i].procs[ls[i].p].Claiming? && id in Ids(tr[i].procs[ls[i].p].snaps) {
      var k := RowOfSnap(tr[i], ls[i].p, id);
    }
  }
}
