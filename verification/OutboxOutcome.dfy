/**
 * What an event and a cycle do to the table, outcome by outcome: publication, a failed publish call,
 * a store call that throws before or after its statement took effect.
 */
module OutboxOutcome {
  import opened OutboxRows
  import opened OutboxProcessor

  /** The row as the event left it. */
  predicate Ended(r: Row, r': Row, attempts: nat, cfg: Config, o: Outcome) {
    if o.published && !o.mark.ThrewBefore? then Succeeded(r, r', o.markedAt)
    else if o.record.ThrewBefore? then r' == r
    else FailedOnce(r, r', attempts, cfg, o.blame)
  }

  ghost predicate OthersStay(rows: Table, after: Table, ids: set<Id>) {
    after.Keys == rows.Keys && forall id | id in rows && id !in ids :: after[id] == rows[id]
  }

  lemma FailureFailsOnce(r: Row, e: Row, cfg: Config, b: Blame)
    requires e.claimToken.Some?
    ensures FailedOnce(r, Patched(r, FailureWrite(e, cfg, b)), e.attemptCount, cfg, b)
  {
  }

  /** An event whose lease is still the row's. A publish call that throws is recorded as a failed
      attempt; so is one that returns, if the markPublished after it throws before it has taken
      effect. Only the exception of recording leaves `process`. */
  lemma EventEnds(rows: Table, e: Row, cfg: Config, o: Outcome)
    requires Keyed(rows) && HasLease(e) && e.id in rows
    requires rows[e.id].tenantId == e.tenantId && rows[e.id].claimToken == e.claimToken
    ensures
      var (after, threw) := Handled(rows, e, cfg, o);
      && OthersStay(rows, after, {e.id}) && Ended(rows[e.id], after[e.id], e.attemptCount, cfg, o)
      && (threw <==> (!o.published || !o.mark.Returned?) && !o.record.Returned?)
  {
    WritesSetColumns(rows[e.id], MarkWrite(e, o.markedAt));
    FailureFailsOnce(rows[e.id], e, cfg, o.blame);
  }

  /** An event whose lease the row no longer carries changes nothing; its exceptions are the same. */
  lemma LostLeaseEnds(rows: Table, e: Row, cfg: Config, o: Outcome)
    requires HasLease(e) && (e.id in rows ==> rows[e.id].claimToken != e.claimToken)
    ensures
      var (after, threw) := Handled(rows, e, cfg, o);
      after == rows && (threw <==> (!o.published || !o.mark.Returned?) && !o.record.Returned?)
  {
  }

  /** An event without a lease is refused. */
  lemma UnleasedIsRefused(rows: Table, e: Row, cfg: Config, o: Outcome)
    requires e.claimToken.None? || !e.status.Processing?
    ensures Handled(rows, e, cfg, o) == (rows, false)
  {
  }

  // ----- a batch

  /** No exception left `process` before event i. */
  ghost predicate Untroubled(os: seq<Outcome>, i: nat)
    requires i <= |os|
  {
    forall j | 0 <= j < i :: os[j].record.Returned? || (os[j].published && os[j].mark.Returned?)
  }

  ghost predicate InTable(rows: Table, batch: seq<Row>) {
    && (forall i | 0 <= i < |batch| :: HasLease(batch[i]) && batch[i].id in rows && rows[batch[i].id] == batch[i])
    && (forall i, j | 0 <= i < j < |batch| :: batch[i].id != batch[j].id)
  }

  ghost predicate BatchEnded(batch: seq<Row>, after: Table, cfg: Config, os: seq<Outcome>)
    requires |os| >= |batch|
  {
    forall i | 0 <= i < |batch| ::
      && batch[i].id in after
      && if Untroubled(os, i) then Ended(batch[i], after[batch[i].id], batch[i].attemptCount, cfg, os[i])
         else after[batch[i].id] == batch[i]
  }

  lemma UntroubledOn(os: seq<Outcome>, i: nat)
    requires 0 < i < |os| && Untroubled(os, 1)
    ensures Untroubled(os, i) <==> Untroubled(os[1..], i - 1)
  {
    if Untroubled(os[1..], i - 1) {
      forall j | 0 <= j < i ensures os[j].record.Returned? || (os[j].published && os[j].mark.Returned?) {
        if j > 0 {
          assert os[1..][j - 1] == os[j];
        }
      }
    }
    if Untroubled(os, i) {
      forall j | 0 <= j < i - 1
        ensures os[1..][j].record.Returned? || (os[1..][j].published && os[1..][j].mark.Returned?)
      {
        assert os[1..][j] == os[j + 1];
      }
    }
  }

  lemma RestInTable(rows: Table, mid: Table, batch: seq<Row>)
    requires batch != [] && InTable(rows, batch) && OthersStay(rows, mid, {batch[0].id})
    ensures InTable(mid, batch[1..]) && batch[0].id !in Ids(batch[1..])
    ensures Ids(batch) == Ids(batch[1..]) + {batch[0].id}
  {
    assert forall i | 0 <= i < |batch[1..]| :: batch[1..][i] == batch[i + 1];
    assert Ids(batch) == Ids(batch[1..]) + {batch[0].id} by {
      forall id | id in Ids(batch) ensures id in Ids(batch[1..]) + {batch[0].id} {
        var i :| 0 <= i < |batch| && batch[i].id == id;
        if i > 0 {
          assert batch[1..][i - 1].id == id;
        }
      }
    }
  }

  lemma {:induction false} DrainEnds(rows: Table, batch: seq<Row>, cfg: Config, os: seq<Outcome>)
    requires Keyed(rows) && |os| >= |batch| && InTable(rows, batch)
    ensures
      var (after, threw) := Drained(rows, batch, cfg, os);
      && OthersStay(rows, after, Ids(batch)) && BatchEnded(batch, after, cfg, os)
      && (threw <==> !Untroubled(os, |batch|))
    decreases |batch|
  {
    if batch != [] {
      var (mid, threw) := Handled(rows, batch[0], cfg, os[0]);
      EventEnds(rows, batch[0], cfg, os[0]);
      RestInTable(rows, mid, batch);
      if threw {
        FirstThrew(rows, mid, batch, cfg, os);
      } else {
        DrainEnds(mid, batch[1..], cfg, os[1..]);
        DrainOn(rows, mid, batch, cfg, os);
      }
    }
  }

  lemma FirstThrew(rows: Table, after: Table, batch: seq<Row>, cfg: Config, os: seq<Outcome>)
    requires batch != [] && |os| >= |batch| && InTable(rows, batch)
    requires OthersStay(rows, after, {batch[0].id}) && batch[0].id !in Ids(batch[1..])
    requires Ended(batch[0], after[batch[0].id], batch[0].attemptCount, cfg, os[0]) && !Untroubled(os, 1)
    ensures BatchEnded(batch, after, cfg, os) && !Untroubled(os, |batch|)
  {
    forall i | 0 < i < |batch| ensures !Untroubled(os, i) && after[batch[i].id] == batch[i] {
      assert batch[i].id != batch[0].id;
    }
  }

  lemma DrainOn(rows: Table, mid: Table, batch: seq<Row>, cfg: Config, os: seq<Outcome>)
    requires batch != [] && |os| >= |batch| && InTable(rows, batch)
    requires OthersStay(rows, mid, {batch[0].id}) && batch[0].id !in Ids(batch[1..])
    requires Ended(batch[0], mid[batch[0].id], batch[0].attemptCount, cfg, os[0]) && Untroubled(os, 1)
    requires
      var (after, threw) := Drained(mid, batch[1..], cfg, os[1..]);
      && OthersStay(mid, after, Ids(batch[1..])) && BatchEnded(batch[1..], after, cfg, os[1..])
      && (threw <==> !Untroubled(os[1..], |batch| - 1))
    ensures
      var (after, threw) := Drained(mid, batch[1..], cfg, os[1..]);
      BatchEnded(batch, after, cfg, os) && (threw <==> !Untroubled(os, |batch|))
  {
    var after := Drained(mid, batch[1..], cfg, os[1..]).0;
    forall i | 0 <= i < |batch|
      ensures batch[i].id in after
      ensures if Untroubled(os, i) then Ended(batch[i], after[batch[i].id], batch[i].attemptCount, cfg, os[i])
              else after[batch[i].id] == batch[i]
    {
      if i > 0 {
        UntroubledOn(os, i);
        assert batch[1..][i - 1] == batch[i] && os[1..][i - 1] == os[i];
      }
    }
    if |batch| < |os| {
      UntroubledOn(os, |batch|);
    } else {
      UntroubledAll(os);
    }
  }

  lemma UntroubledAll(os: seq<Outcome>)
    requires os != [] && Untroubled(os, 1)
    ensures Untroubled(os, |os|) <==> Untroubled(os[1..], |os| - 1)
  {
    if Untroubled(os[1..], |os| - 1) {
      forall j | 0 <= j < |os| ensures os[j].record.Returned? || (os[j].published && os[j].mark.Returned?) {
        if j > 0 {
          assert os[1..][j - 1] == os[j];
        }
      }
    }
  }

  // ----- a cycle

  /** A whole cycle. If the claim never took effect, nothing changes; if its answer was lost, its rows
      are leased and nothing else. Otherwise each row it claimed ends as its event's outcome says, up
      to and with the first event whose exception escapes; the rows after that stay leased. */
  lemma CycleEnds(rows: Table, locked: set<Id>, cfg: Config, call: ClaimCall, os: seq<Outcome>, i: nat)
    requires Keyed(rows) && Selects(rows, locked, call.now, cfg, call.picked)
    requires |os| >= |call.picked| && i < |call.picked|
    ensures forall k | 0 <= k < |call.picked| :: call.picked[k] in rows
    ensures
      var (after, threw) := Cycle(rows, cfg, call, os);
      var id := call.picked[i];
      && id in after
      && (if call.fate.ThrewBefore? then threw && after == rows
          else if call.fate.ThrewAfter? then threw && Leased(rows[id], after[id], call.token, call.claimedAt)
          else
            && (threw <==> !Untroubled(os, |call.picked|))
            && (if Untroubled(os, i)
                then exists r :: Leased(rows[id], r, call.token, call.claimedAt)
                                 && Ended(r, after[id], rows[id].attemptCount, cfg, os[i])
                else Leased(rows[id], after[id], call.token, call.claimedAt)))
  {
    CycleDrains(rows, locked, cfg, call, os);
    var batch := Stamped(Snapshot(rows, call.picked), call.token, call.claimedAt);
    assert batch[i].id == call.picked[i] && Leased(rows[call.picked[i]], batch[i], call.token, call.claimedAt);
  }

  lemma CycleDrains(rows: Table, locked: set<Id>, cfg: Config, call: ClaimCall, os: seq<Outcome>)
    requires Keyed(rows) && Selects(rows, locked, call.now, cfg, call.picked) && |os| >= |call.picked|
    ensures forall k | 0 <= k < |call.picked| :: call.picked[k] in rows && rows[call.picked[k]].id == call.picked[k]
    ensures
      var snaps := Snapshot(rows, call.picked);
      var batch := Stamped(snaps, call.token, call.claimedAt);
      var claimed := ClaimRows(rows, Ids(snaps), call.token, call.claimedAt);
      && Keyed(claimed) && InTable(claimed, batch) && OthersStay(rows, claimed, Ids(batch))
      && (call.fate.Returned? ==>
            var (after, threw) := Cycle(rows, cfg, call, os);
            && OthersStay(claimed, after, Ids(batch)) && BatchEnded(batch, after, cfg, os)
            && (threw <==> !Untroubled(os, |batch|)))
  {
    SelectedRows(rows, locked, call.now, cfg, call.picked);
    var snaps := Snapshot(rows, call.picked);
    var batch := Stamped(snaps, call.token, call.claimedAt);
    var claimed := ClaimRows(rows, Ids(snaps), call.token, call.claimedAt);
    ClaimedBatch(rows, call);
    assert Ids(batch) == Ids(snaps) by {
      assert forall k | 0 <= k < |batch| :: batch[k].id == snaps[k].id;
    }
    DrainEnds(claimed, batch, cfg, os);
  }

  /** Rows a cycle does not claim stay as they were. */
  lemma CycleLeavesOthers(rows: Table, locked: set<Id>, cfg: Config, call: ClaimCall, os: seq<Outcome>, id: Id)
    requires Keyed(rows) && Selects(rows, locked, call.now, cfg, call.picked)
    requires |os| >= |call.picked| && id in rows && id !in call.picked
    ensures forall k | 0 <= k < |call.picked| :: call.picked[k] in rows
    ensures id in Cycle(rows, cfg, call, os).0 && Cycle(rows, cfg, call, os).0[id] == rows[id]
  {
    CycleDrains(rows, locked, cfg, call, os);
    var snaps := Snapshot(rows, call.picked);
    var batch := Stamped(snaps, call.token, call.claimedAt);
    forall k | 0 <= k < |snaps| ensures snaps[k].id != id && batch[k].id != id {
      assert call.picked[k] in call.picked;
    }
  }
}
