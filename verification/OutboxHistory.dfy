/**
 * The record of terminal writes over every run of the outbox protocol: at most one lands per
 * claim, the failures of a row are numbered without gap, and PUBLISHED means published.
 */
module OutboxHistory {
  import opened Wrappers
  import opened OutboxRows
  import opened OutboxProtocol
  import opened OutboxSafety

  // ----- what has landed

  function FailuresOf(landings: seq<Write>, id: Id): seq<Write> {
    if landings == [] then []
    else
      var w := landings[|landings| - 1];
      FailuresOf(landings[..|landings| - 1], id) + (if w.Failure? && w.id == id then [w] else [])
  }

  lemma {:induction false} FailuresAppend(landings: seq<Write>, w: Write, id: Id)
    ensures FailuresOf(landings + [w], id) == FailuresOf(landings, id) + (if w.Failure? && w.id == id then [w] else [])
  {
    assert (landings + [w])[..|landings|] == landings;
  }

  lemma {:induction false} NoFailures(landings: seq<Write>, id: Id)
    requires forall i | 0 <= i < |landings| :: landings[i].id != id
    ensures FailuresOf(landings, id) == []
  {
    if landings != [] {
      NoFailures(landings[..|landings| - 1], id);
    }
  }

  ghost predicate LandingsOk(s: State) {
    && (forall i | 0 <= i < |s.landings| ::
          var w := s.landings[i];
          && ClaimedIn(s, w.id, w.token)
          && s.rows[w.id].claimToken != Some(w.token)
          && (w.Mark? ==> (w.id, w.token) in s.acked && s.rows[w.id].status.Published?))
    && (forall i, j | 0 <= i < j < |s.landings| ::
          s.landings[i].id != s.landings[j].id || s.landings[i].token != s.landings[j].token)
  }

  ghost predicate PublishedOk(s: State) {
    forall id | id in s.rows && s.rows[id].status.Published? ::
      exists i :: 0 <= i < |s.landings| && s.landings[i].Mark? && s.landings[i].id == id
  }

  ghost predicate Numbered(failures: seq<Write>, count: nat) {
    |failures| == count && forall k | 0 <= k < |failures| :: failures[k].Failure? && failures[k].attemptCount == k + 1
  }

  ghost predicate CountsOk(s: State) {
    forall id | id in s.rows :: Numbered(FailuresOf(s.landings, id), s.rows[id].attemptCount)
  }

  ghost predicate HistoryOk(s: State) {
    LandingsOk(s) && PublishedOk(s) && CountsOk(s)
  }

  lemma LandKeepsLandings(s: State, s': State, w: Write)
    requires Inv(s) && HistoryOk(s) && StepLand(s, s', w) && Lands(s.rows, w)
    ensures LandingsOk(s')
  {
    assert SentOk(s, w);
    assert RowOk(s.rows[w.id]);
  }

  lemma LandKeepsPublished(s: State, s': State, w: Write)
    requires Inv(s) && HistoryOk(s) && StepLand(s, s', w) && Lands(s.rows, w)
    ensures PublishedOk(s')
  {
    assert s'.landings[|s.landings|] == w;
    forall id | id in s'.rows && s'.rows[id].status.Published?
      ensures exists i :: 0 <= i < |s'.landings| && s'.landings[i].Mark? && s'.landings[i].id == id
    {
      if id != w.id {
        var i :| 0 <= i < |s.landings| && s.landings[i].Mark? && s.landings[i].id == id;
        assert s'.landings[i] == s.landings[i];
      }
    }
  }

  lemma LandKeepsCounts(s: State, s': State, w: Write)
    requires Inv(s) && HistoryOk(s) && StepLand(s, s', w) && Lands(s.rows, w)
    ensures CountsOk(s')
  {
    assert SentOk(s, w);
    forall id | id in s'.rows ensures Numbered(FailuresOf(s'.landings, id), s'.rows[id].attemptCount) {
      FailuresAppend(s.landings, w, id);
      assert Numbered(FailuresOf(s.landings, id), s.rows[id].attemptCount);
    }
  }

  lemma LandHistory(s: State, s': State, w: Write)
    requires Inv(s) && HistoryOk(s) && StepLand(s, s', w)
    ensures HistoryOk(s')
  {
    if Lands(s.rows, w) {
      LandKeepsLandings(s, s', w);
      LandKeepsPublished(s, s', w);
      LandKeepsCounts(s, s', w);
    }
  }

  /** A step that lands nothing: rows keep their attempts and are published as before; a lease is
      kept, or new. */
  ghost predicate NothingLanded(s: State, s': State) {
    && s'.landings == s.landings && s.acked <= s'.acked && s.rows.Keys <= s'.rows.Keys
    && (forall k | k in s.claims :: k in s'.claims && s'.claims[k] == s.claims[k])
    && (forall id | id in s.rows ::
          && s'.rows[id].attemptCount == s.rows[id].attemptCount
          && (s'.rows[id].status.Published? <==> s.rows[id].status.Published?)
          && (s'.rows[id].claimToken == s.rows[id].claimToken
              || (s'.rows[id].claimToken.Some? && s'.rows[id].claimToken.value !in s.claims)))
    && (forall id | id in s'.rows && id !in s.rows :: s'.rows[id].attemptCount == 0 && !s'.rows[id].status.Published?)
  }

  lemma UnlandedHistory(s: State, s': State)
    requires HistoryOk(s) && NothingLanded(s, s')
    ensures HistoryOk(s')
  {
    forall i | 0 <= i < |s.landings| ensures s'.rows[s.landings[i].id].claimToken != Some(s.landings[i].token) {
      assert ClaimedIn(s, s.landings[i].id, s.landings[i].token);
    }
    forall id | id in s'.rows ensures Numbered(FailuresOf(s'.landings, id), s'.rows[id].attemptCount) {
      if id !in s.rows {
        NoFailures(s.landings, id);
      }
    }
  }

  lemma CommitUnlanded(s: State, s': State, p: Pid, claimedAt: Instant, lost: bool)
    requires Inv(s) && StepCommitClaim(s, s', p, claimedAt, lost)
    ensures NothingLanded(s, s')
  {
    CommitRows(s, s', p, claimedAt, lost);
    forall id | id in Ids(s.procs[p].snaps) ensures !s.rows[id].status.Published? {
      assert RowOk(s.rows[id]);
    }
  }

  lemma QuietUnlanded(s: State, s': State)
    requires Quiet(s, s')
    ensures NothingLanded(s, s')
  {
  }

  lemma StepUnlanded(s: State, l: Label, s': State)
    requires Inv(s) && Next(s, l, s') && !l.Land?
    ensures NothingLanded(s, s')
  {
    if l.CommitClaim? {
      CommitUnlanded(s, s', l.p, l.claimedAt, l.lost);
    } else {
      QuietStep(s, l, s');
      QuietUnlanded(s, s');
    }
  }

  lemma NextHistory(s: State, l: Label, s': State)
    requires Inv(s) && HistoryOk(s) && Next(s, l, s')
    ensures HistoryOk(s')
  {
    if l.Land? {
      LandHistory(s, s', l.w);
    } else {
      StepUnlanded(s, l, s');
      UnlandedHistory(s, s');
    }
  }

  lemma {:induction false} HistoryReached(tr: seq<State>, ls: seq<Label>, n: nat)
    requires Run(tr, ls) && n < |tr|
    ensures HistoryOk(tr[n])
  {
    if n > 0 {
      HistoryReached(tr, ls, n - 1);
      Reached(tr, ls, n - 1);
      NextHistory(tr[n - 1], ls[n - 1], tr[n]);
    }
  }

  // ----- at most one terminal write per claim

  lemma {:induction false} LandingsGrow(tr: seq<State>, ls: seq<Label>, i: nat, j: nat)
    requires Run(tr, ls) && i <= j < |tr|
    ensures tr[i].landings <= tr[j].landings
    decreases j
  {
    if i < j {
      LandingsGrow(tr, ls, i, j - 1);
      assert Next(tr[j - 1], ls[j - 1], tr[j]);
    }
  }

  predicate LandsAt(tr: seq<State>, ls: seq<Label>, i: nat)
    requires |tr| == |ls| + 1 && i < |ls|
  {
    ls[i].Land? && Lands(tr[i].rows, ls[i].w)
  }

  /** Two writes that both changed a row did so under different claims or on different rows. */
  lemma AtMostOneLandingPerClaim(tr: seq<State>, ls: seq<Label>, i: nat, j: nat)
    requires Run(tr, ls) && i < j < |ls|
    requires LandsAt(tr, ls, i) && LandsAt(tr, ls, j)
    ensures ls[i].w.id != ls[j].w.id || ls[i].w.token != ls[j].w.token
  {
    HistoryReached(tr, ls, j + 1);
    LandingsGrow(tr, ls, i + 1, j);
    assert Next(tr[i], ls[i], tr[i + 1]) && Next(tr[j], ls[j], tr[j + 1]);
    var m, n := |tr[i].landings|, |tr[j].landings|;
    assert tr[i + 1].landings[m] == ls[i].w;
    assert tr[j].landings[m] == ls[i].w;
    assert tr[j + 1].landings[m] == ls[i].w && tr[j + 1].landings[n] == ls[j].w;
  }

  // ----- attempts

  /** attemptCount is the number of failures recorded on the row; they carry 1, 2, 3, ... in the
      order they landed. A failure about to land carries the next number. */
  lemma {:induction false} AttemptsAreCounted(tr: seq<State>, ls: seq<Label>, n: nat, id: Id)
    requires Run(tr, ls) && n < |tr| && id in tr[n].rows
    ensures
      var f := FailuresOf(tr[n].landings, id);
      && |f| == tr[n].rows[id].attemptCount
      && forall k | 0 <= k < |f| :: f[k].Failure? && f[k].id == id && f[k].attemptCount == k + 1
    ensures forall w | w in tr[n].wire && w.Failure? && w.id == id && Lands(tr[n].rows, w) ::
              w.attemptCount == tr[n].rows[id].attemptCount + 1
  {
    HistoryReached(tr, ls, n);
    Reached(tr, ls, n);
    FailuresNameTheRow(tr[n].landings, id);
    forall w | w in tr[n].wire && w.Failure? && w.id == id && Lands(tr[n].rows, w)
      ensures w.attemptCount == tr[n].rows[id].attemptCount + 1
    {
      assert SentOk(tr[n], w);
    }
  }

  lemma {:induction false} FailuresNameTheRow(landings: seq<Write>, id: Id)
    ensures forall k | 0 <= k < |FailuresOf(landings, id)| :: FailuresOf(landings, id)[k].id == id
  {
    if landings != [] {
      FailuresNameTheRow(landings[..|landings| - 1], id);
    }
  }

  // ----- PUBLISHED means published

  ghost predicate PublishReturnedAt(tr: seq<State>, ls: seq<Label>, i: nat, id: Id, token: Token)
    requires |tr| == |ls| + 1 && i < |ls|
  {
    && ls[i].PublishReturns? && ls[i].p in tr[i].procs && tr[i].procs[ls[i].p].Publishing?
    && tr[i].procs[ls[i].p].todo != []
    && tr[i].procs[ls[i].p].todo[0].id == id && tr[i].procs[ls[i].p].todo[0].claimToken == Some(token)
  }

  lemma {:induction false} AckedMeansReturned(tr: seq<State>, ls: seq<Label>, n: nat, id: Id, token: Token)
    returns (i: nat)
    requires Run(tr, ls) && n < |tr| && (id, token) in tr[n].acked
    ensures i < n && PublishReturnedAt(tr, ls, i, id, token)
  {
    assert n > 0;
    assert Next(tr[n - 1], ls[n - 1], tr[n]);
    if (id, token) in tr[n - 1].acked {
      i := AckedMeansReturned(tr, ls, n - 1, id, token);
    } else {
      i := n - 1;
    }
  }

  /** Behind every PUBLISHED row there is a claim whose publish call returned and whose
      markPublished landed. */
  lemma PublishedWasPublished(tr: seq<State>, ls: seq<Label>, n: nat, id: Id) returns (w: Write, i: nat)
    requires Run(tr, ls) && n < |tr|
    requires id in tr[n].rows && tr[n].rows[id].status.Published?
    ensures w in tr[n].landings && w.Mark? && w.id == id
    ensures i < n && PublishReturnedAt(tr, ls, i, id, w.token)
  {
    HistoryReached(tr, ls, n);
    var k :| 0 <= k < |tr[n].landings| && tr[n].landings[k].Mark? && tr[n].landings[k].id == id;
    w := tr[n].landings[k];
    i := AckedMeansReturned(tr, ls, n, id, w.token);
  }
}
