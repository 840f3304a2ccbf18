/**
 * Lease exclusivity when process clocks and the database's NOW() are one clock.
 */
module OutboxTiming {
  import opened Wrappers
  import opened OutboxRows
  import opened OutboxProtocol
  import opened OutboxSafety

  /** One clock: the NOW() a claim compares with is a reading of it from when the transaction began
      or before. Claims may have different timeouts, none below this one. Nothing is said of when
      the claim time is read: it may be old by the time the claim commits. */
  ghost predicate SharedClock(tr: seq<State>, ls: seq<Label>, timeoutMs: nat)
    requires |tr| == |ls| + 1
  {
    forall i | 0 <= i < |ls| && ls[i].OpenClaim? ::
      ls[i].now <= tr[i].clock && ls[i].cfg.claimTimeoutMs >= timeoutMs
  }

  ghost predicate HasLanded(s: State, id: Id, token: Token) {
    exists i :: 0 <= i < |s.landings| && s.landings[i].id == id && s.landings[i].token == token
  }

  /** The claim still runs on the shared clock: no more than the timeout has gone since its claim time. */
  predicate Live(s: State, token: Token, timeoutMs: nat)
    requires token in s.claims
  {
    s.clock <= s.claims[token].at + timeoutMs
  }

  ghost predicate LiveLeasesHeld(s: State, timeoutMs: nat) {
    && (forall k: Token, id: Id | ClaimedIn(s, id, k) && Live(s, k, timeoutMs) ::
          s.rows[id].claimToken == Some(k) || HasLanded(s, id, k))
    && (forall p | p in s.procs && s.procs[p].Claiming? :: Expired(s, s.procs[p].snaps, timeoutMs))
  }

  /** Any lease these rows are under has run out. */
  ghost predicate Expired(s: State, snaps: seq<Row>, timeoutMs: nat) {
    forall i | 0 <= i < |snaps| && snaps[i].claimedAt.Some? :: snaps[i].claimedAt.value + timeoutMs < s.clock
  }

  lemma LandKeepsLeases(s: State, s': State, w: Write, timeoutMs: nat)
    requires Inv(s) && LiveLeasesHeld(s, timeoutMs) && StepLand(s, s', w)
    ensures LiveLeasesHeld(s', timeoutMs)
  {
    forall k: Token, id: Id | ClaimedIn(s', id, k) && Live(s', k, timeoutMs)
      ensures s'.rows[id].claimToken == Some(k) || HasLanded(s', id, k)
    {
      assert ClaimedIn(s, id, k) && Live(s, k, timeoutMs);
      if HasLanded(s, id, k) {
        var i :| 0 <= i < |s.landings| && s.landings[i].id == id && s.landings[i].token == k;
        assert s'.landings[i] == s.landings[i];
      } else if Lands(s.rows, w) && id == w.id {
        assert s'.landings[|s.landings|] == w;
      }
    }
  }

  lemma CommitKeepsLeases(s: State, s': State, p: Pid, at: Instant, lost: bool, timeoutMs: nat)
    requires Inv(s) && LiveLeasesHeld(s, timeoutMs) && StepCommitClaim(s, s', p, at, lost)
    ensures LiveLeasesHeld(s', timeoutMs)
  {
    CommitRows(s, s', p, at, lost);
    var snaps := s.procs[p].snaps;
    assert PhaseOk(s, p);
    forall id | id in Ids(snaps) && s.rows[id].claimToken.Some?
      ensures s.rows[id].claimToken.value in s.claims && !Live(s, s.rows[id].claimToken.value, timeoutMs)
    {
      assert LeaseOk(s, id) && RowOk(s.rows[id]);
    }
    forall k: Token, id: Id | ClaimedIn(s', id, k) && Live(s', k, timeoutMs)
      ensures s'.rows[id].claimToken == Some(k) || HasLanded(s', id, k)
    {
      if k != s.procs[p].token {
        assert ClaimedIn(s, id, k) && Live(s, k, timeoutMs);
        assert HasLanded(s, id, k) ==> HasLanded(s', id, k);
      }
    }
  }

  lemma QuietKeepsLeases(s: State, s': State, timeoutMs: nat)
    requires Inv(s) && LiveLeasesHeld(s, timeoutMs) && Quiet(s, s')
    requires forall p | p in s'.procs && s'.procs[p].Claiming? ::
      (p in s.procs && s.procs[p] == s'.procs[p]) || Expired(s, s'.procs[p].snaps, timeoutMs)
    ensures LiveLeasesHeld(s', timeoutMs)
  {
    forall k: Token, id: Id | ClaimedIn(s', id, k) && Live(s', k, timeoutMs)
      ensures s'.rows[id].claimToken == Some(k) || HasLanded(s', id, k)
    {
      assert ClaimedIn(s, id, k) && Live(s, k, timeoutMs);
      assert HasLanded(s, id, k) ==> HasLanded(s', id, k);
    }
  }

  /** A claim on the shared clock reads leased rows only after their timeout. */
  lemma OpenReadsExpired(s: State, s': State, l: Label, timeoutMs: nat)
    requires Inv(s) && l.OpenClaim? && Next(s, l, s')
    requires l.now <= s.clock && l.cfg.claimTimeoutMs >= timeoutMs
    ensures Expired(s, s'.procs[l.p].snaps, timeoutMs)
    ensures forall p | p in s'.procs && p != l.p :: p in s.procs && s.procs[p] == s'.procs[p]
  {
    var snaps := s'.procs[l.p].snaps;
    forall i | 0 <= i < |snaps| && snaps[i].claimedAt.Some? ensures snaps[i].claimedAt.value + timeoutMs < s.clock {
      assert Candidate(s.rows, l.skipped, l.now, l.cfg.claimTimeoutMs, l.picked[i]);
      assert RowOk(s.rows[l.picked[i]]);
    }
  }

  lemma OpenKeepsLeases(s: State, s': State, l: Label, timeoutMs: nat)
    requires Inv(s) && LiveLeasesHeld(s, timeoutMs) && l.OpenClaim? && Next(s, l, s')
    requires l.now <= s.clock && l.cfg.claimTimeoutMs >= timeoutMs
    ensures LiveLeasesHeld(s', timeoutMs)
  {
    QuietStep(s, l, s');
    OpenReadsExpired(s, s', l, timeoutMs);
    QuietKeepsLeases(s, s', timeoutMs);
  }

  lemma OtherKeepsLeases(s: State, s': State, l: Label, timeoutMs: nat)
    requires Inv(s) && LiveLeasesHeld(s, timeoutMs) && Next(s, l, s')
    requires !l.OpenClaim? && !l.CommitClaim? && !l.Land?
    ensures LiveLeasesHeld(s', timeoutMs)
  {
    QuietStep(s, l, s');
    PhaseStep(s, l, s');
    QuietKeepsLeases(s, s', timeoutMs);
  }

  lemma StepKeepsLeases(s: State, s': State, l: Label, timeoutMs: nat)
    requires Inv(s) && LiveLeasesHeld(s, timeoutMs) && Next(s, l, s')
    requires l.OpenClaim? ==> l.now <= s.clock && l.cfg.claimTimeoutMs >= timeoutMs
    ensures LiveLeasesHeld(s', timeoutMs)
  {
    if l.Land? {
      LandKeepsLeases(s, s', l.w, timeoutMs);
    } else if l.CommitClaim? {
      CommitKeepsLeases(s, s', l.p, l.claimedAt, l.lost, timeoutMs);
    } else if l.OpenClaim? {
      OpenKeepsLeases(s, s', l, timeoutMs);
    } else {
      OtherKeepsLeases(s, s', l, timeoutMs);
    }
  }

  lemma InitLeases(s: State, timeoutMs: nat)
    requires Init(s)
    ensures LiveLeasesHeld(s, timeoutMs)
  {
  }

  lemma LeasesNext(tr: seq<State>, ls: seq<Label>, n: nat, timeoutMs: nat)
    requires Run(tr, ls) && SharedClock(tr, ls, timeoutMs) && n < |ls| && LiveLeasesHeld(tr[n], timeoutMs)
    ensures LiveLeasesHeld(tr[n + 1], timeoutMs)
  {
    Reached(tr, ls, n);
    StepKeepsLeases(tr[n], tr[n + 1], ls[n], timeoutMs);
  }

  lemma {:induction false} LeasesReached(tr: seq<State>, ls: seq<Label>, n: nat, timeoutMs: nat)
    requires Run(tr, ls) && SharedClock(tr, ls, timeoutMs) && n < |tr|
    ensures LiveLeasesHeld(tr[n], timeoutMs)
  {
    if n == 0 {
      InitLeases(tr[0], timeoutMs);
    } else {
      LeasesReached(tr, ls, n - 1, timeoutMs);
      LeasesNext(tr, ls, n - 1, timeoutMs);
    }
  }

  /** A write that reaches the table while its claim runs lands, unless one of the same claim has
      landed on that row before. */
  lemma LiveWriteLands(tr: seq<State>, ls: seq<Label>, i: nat, timeoutMs: nat)
    requires Run(tr, ls) && SharedClock(tr, ls, timeoutMs) && i < |ls| && ls[i].Land?
    ensures
      var w := ls[i].w;
      && w.token in tr[i].claims
      && (Live(tr[i], w.token, timeoutMs) ==> Lands(tr[i].rows, w) || HasLanded(tr[i], w.id, w.token))
  {
    LeasesReached(tr, ls, i, timeoutMs);
    Reached(tr, ls, i);
    assert Next(tr[i], ls[i], tr[i + 1]);
    assert SentOk(tr[i], ls[i].w);
  }

  /** While a claim runs, nobody else commits a claim on one of its rows before its own terminal
      write on that row has landed. */
  lemma LiveClaimIsExclusive(tr: seq<State>, ls: seq<Label>, i: nat, timeoutMs: nat, token: Token, id: Id)
    requires Run(tr, ls) && SharedClock(tr, ls, timeoutMs) && i < |ls| && ls[i].CommitClaim?
    requires token in tr[i].claims && id in tr[i].claims[token].ids && Live(tr[i], token, timeoutMs)
    requires id in tr[i + 1].claims[tr[i].procs[ls[i].p].token].ids
    ensures HasLanded(tr[i], id, token)
  {
    Reached(tr, ls, i);
    LeasesReached(tr, ls, i, timeoutMs);
    var s, p := tr[i], ls[i].p;
    assert Next(s, ls[i], tr[i + 1]);
    assert PhaseOk(s, p);
    var snaps := s.procs[p].snaps;
    var k :| 0 <= k < |snaps| && snaps[k].id == id;
    assert ClaimedIn(s, id, token) && LeaseOk(s, id) && RowOk(s.rows[id]);
  }
}
