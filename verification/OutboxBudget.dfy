/**
 * A row's whole life under one retry policy: how many failures it can absorb, and how long all
 * its retry delays can be together.
 */
module OutboxBudget {
  import opened OutboxRetry
  import opened OutboxRows
  import opened OutboxProtocol
  import opened OutboxSafety
  import opened OutboxHistory

  /** Every cycle reads the same retry settings; batch sizes and timeouts may differ. */
  predicate SamePolicy(c: Config, cfg: Config) {
    c.maxAttempts == cfg.maxAttempts && c.backoffBaseMs == cfg.backoffBaseMs && c.backoffMaxMs == cfg.backoffMaxMs
  }

  ghost predicate FixedPolicy(ls: seq<Label>, cfg: Config) {
    forall i | 0 <= i < |ls| && ls[i].OpenClaim? :: SamePolicy(ls[i].cfg, cfg)
  }

  /** An attempt is always made before the budget is looked at. */
  function Budget(cfg: Config): nat {
    if cfg.maxAttempts <= 1 then 1 else cfg.maxAttempts
  }

  function DelayOf(w: Write): int {
    if w.Failure? && w.nextAttemptAt.Some? then w.nextAttemptAt.value - w.decidedAt else 0
  }

  predicate FailureFits(w: Write, cfg: Config) {
    w.Failure? ==>
      && 1 <= w.attemptCount
      && (w.attemptCount >= cfg.maxAttempts ==> w.isDeadLetter)
      && (w.isDeadLetter ==> w.nextAttemptAt.None?)
      && 0 <= DelayOf(w) <= Ceiling(w.attemptCount, cfg.backoffBaseMs, cfg.backoffMaxMs)
  }

  ghost predicate BudgetOk(s: State, cfg: Config) {
    && (forall p | p in s.procs && !s.procs[p].Idle? :: SamePolicy(s.procs[p].cfg, cfg))
    && (forall w | w in s.wire :: FailureFits(w, cfg))
    && (forall i | 0 <= i < |s.landings| :: FailureFits(s.landings[i], cfg))
    && (forall id | id in s.rows :: RowFits(s.rows[id], cfg))
  }

  predicate RowFits(r: Row, cfg: Config) {
    r.attemptCount <= Budget(cfg) && (!Finished(r) ==> r.attemptCount < Budget(cfg))
  }

  lemma FailureWriteFits(e: Row, own: Config, cfg: Config, b: Blame)
    requires HasLease(e) && SamePolicy(own, cfg)
    ensures FailureFits(FailureWrite(e, own, b), cfg)
  {
  }

  lemma LandKeepsRowBudget(s: State, s': State, w: Write, cfg: Config)
    requires Inv(s) && BudgetOk(s, cfg) && StepLand(s, s', w)
    ensures forall i | 0 <= i < |s'.landings| :: FailureFits(s'.landings[i], cfg)
    ensures forall id | id in s'.rows :: RowFits(s'.rows[id], cfg)
  {
    assert SentOk(s, w) && FailureFits(w, cfg);
    if Lands(s.rows, w) {
      assert RowFits(s.rows[w.id], cfg) && RowOk(s.rows[w.id]);
      assert RowFits(Patched(s.rows[w.id], w), cfg);
    }
  }

  lemma CommitKeepsRowBudget(s: State, s': State, p: Pid, at: Instant, lost: bool, cfg: Config)
    requires Inv(s) && BudgetOk(s, cfg) && StepCommitClaim(s, s', p, at, lost)
    ensures forall id | id in s'.rows :: RowFits(s'.rows[id], cfg)
  {
    CommitRows(s, s', p, at, lost);
    forall id | id in s'.rows ensures RowFits(s'.rows[id], cfg) {
      assert RowFits(s.rows[id], cfg);
    }
  }

  lemma QuietKeepsRowBudget(s: State, s': State, cfg: Config)
    requires BudgetOk(s, cfg) && Quiet(s, s')
    ensures forall id | id in s'.rows :: RowFits(s'.rows[id], cfg)
  {
    forall id | id in s'.rows && id in s.rows ensures RowFits(s'.rows[id], cfg) {
      assert RowFits(s.rows[id], cfg);
    }
  }

  lemma StepKeepsWireBudget(s: State, l: Label, s': State, cfg: Config)
    requires BudgetOk(s, cfg) && Next(s, l, s')
    ensures forall w | w in s'.wire :: FailureFits(w, cfg)
  {
    forall w | w in s'.wire && w !in s.wire && w.Failure? ensures FailureFits(w, cfg) {
      WireStep(s, l, s', w);
      FailureWriteFits(s.procs[l.p].todo[0], s.procs[l.p].cfg, cfg, l.blame);
    }
  }

  lemma StepKeepsBudget(s: State, l: Label, s': State, cfg: Config)
    requires Inv(s) && BudgetOk(s, cfg) && Next(s, l, s')
    requires l.OpenClaim? ==> SamePolicy(l.cfg, cfg)
    ensures BudgetOk(s', cfg)
  {
    if l.Land? {
      LandKeepsRowBudget(s, s', l.w, cfg);
    } else if l.CommitClaim? {
      CommitKeepsRowBudget(s, s', l.p, l.claimedAt, l.lost, cfg);
    } else {
      QuietStep(s, l, s');
      QuietKeepsRowBudget(s, s', cfg);
    }
    StepKeepsWireBudget(s, l, s', cfg);
    if !l.OpenClaim? {
      PhaseStep(s, l, s');
    }
  }

  lemma {:induction false} BudgetReached(tr: seq<State>, ls: seq<Label>, n: nat, cfg: Config)
    requires Run(tr, ls) && FixedPolicy(ls, cfg) && n < |tr|
    ensures BudgetOk(tr[n], cfg)
  {
    if n > 0 {
      BudgetReached(tr, ls, n - 1, cfg);
      Reached(tr, ls, n - 1);
      StepKeepsBudget(tr[n - 1], ls[n - 1], tr[n], cfg);
    }
  }

  function TotalDelay(failures: seq<Write>): int {
    if failures == [] then 0
    else TotalDelay(failures[..|failures| - 1]) + DelayOf(failures[|failures| - 1])
  }

  lemma {:induction false} FailuresFit(landings: seq<Write>, id: Id, cfg: Config)
    requires forall i | 0 <= i < |landings| :: FailureFits(landings[i], cfg)
    ensures forall k | 0 <= k < |FailuresOf(landings, id)| :: FailureFits(FailuresOf(landings, id)[k], cfg)
  {
    if landings != [] {
      FailuresFit(landings[..|landings| - 1], id, cfg);
    }
  }

  /** Delays of failures numbered 1, 2, 3, ...; the one that spends the budget has none. */
  lemma {:induction false} DelaysAddUp(f: seq<Write>, cfg: Config)
    requires Numbered(f, |f|) && |f| <= Budget(cfg)
    requires forall k | 0 <= k < |f| :: FailureFits(f[k], cfg)
    ensures 0 <= TotalDelay(f)
    ensures TotalDelay(f) <= TotalCeiling(Budget(cfg) - 1, cfg.backoffBaseMs, cfg.backoffMaxMs)
    ensures |f| < Budget(cfg) ==> TotalDelay(f) <= TotalCeiling(|f|, cfg.backoffBaseMs, cfg.backoffMaxMs)
  {
    if f != [] {
      DelaysAddUp(f[..|f| - 1], cfg);
      assert FailureFits(f[|f| - 1], cfg);
    }
    if |f| < Budget(cfg) {
      TotalCeilingMonotone(|f|, Budget(cfg) - 1, cfg.backoffBaseMs, cfg.backoffMaxMs);
    }
  }

  lemma {:induction false} TotalCeilingMonotone(m: nat, n: nat, baseMs: nat, maxMs: nat)
    requires m <= n
    ensures TotalCeiling(m, baseMs, maxMs) <= TotalCeiling(n, baseMs, maxMs)
    decreases n
  {
    if m < n {
      TotalCeilingMonotone(m, n - 1, baseMs, maxMs);
    }
  }

  lemma {:induction false} DelaysBound(f: seq<Write>, cfg: Config)
    requires Numbered(f, |f|) && |f| <= Budget(cfg)
    requires forall k | 0 <= k < |f| :: FailureFits(f[k], cfg)
    ensures 0 <= TotalDelay(f) <= cfg.backoffBaseMs * (Pow2(Budget(cfg) - 1) - 1)
    ensures TotalDelay(f) <= (Budget(cfg) - 1) * cfg.backoffMaxMs
  {
    DelaysAddUp(f, cfg);
    TotalCeilingBound(Budget(cfg) - 1, cfg.backoffBaseMs, cfg.backoffMaxMs);
  }

  /** Under one retry policy with budget n, a row absorbs at most n failures, and all the delays
      they ever schedule add up to at most base * (2^(n-1) - 1) and at most (n-1) * max. */
  lemma {:induction false} WholeLifeBound(tr: seq<State>, ls: seq<Label>, i: nat, id: Id, cfg: Config)
    requires Run(tr, ls) && FixedPolicy(ls, cfg) && i < |tr| && id in tr[i].rows
    ensures
      var f, n := FailuresOf(tr[i].landings, id), Budget(cfg);
      && |f| == tr[i].rows[id].attemptCount <= n
      && (!Finished(tr[i].rows[id]) ==> |f| < n)
      && 0 <= TotalDelay(f) <= cfg.backoffBaseMs * (Pow2(n - 1) - 1)
      && TotalDelay(f) <= (n - 1) * cfg.backoffMaxMs
  {
    BudgetReached(tr, ls, i, cfg);
    HistoryReached(tr, ls, i);
    FailuresFit(tr[i].landings, id, cfg);
    assert Numbered(FailuresOf(tr[i].landings, id), tr[i].rows[id].attemptCount) && RowFits(tr[i].rows[id], cfg);
    DelaysBound(FailuresOf(tr[i].landings, id), cfg);
  }
}
