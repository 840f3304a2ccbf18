/**
 * How many cycles a backlog takes: with batches of b rows, n due rows are published by n / b cycles,
 * rounded up, and by no fewer.
 */
module OutboxBacklog {
  import opened OutboxRows
  import opened OutboxProtocol
  import opened OutboxSafety
  import opened OutboxProcessor
  import opened OutboxRecovery

  /** One cycle: its claim, and how each of its events went. */
  datatype Round = Round(call: ClaimCall, os: seq<Outcome>)

  /** The claim finds no row locked, and every publish and every markPublished returns. */
  ghost predicate HealthyRound(rows: Table, cfg: Config, r: Round) {
    && Selects(rows, {}, r.call.now, cfg, r.call.picked)
    && r.call.fate.Returned? && |r.os| >= |r.call.picked|
    && forall i | 0 <= i < |r.call.picked| :: r.os[i].published && r.os[i].mark.Returned?
  }

  lemma PickedAreRows(rows: Table, cfg: Config, r: Round)
    requires HealthyRound(rows, cfg, r)
    ensures forall i | 0 <= i < |r.call.picked| :: r.call.picked[i] in rows
  {
    forall i | 0 <= i < |r.call.picked| ensures r.call.picked[i] in rows {
      assert Candidate(rows, {}, r.call.now, cfg.claimTimeoutMs, r.call.picked[i]);
    }
  }

  ghost function AfterRound(rows: Table, cfg: Config, r: Round): Table
    requires HealthyRound(rows, cfg, r)
  {
    PickedAreRows(rows, cfg, r);
    Cycle(rows, cfg, r.call, r.os).0
  }

  /** Rounds one after the other, with clock readings between `from` and `to`. */
  ghost predicate HealthyRounds(rows: Table, cfg: Config, rs: seq<Round>, from: Instant, to: Instant)
    decreases |rs|
  {
    rs == []
    || (HealthyRound(rows, cfg, rs[0]) && from <= rs[0].call.now <= to
        && HealthyRounds(AfterRound(rows, cfg, rs[0]), cfg, rs[1..], from, to))
  }

  ghost function AfterRounds(rows: Table, cfg: Config, rs: seq<Round>, from: Instant, to: Instant): Table
    requires HealthyRounds(rows, cfg, rs, from, to)
    decreases |rs|
  {
    if rs == [] then rows else AfterRounds(AfterRound(rows, cfg, rs[0]), cfg, rs[1..], from, to)
  }

  /** The rows a claim at this time finds due. */
  function DueSet(rows: Table, now: Instant, cfg: Config): set<Id> {
    set id | id in rows && Candidate(rows, {}, now, cfg.claimTimeoutMs, id)
  }

  function Members(picked: seq<Id>): set<Id> {
    set id | id in picked
  }

  lemma {:induction false} MembersCount(picked: seq<Id>)
    requires forall i, j | 0 <= i < j < |picked| :: picked[i] != picked[j]
    ensures |Members(picked)| == |picked|
  {
    if picked != [] {
      MembersCount(picked[1..]);
      assert Members(picked) == {picked[0]} + Members(picked[1..]);
    }
  }

  function Least(a: nat, b: nat): nat {
    if a <= b then a else b
  }

  function Less(a: nat, b: nat): nat {
    if a <= b then 0 else a - b
  }

  /** A claim takes as many due rows as its batch holds. */
  lemma PickedCount(rows: Table, now: Instant, cfg: Config, picked: seq<Id>)
    requires Selects(rows, {}, now, cfg, picked)
    ensures Members(picked) <= DueSet(rows, now, cfg)
    ensures |picked| == |Members(picked)| == Least(cfg.batchSize, |DueSet(rows, now, cfg)|)
  {
    MembersCount(picked);
    forall id | id in Members(picked) ensures id in DueSet(rows, now, cfg) {
      assert Candidate(rows, {}, now, cfg.claimTimeoutMs, id);
    }
    SubsetCount(Members(picked), DueSet(rows, now, cfg));
    if |picked| < cfg.batchSize {
      assert Members(picked) == DueSet(rows, now, cfg);
    }
  }

  /** A round publishes the rows it picked, and leaves the others as they were. */
  lemma RoundPublishes(rows: Table, cfg: Config, r: Round)
    requires Keyed(rows) && HealthyRound(rows, cfg, r)
    ensures var after := AfterRound(rows, cfg, r);
      && after.Keys == rows.Keys && Keyed(after)
      && forall id | id in rows ::
           if id in r.call.picked then after[id].status.Published? else after[id] == rows[id]
  {
    PickedAreRows(rows, cfg, r);
    var after := AfterRound(rows, cfg, r);
    CycleKeepsKeys(rows, cfg, r.call, r.os);
    forall id | id in rows ensures if id in r.call.picked then after[id].status.Published? else after[id] == rows[id] {
      HealthyCycle(rows, {}, cfg, r.call, r.os, id);
    }
  }

  lemma CycleKeepsKeys(rows: Table, cfg: Config, call: ClaimCall, os: seq<Outcome>)
    requires Keyed(rows) && forall i | 0 <= i < |call.picked| :: call.picked[i] in rows
    requires |os| >= |call.picked|
    ensures Cycle(rows, cfg, call, os).0.Keys == rows.Keys && Keyed(Cycle(rows, cfg, call, os).0)
  {
    var snaps := Snapshot(rows, call.picked);
    var claimed := ClaimRows(rows, Ids(snaps), call.token, call.claimedAt);
    assert Keyed(claimed) && claimed.Keys == rows.Keys;
    if call.fate.Returned? {
      DrainKeepsKeys(claimed, Stamped(snaps, call.token, call.claimedAt), cfg, os);
    }
  }

  lemma {:induction false} DrainKeepsKeys(rows: Table, batch: seq<Row>, cfg: Config, os: seq<Outcome>)
    requires Keyed(rows) && |os| >= |batch|
    ensures Drained(rows, batch, cfg, os).0.Keys == rows.Keys && Keyed(Drained(rows, batch, cfg, os).0)
    decreases |batch|
  {
    if batch != [] {
      HandledKeepsKeys(rows, batch[0], cfg, os[0]);
      DrainKeepsKeys(Handled(rows, batch[0], cfg, os[0]).0, batch[1..], cfg, os[1..]);
    }
  }

  lemma HandledKeepsKeys(rows: Table, e: Row, cfg: Config, o: Outcome)
    requires Keyed(rows)
    ensures Handled(rows, e, cfg, o).0.Keys == rows.Keys && Keyed(Handled(rows, e, cfg, o).0)
  {
  }

  lemma PickedWereDue(rows: Table, cfg: Config, r: Round, to: Instant)
    requires HealthyRound(rows, cfg, r) && r.call.now <= to
    ensures Members(r.call.picked) <= DueSet(rows, r.call.now, cfg) <= DueSet(rows, to, cfg)
    ensures forall id | id in r.call.picked :: id in rows && !rows[id].status.Published?
  {
    PickedCount(rows, r.call.now, cfg, r.call.picked);
    forall id | id in r.call.picked ensures id in rows && !rows[id].status.Published? {
      assert id in Members(r.call.picked);
    }
  }

  lemma RoundLeaves(rows: Table, cfg: Config, r: Round, to: Instant)
    requires Keyed(rows) && HealthyRound(rows, cfg, r)
    ensures DueSet(AfterRound(rows, cfg, r), to, cfg) == DueSet(rows, to, cfg) - Members(r.call.picked)
  {
    RoundPublishes(rows, cfg, r);
  }

  lemma RoundShrinks(rows: Table, cfg: Config, r: Round, to: Instant)
    requires Keyed(rows) && HealthyRound(rows, cfg, r) && r.call.now <= to
    ensures |DueSet(AfterRound(rows, cfg, r), to, cfg)|
         == |DueSet(rows, to, cfg)| - Least(cfg.batchSize, |DueSet(rows, r.call.now, cfg)|)
  {
    RoundLeaves(rows, cfg, r, to);
    PickedWereDue(rows, cfg, r, to);
    PickedCount(rows, r.call.now, cfg, r.call.picked);
    SubsetCount(Members(r.call.picked), DueSet(rows, to, cfg));
  }

  /** A due row that is passed over stays due, and a whole batch was taken before it. */
  lemma PassedOver(rows: Table, cfg: Config, r: Round, from: Instant, to: Instant, id: Id)
    requires Keyed(rows) && HealthyRound(rows, cfg, r) && from <= r.call.now <= to
    requires id in DueSet(rows, from, cfg) && id !in r.call.picked
    ensures id in DueSet(AfterRound(rows, cfg, r), from, cfg)
    ensures |DueSet(AfterRound(rows, cfg, r), to, cfg)| == |DueSet(rows, to, cfg)| - cfg.batchSize
  {
    RoundLeaves(rows, cfg, r, from);
    RoundShrinks(rows, cfg, r, to);
    PickedCount(rows, r.call.now, cfg, r.call.picked);
    var due := DueSet(rows, r.call.now, cfg);
    assert id in due;
    SubsetCount(Members(r.call.picked) + {id}, due);
    assert id !in Members(r.call.picked);
  }

  /** Exactly so many are left: each of k rounds at one time takes a full batch while there is one. */
  lemma {:induction false} BacklogLeft(rows: Table, cfg: Config, rs: seq<Round>, now: Instant)
    requires Keyed(rows) && HealthyRounds(rows, cfg, rs, now, now)
    ensures |DueSet(AfterRounds(rows, cfg, rs, now, now), now, cfg)|
         == Less(|DueSet(rows, now, cfg)|, |rs| * cfg.batchSize)
    decreases |rs|
  {
    if rs != [] {
      RoundShrinks(rows, cfg, rs[0], now);
      RoundPublishes(rows, cfg, rs[0]);
      BacklogLeft(AfterRound(rows, cfg, rs[0]), cfg, rs[1..], now);
      LessAgain(|DueSet(rows, now, cfg)|, cfg.batchSize, |rs| - 1);
    }
  }

  lemma LessAgain(n: nat, b: nat, k: nat)
    ensures Less(n - Least(b, n), k * b) == Less(n, (k + 1) * b)
  {
    OneLess(k, b);
  }

  /** Rows that are not due any more stay as they are: PUBLISHED rows, for one. */
  lemma {:induction false} PublishedStays(rows: Table, cfg: Config, rs: seq<Round>, from: Instant, to: Instant, id: Id)
    requires Keyed(rows) && HealthyRounds(rows, cfg, rs, from, to) && id in rows && rows[id].status.Published?
    ensures id in AfterRounds(rows, cfg, rs, from, to) && AfterRounds(rows, cfg, rs, from, to)[id] == rows[id]
    decreases |rs|
  {
    if rs != [] {
      RoundPublishes(rows, cfg, rs[0]);
      PickedWereDue(rows, cfg, rs[0], to);
      PublishedStays(AfterRound(rows, cfg, rs[0]), cfg, rs[1..], from, to, id);
    }
  }

  /** However the clocks of the rounds run and whatever falls due in between: once there were rounds
      enough for all that is due by the end, every row due at the start is PUBLISHED. */
  lemma {:induction false} BacklogIsPublished(rows: Table, cfg: Config, rs: seq<Round>,
                                             from: Instant, to: Instant, id: Id)
    requires Keyed(rows) && HealthyRounds(rows, cfg, rs, from, to) && from <= to
    requires |rs| * cfg.batchSize >= |DueSet(rows, to, cfg)| && id in DueSet(rows, from, cfg)
    ensures id in AfterRounds(rows, cfg, rs, from, to)
    ensures AfterRounds(rows, cfg, rs, from, to)[id].status.Published?
    decreases |rs|
  {
    assert id in DueSet(rows, to, cfg);
    assert rs != [];
    var r, after := rs[0], AfterRound(rows, cfg, rs[0]);
    RoundPublishes(rows, cfg, r);
    if id in r.call.picked {
      PublishedStays(after, cfg, rs[1..], from, to, id);
    } else {
      PassedOver(rows, cfg, r, from, to, id);
      OneLess(|rs| - 1, cfg.batchSize);
      BacklogIsPublished(after, cfg, rs[1..], from, to, id);
    }
  }

  lemma OneLess(k: nat, b: nat)
    ensures (k + 1) * b == k * b + b
  {
  }

  /** At one time, n due rows are all PUBLISHED after k rounds of b exactly when k * b >= n. */
  lemma BacklogPublishedIff(rows: Table, cfg: Config, rs: seq<Round>, now: Instant)
    requires Keyed(rows) && HealthyRounds(rows, cfg, rs, now, now)
    ensures (forall id | id in DueSet(rows, now, cfg) ::
               id in AfterRounds(rows, cfg, rs, now, now) && AfterRounds(rows, cfg, rs, now, now)[id].status.Published?)
       <==> |rs| * cfg.batchSize >= |DueSet(rows, now, cfg)|
  {
    var after := AfterRounds(rows, cfg, rs, now, now);
    if |rs| * cfg.batchSize >= |DueSet(rows, now, cfg)| {
      forall id | id in DueSet(rows, now, cfg) ensures id in after && after[id].status.Published? {
        BacklogIsPublished(rows, cfg, rs, now, now, id);
      }
    } else {
      BacklogLeft(rows, cfg, rs, now);
      var left: Id :| left in DueSet(after, now, cfg);
      StillDueWasDue(rows, cfg, rs, now, left);
    }
  }

  lemma {:induction false} StillDueWasDue(rows: Table, cfg: Config, rs: seq<Round>, now: Instant, id: Id)
    requires Keyed(rows) && HealthyRounds(rows, cfg, rs, now, now)
    requires id in DueSet(AfterRounds(rows, cfg, rs, now, now), now, cfg)
    ensures id in DueSet(rows, now, cfg)
    decreases |rs|
  {
    if rs != [] {
      RoundPublishes(rows, cfg, rs[0]);
      RoundLeaves(rows, cfg, rs[0], now);
      StillDueWasDue(AfterRound(rows, cfg, rs[0]), cfg, rs[1..], now, id);
    }
  }

  // ----- as runs of the protocol

  lemma RoundIsRun(s: State, p: Pid, cfg: Config, now: Instant) returns (r: Round, ls: seq<Label>, t: State)
    requires Alone(s, p) && s.procs[p].Idle?
    ensures HealthyRound(s.rows, cfg, r) && r.call.now == now
    ensures Leads(s, ls, t) && Alone(t, p) && t.procs[p].Idle? && t.rows == AfterRound(s.rows, cfg, r)
  {
    var picked := SelectionExists(s.rows, {}, now, cfg);
    var token := UnusedToken(s.used);
    r := Round(ClaimCall(token, now, now, picked, Returned), Healthy(|picked|, now));
    ls, t := CycleIsRun(s, p, cfg, r.call, r.os);
  }

  /** One processor does k healthy rounds while the others rest. */
  lemma {:induction false} RoundsAreRun(s: State, p: Pid, cfg: Config, now: Instant, k: nat)
    returns (rs: seq<Round>, ls: seq<Label>, t: State)
    requires Alone(s, p) && s.procs[p].Idle?
    ensures |rs| == k && HealthyRounds(s.rows, cfg, rs, now, now)
    ensures Leads(s, ls, t) && t.rows == AfterRounds(s.rows, cfg, rs, now, now)
    decreases k
  {
    if k == 0 {
      rs, ls, t := [], [], s;
    } else {
      var r, first, m := RoundIsRun(s, p, cfg, now);
      var more, rest;
      more, rest, t := RoundsAreRun(m, p, cfg, now, k - 1);
      LeadsOn(s, first, m, rest, t);
      rs, ls := [r] + more, first + rest;
      assert rs[1..] == more;
    }
  }

  lemma KeyedReached(tr: seq<State>, ls: seq<Label>, n: nat)
    requires Run(tr, ls) && n < |tr|
    ensures Keyed(tr[n].rows)
  {
    Reached(tr, ls, n);
  }

  /** After any run, and after every processor has then died, one processor with batches of any fixed
      size publishes all rows due at a time in the fewest cycles that could. */
  lemma BacklogCanBePublished(tr: seq<State>, ls: seq<Label>, p: Pid, cfg: Config, now: Instant, k: nat)
    returns (tr': seq<State>, ls': seq<Label>, rs: seq<Round>)
    requires Run(tr, ls) && p in tr[|ls|].procs
    requires k * cfg.batchSize >= |DueSet(tr[|ls|].rows, now, cfg)|
    ensures Run(tr', ls') && tr <= tr' && ls <= ls'
    ensures |rs| == k && HealthyRounds(tr[|ls|].rows, cfg, rs, now, now)
    ensures tr'[|ls'|].rows == AfterRounds(tr[|ls|].rows, cfg, rs, now, now)
    ensures forall id | id in DueSet(tr[|ls|].rows, now, cfg) ::
      id in tr'[|ls'|].rows && tr'[|ls'|].rows[id].status.Published?
  {
    var s := tr[|ls|];
    Reached(tr, ls, |ls|);
    KeyedReached(tr, ls, |ls|);
    var crashes, dead := AllCrash(s, s.procs.Keys);
    assert dead.locks == map[];
    var work, t;
    rs, work, t := RoundsAreRun(dead, p, cfg, now, k);
    LeadsOn(s, crashes, dead, work, t);
    ls' := ls + (crashes + work);
    tr' := RunGoesOn(tr, ls, crashes + work, t);
    BacklogPublishedIff(s.rows, cfg, rs, now);
  }
}
