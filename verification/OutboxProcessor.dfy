/**
 * The store and the processor as objects: src/outbox/outbox-event.repository.ts and
 * src/outbox/outbox.processor.ts run to completion, and the proof that doing so is one
 * behaviour of the protocol.
 *
 * Calls that leave the process (the query's answer, `publish`, the fate of each store call, clock
 * readings, random draws) are parameters.
 */
module OutboxProcessor {
  import opened Wrappers
  import opened OutboxRows
  import opened OutboxProtocol

  /** How a store call ended, and whether its statement had taken effect when it threw. */
  datatype Fate = Returned | ThrewBefore | ThrewAfter

  /** Everything outside the process that decides how one event is handled. */
  datatype Outcome = Outcome(published: bool, markedAt: Instant, mark: Fate, blame: Blame, record: Fate)

  datatype ClaimCall = ClaimCall(token: Token, now: Instant, claimedAt: Instant, picked: seq<Id>, fate: Fate)

  ghost predicate Keyed(rows: Table) {
    forall id | id in rows :: rows[id].id == id
  }

  // ----- what one cycle does to the table

  function AfterCall(rows: Table, w: Write, fate: Fate): Table {
    if fate.ThrewBefore? then rows else AfterWrite(rows, w)
  }

  /** The table after one event, and whether the exception leaves `process`. */
  function Handled(rows: Table, e: Row, cfg: Config, o: Outcome): (Table, bool)
  {
    if !HasLease(e) then (rows, false)
    else
      var marked := if o.published then AfterCall(rows, MarkWrite(e, o.markedAt), o.mark) else rows;
      if o.published && o.mark.Returned? then (marked, false)
      else (AfterCall(marked, FailureWrite(e, cfg, o.blame), o.record), !o.record.Returned?)
  }

  function Drained(rows: Table, batch: seq<Row>, cfg: Config, os: seq<Outcome>): (Table, bool)
    requires |os| >= |batch|
  {
    if batch == [] then (rows, false)
    else
      var (after, threw) := Handled(rows, batch[0], cfg, os[0]);
      if threw then (after, true) else Drained(after, batch[1..], cfg, os[1..])
  }

  lemma SelectedRows(rows: Table, locked: set<Id>, now: Instant, cfg: Config, picked: seq<Id>)
    requires Keyed(rows) && Selects(rows, locked, now, cfg, picked)
    ensures forall i | 0 <= i < |picked| :: picked[i] in rows && rows[picked[i]].id == picked[i]
  {
    forall i | 0 <= i < |picked| ensures picked[i] in rows {
      assert Candidate(rows, locked, now, cfg.claimTimeoutMs, picked[i]);
    }
  }

  lemma SavedIsClaimed(before: Table, after: Table, snaps: seq<Row>, token: Token, claimedAt: Instant)
    requires after.Keys == before.Keys
    requires forall i | 0 <= i < |snaps| :: snaps[i].id in before && before[snaps[i].id] == snaps[i]
    requires forall i | 0 <= i < |snaps| :: after[snaps[i].id] == StampRow(snaps[i], token, claimedAt)
    requires forall id | id in after && id !in Ids(Stamped(snaps, token, claimedAt)) :: after[id] == before[id]
    ensures after == ClaimRows(before, Ids(snaps), token, claimedAt)
  {
    var batch := Stamped(snaps, token, claimedAt);
    forall id | id in before ensures after[id] == ClaimRows(before, Ids(snaps), token, claimedAt)[id] {
      if id in Ids(snaps) {
        var i :| 0 <= i < |snaps| && snaps[i].id == id;
      } else {
        assert forall i | 0 <= i < |batch| :: batch[i].id == snaps[i].id && snaps[i].id in Ids(snaps);
      }
    }
  }

  class OutboxEventRepository {
    var rows: Table

    constructor ()
      ensures rows == map[]
    {
      rows := map[];
    }

    /** Stamps the rows the query answered with and saves them; `picked` is that answer. */
    method ClaimDueBatch(cfg: Config, call: ClaimCall, ghost locked: set<Id>) returns (batch: seq<Row>)
      requires Keyed(rows) && Selects(rows, locked, call.now, cfg, call.picked)
      modifies this
      ensures Keyed(rows) && forall i | 0 <= i < |call.picked| :: call.picked[i] in old(rows)
      ensures batch == Stamped(Snapshot(old(rows), call.picked), call.token, call.claimedAt)
      ensures rows == ClaimRows(old(rows), Ids(Snapshot(old(rows), call.picked)), call.token, call.claimedAt)
    {
      SelectedRows(rows, locked, call.now, cfg, call.picked);
      ghost var snaps := Snapshot(rows, call.picked);
      batch := Snapshot(rows, call.picked);
      if |batch| == 0 {
        return;
      }
      for i := 0 to |batch|
        invariant |batch| == |snaps| && rows == old(rows)
        invariant forall j | 0 <= j < i :: batch[j] == StampRow(snaps[j], call.token, call.claimedAt)
        invariant forall j | i <= j < |batch| :: batch[j] == snaps[j]
      {
        batch := batch[i := batch[i].(status := Processing, claimedAt := Some(call.claimedAt),
                                      claimToken := Some(call.token))];
      }
      assert batch == Stamped(snaps, call.token, call.claimedAt);
      Save(batch);
      SavedIsClaimed(old(rows), rows, snaps, call.token, call.claimedAt);
    }

    /** Writes each row back under its own id. */
    method Save(batch: seq<Row>)
      requires Keyed(rows)
      requires forall i | 0 <= i < |batch| :: batch[i].id in rows
      requires forall i, j | 0 <= i < j < |batch| :: batch[i].id != batch[j].id
      modifies this
      ensures Keyed(rows) && rows.Keys == old(rows).Keys
      ensures forall i | 0 <= i < |batch| :: rows[batch[i].id] == batch[i]
      ensures forall id | id in rows && id !in Ids(batch) :: rows[id] == old(rows)[id]
    {
      for i := 0 to |batch|
        invariant Keyed(rows) && rows.Keys == old(rows).Keys
        invariant forall j | 0 <= j < i :: rows[batch[j].id] == batch[j]
        invariant forall id | id in rows && id !in Ids(batch[..i]) :: rows[id] == old(rows)[id]
      {
        rows := rows[batch[i].id := batch[i]];
        assert forall j | 0 <= j < i :: batch[..i][j] == batch[..i + 1][j];
        assert batch[..i + 1][i] == batch[i];
        assert forall id | id in Ids(batch[..i]) :: id in Ids(batch[..i + 1]);
      }
      assert batch[..|batch|] == batch;
    }

    /** The answer tells whether this claim still owned the row. */
    method UpdateClaimed(w: Write) returns (applied: bool)
      requires Keyed(rows)
      modifies this
      ensures Keyed(rows) && rows == AfterWrite(old(rows), w)
      ensures applied <==> exists id :: id in old(rows) && Matches(old(rows)[id], w)
      ensures !applied ==> rows == old(rows)
    {
      var affected := 0;
      if w.id in rows && Matches(rows[w.id], w) {
        rows := rows[w.id := Patched(rows[w.id], w)];
        affected := 1;
      }
      applied := affected == 1;
    }

    method MarkPublished(e: Row, now: Instant) returns (applied: bool)
      requires Keyed(rows) && e.claimToken.Some?
      modifies this
      ensures Keyed(rows) && rows == AfterWrite(old(rows), MarkWrite(e, now))
      ensures applied <==> Lands(old(rows), MarkWrite(e, now))
    {
      applied := UpdateClaimed(MarkWrite(e, now));
    }

    method RecordFailure(w: Write) returns (applied: bool)
      requires Keyed(rows) && w.Failure?
      modifies this
      ensures Keyed(rows) && rows == AfterWrite(old(rows), w)
      ensures applied <==> Lands(old(rows), w)
    {
      applied := UpdateClaimed(w);
    }
  }

  class OutboxProcessor {
    const repository: OutboxEventRepository
    var isRunning: bool

    constructor (repository: OutboxEventRepository)
      ensures this.repository == repository && !isRunning
    {
      this.repository := repository;
      isRunning := false;
    }

    /** None when an exception escaped; otherwise how many rows were claimed. */
    method RunCycle(cfg: Config, call: ClaimCall, ghost locked: set<Id>, os: seq<Outcome>)
      returns (claimed: Option<nat>)
      requires Keyed(repository.rows) && Selects(repository.rows, locked, call.now, cfg, call.picked)
      requires |os| >= |call.picked|
      modifies this`isRunning, repository
      ensures Keyed(repository.rows)
      ensures old(isRunning) ==> isRunning && claimed == Some(0) && repository.rows == old(repository.rows)
      ensures !old(isRunning) ==>
        !isRunning && (repository.rows, claimed.None?) == Cycle(old(repository.rows), cfg, call, os)
      ensures !old(isRunning) && claimed.Some? ==> claimed.value == |call.picked|
    {
      if isRunning {
        return Some(0);
      }
      isRunning := true;
      claimed := None;
      assert forall i | 0 <= i < |call.picked| ::
          Candidate(repository.rows, locked, call.now, cfg.claimTimeoutMs, call.picked[i]);
      if !call.fate.ThrewBefore? {
        var batch := repository.ClaimDueBatch(cfg, call, locked);
        if call.fate.Returned? {
          var threw := Drain(batch, cfg, os);
          if !threw {
            claimed := Some(|batch|);
          }
        }
      }
      isRunning := false;
    }

    method Drain(batch: seq<Row>, cfg: Config, os: seq<Outcome>) returns (threw: bool)
      requires Keyed(repository.rows)
      requires |os| >= |batch|
      modifies repository
      ensures Keyed(repository.rows)
      ensures (repository.rows, threw) == Drained(old(repository.rows), batch, cfg, os)
    {
      threw := false;
      ghost var all := Drained(repository.rows, batch, cfg, os);
      var i := 0;
      while i < |batch| && !threw
        invariant 0 <= i <= |batch| && Keyed(repository.rows)
        invariant if threw then all == (repository.rows, true)
                  else all == Drained(repository.rows, batch[i..], cfg, os[i..])
        decreases |batch| - i, !threw
      {
        assert batch[i..][1..] == batch[i + 1..] && os[i..][1..] == os[i + 1..];
        threw := Process(batch[i], cfg, os[i]);
        i := i + 1;
      }
    }

    /** `markPublished` shares the try block with `publish`, so either one failing is a failed attempt. */
    method Process(e: Row, cfg: Config, o: Outcome) returns (threw: bool)
      requires Keyed(repository.rows)
      modifies repository
      ensures Keyed(repository.rows)
      ensures (repository.rows, threw) == Handled(old(repository.rows), e, cfg, o)
    {
      if e.claimToken.None? || !e.status.Processing? {
        return false;
      }
      var failed := !o.published;
      if o.published {
        if !o.mark.ThrewBefore? {
          var _ := repository.MarkPublished(e, o.markedAt);
        }
        failed := !o.mark.Returned?;
      }
      threw := false;
      if failed {
        if !o.record.ThrewBefore? {
          var _ := repository.RecordFailure(FailureWrite(e, cfg, o.blame));
        }
        threw := !o.record.Returned?;
      }
    }
  }

  /** A whole cycle from an idle processor: the table it leaves and whether it threw. */
  function Cycle(rows: Table, cfg: Config, call: ClaimCall, os: seq<Outcome>): (Table, bool)
    requires forall i | 0 <= i < |call.picked| :: call.picked[i] in rows
    requires |os| >= |call.picked|
  {
    var snaps := Snapshot(rows, call.picked);
    var claimed := ClaimRows(rows, Ids(snaps), call.token, call.claimedAt);
    match call.fate
    case ThrewBefore => (rows, true)
    case ThrewAfter => (claimed, true)
    case Returned => Drained(claimed, Stamped(snaps, call.token, call.claimedAt), cfg, os)
  }

  // ----- a cycle is a behaviour of the protocol

  /** The labels lead from s to t, one step each. */
  ghost predicate Leads(s: State, ls: seq<Label>, t: State)
    decreases |ls|
  {
    if ls == [] then s == t
    else exists m :: Next(s, ls[0], m) && Leads(m, ls[1..], t)
  }

  lemma {:induction false} LeadsOn(s: State, ls: seq<Label>, m: State, more: seq<Label>, t: State)
    requires Leads(s, ls, m) && Leads(m, more, t)
    ensures Leads(s, ls + more, t)
    decreases |ls|
  {
    if ls == [] {
      assert ls + more == more;
    } else {
      var n :| Next(s, ls[0], n) && Leads(n, ls[1..], m);
      LeadsOn(n, ls[1..], m, more, t);
      assert (ls + more)[1..] == ls[1..] + more;
    }
  }

  lemma {:induction false} OneStep(s: State, l: Label, t: State)
    requires Next(s, l, t)
    ensures Leads(s, [l], t)
  {
    assert Leads(t, [l][1..], t);
  }

  ghost predicate Alone(s: State, p: Pid) {
    p in s.procs && s.locks == map[] && Keyed(s.rows)
  }

  ghost function Unlock(s: State, p: Pid): State {
    s.(procs := s.procs[p := Idle], locks := Released(s.locks, p))
  }

  // ----- which behaviour

  /** `publish` threw, or the `markPublished` after it. */
  predicate Failed(o: Outcome) {
    !o.published || !o.mark.Returned?
  }

  /** The exception of recording the failure, which `process` does not catch. */
  predicate Escapes(o: Outcome) {
    Failed(o) && !o.record.Returned?
  }

  /** A store call threw. */
  predicate StoreThrew(o: Outcome) {
    (o.published && !o.mark.Returned?) || Escapes(o)
  }

  function CallLabels(p: Pid, w: Write, fate: Fate, blame: Blame): seq<Label> {
    (if fate.ThrewBefore? then [] else [Land(w)])
    + [if fate.Returned? then StoreReturns(p) else StoreThrows(p, blame)]
  }

  /** The steps of one event. */
  function EventLabels(p: Pid, e: Row, cfg: Config, o: Outcome): seq<Label> {
    if !HasLease(e) then [Begin(p)]
    else
      var record := CallLabels(p, FailureWrite(e, cfg, o.blame), o.record, o.blame);
      if !o.published then [Begin(p), PublishThrows(p, o.blame)] + record
      else [Begin(p), PublishReturns(p, o.markedAt)] + CallLabels(p, MarkWrite(e, o.markedAt), o.mark, o.blame)
           + (if o.mark.Returned? then [] else record)
  }

  /** The steps of a batch. */
  function DrainLabels(p: Pid, todo: seq<Row>, cfg: Config, os: seq<Outcome>): seq<Label>
    requires |os| >= |todo|
  {
    if todo == [] then [Finish(p)]
    else EventLabels(p, todo[0], cfg, os[0])
         + (if HasLease(todo[0]) && Escapes(os[0]) then [] else DrainLabels(p, todo[1..], cfg, os[1..]))
  }

  /** No exception left `process` before this event. */
  ghost predicate Comes(todo: seq<Row>, os: seq<Outcome>, i: nat)
    requires i <= |todo| <= |os|
  {
    forall j | 0 <= j < i :: !(HasLease(todo[j]) && Escapes(os[j]))
  }

  /** The publish calls that return, those that throw, and the store calls that throw are in the
      steps exactly when the outcomes of the events come to have them. */
  ghost predicate Tells(ls: seq<Label>, todo: seq<Row>, os: seq<Outcome>)
    requires |todo| <= |os|
  {
    && ((exists l | l in ls :: l.PublishReturns?) <==>
        exists i | 0 <= i < |todo| :: Comes(todo, os, i) && HasLease(todo[i]) && os[i].published)
    && ((exists l | l in ls :: l.PublishThrows?) <==>
        exists i | 0 <= i < |todo| :: Comes(todo, os, i) && HasLease(todo[i]) && !os[i].published)
    && ((exists l | l in ls :: l.StoreThrows?) <==>
        exists i | 0 <= i < |todo| :: Comes(todo, os, i) && HasLease(todo[i]) && StoreThrew(os[i]))
  }

  /** What one event's steps hold. */
  lemma EventLabelsTell(p: Pid, e: Row, cfg: Config, o: Outcome)
    ensures
      var ls := EventLabels(p, e, cfg, o);
      && ((exists l | l in ls :: l.PublishReturns?) <==> HasLease(e) && o.published)
      && ((exists l | l in ls :: l.PublishThrows?) <==> HasLease(e) && !o.published)
      && ((exists l | l in ls :: l.StoreThrows?) <==> HasLease(e) && StoreThrew(o))
  {
    if HasLease(e) {
      var w, f := MarkWrite(e, o.markedAt), FailureWrite(e, cfg, o.blame);
      CallLabelsTell(p, w, o.mark, o.blame);
      CallLabelsTell(p, f, o.record, o.blame);
      var ls := EventLabels(p, e, cfg, o);
      assert ls[1] == if o.published then PublishReturns(p, o.markedAt) else PublishThrows(p, o.blame);
      var record := CallLabels(p, f, o.record, o.blame);
      if !o.published {
        assert ls == [Begin(p), PublishThrows(p, o.blame)] + record;
      } else {
        assert forall l :: l in ls <==>
          || l in [Begin(p), PublishReturns(p, o.markedAt)] || l in CallLabels(p, w, o.mark, o.blame)
          || (!o.mark.Returned? && l in record);
      }
    }
  }

  lemma CallLabelsTell(p: Pid, w: Write, fate: Fate, blame: Blame)
    ensures forall l | l in CallLabels(p, w, fate, blame) :: l.Land? || l.StoreReturns? || l.StoreThrows?
    ensures (exists l | l in CallLabels(p, w, fate, blame) :: l.StoreThrows?) <==> !fate.Returned?
  {
    assert CallLabels(p, w, fate, blame)[|CallLabels(p, w, fate, blame)| - 1]
        == if fate.Returned? then StoreReturns(p) else StoreThrows(p, blame);
  }

  lemma {:induction false} DrainLabelsTell(p: Pid, todo: seq<Row>, cfg: Config, os: seq<Outcome>)
    requires |os| >= |todo|
    ensures Tells(DrainLabels(p, todo, cfg, os), todo, os)
    decreases |todo|
  {
    if todo != [] {
      EventLabelsTell(p, todo[0], cfg, os[0]);
      if HasLease(todo[0]) && Escapes(os[0]) {
        assert forall i | 0 < i < |todo| :: !Comes(todo, os, i);
        assert Comes(todo, os, 0);
      } else {
        DrainLabelsTell(p, todo[1..], cfg, os[1..]);
        TellsOn(EventLabels(p, todo[0], cfg, os[0]), DrainLabels(p, todo[1..], cfg, os[1..]), todo, os);
      }
    }
  }

  lemma TellsOn(first: seq<Label>, rest: seq<Label>, todo: seq<Row>, os: seq<Outcome>)
    requires 0 < |todo| <= |os| && !(HasLease(todo[0]) && Escapes(os[0])) && Tells(rest, todo[1..], os[1..])
    requires (exists l | l in first :: l.PublishReturns?) <==> HasLease(todo[0]) && os[0].published
    requires (exists l | l in first :: l.PublishThrows?) <==> HasLease(todo[0]) && !os[0].published
    requires (exists l | l in first :: l.StoreThrows?) <==> HasLease(todo[0]) && StoreThrew(os[0])
    ensures Tells(first + rest, todo, os)
  {
    forall i: nat | i < |todo| ensures Comes(todo, os, i) <==> i == 0 || Comes(todo[1..], os[1..], i - 1) {
      ComesOn(todo, os, i);
    }
    assert Comes(todo, os, 0);
    forall i | 0 <= i < |todo| - 1 ensures todo[1..][i] == todo[i + 1] && os[1..][i] == os[i + 1] {
    }
    assert forall l :: l in first + rest <==> l in first || l in rest;
  }

  lemma ComesOn(todo: seq<Row>, os: seq<Outcome>, i: nat)
    requires 0 < |todo| <= |os| && i < |todo| && !(HasLease(todo[0]) && Escapes(os[0]))
    ensures Comes(todo, os, i) <==> i == 0 || Comes(todo[1..], os[1..], i - 1)
  {
    if i > 0 && Comes(todo[1..], os[1..], i - 1) {
      forall j | 0 <= j < i ensures !(HasLease(todo[j]) && Escapes(os[j])) {
        if j > 0 {
          assert todo[1..][j - 1] == todo[j] && os[1..][j - 1] == os[j];
        }
      }
    }
    if Comes(todo, os, i) && i > 0 {
      forall j | 0 <= j < i - 1 ensures !(HasLease(todo[1..][j]) && Escapes(os[1..][j])) {
        assert todo[1..][j] == todo[j + 1] && os[1..][j] == os[j + 1];
      }
    }
  }

  // ----- the behaviour itself

  /** The catch block, from the state in which the attempt has just failed. */
  lemma FailedAttempt(s: State, p: Pid, o: Outcome, l: Label) returns (ls: seq<Label>, t: State)
    requires Alone(s, p)
    requires s.procs[p].Publishing? || s.procs[p].Marking?
    requires s.procs[p].todo != [] && HasLease(s.procs[p].todo[0])
    requires l == if s.procs[p].Publishing? then PublishThrows(p, o.blame) else StoreThrows(p, o.blame)
    ensures Leads(s, ls, t) && Alone(t, p)
    ensures ls == [l] + CallLabels(p, FailureWrite(s.procs[p].todo[0], s.procs[p].cfg, o.blame), o.record, o.blame)
    ensures t.rows == AfterCall(s.rows, FailureWrite(s.procs[p].todo[0], s.procs[p].cfg, o.blame), o.record)
    ensures t.procs[p] == if o.record.Returned? then Looping(s.procs[p].cfg, s.procs[p].todo[1..]) else Idle
  {
    var ph := s.procs[p];
    var w := FailureWrite(ph.todo[0], ph.cfg, o.blame);
    var a := s.(procs := s.procs[p := Recording(ph.cfg, ph.todo, w)], wire := s.wire + {w});
    assert StepFail(s, a, p, o.blame);
    OneStep(s, l, a);
    ls, t := [l], a;
    if !o.record.ThrewBefore? {
      ls, t := Landed(s, ls, a, w);
    }
    var last, u := RecordingEnds(t, p, o);
    LeadsOn(s, ls, t, [last], u);
    ls, t := ls + [last], u;
  }

  lemma RecordingEnds(s: State, p: Pid, o: Outcome) returns (l: Label, t: State)
    requires Alone(s, p) && s.procs[p].Recording? && s.procs[p].todo != []
    requires o.record.Returned? ==> s.procs[p].w !in s.wire
    ensures Leads(s, [l], t) && Alone(t, p) && t.rows == s.rows
    ensures l == if o.record.Returned? then StoreReturns(p) else StoreThrows(p, o.blame)
    ensures t.procs[p] == if o.record.Returned? then Looping(s.procs[p].cfg, s.procs[p].todo[1..]) else Idle
  {
    if o.record.Returned? {
      l, t := StoreReturns(p), s.(procs := s.procs[p := Advanced(s.procs[p])]);
    } else {
      l, t := StoreThrows(p, o.blame), Unlock(s, p);
    }
    OneStep(s, l, t);
  }

  /** Appends the landing of an issued write. */
  lemma Landed(s: State, ls: seq<Label>, a: State, w: Write) returns (more: seq<Label>, t: State)
    requires Leads(s, ls, a) && w in a.wire && a.locks == map[]
    ensures more == ls + [Land(w)] && Leads(s, more, t)
    ensures t == a.(rows := AfterWrite(a.rows, w), wire := a.wire - {w},
                    landings := if Lands(a.rows, w) then a.landings + [w] else a.landings)
  {
    t := a.(rows := AfterWrite(a.rows, w), wire := a.wire - {w},
            landings := if Lands(a.rows, w) then a.landings + [w] else a.landings);
    assert Next(a, Land(w), t);
    OneStep(a, Land(w), t);
    LeadsOn(s, ls, a, [Land(w)], t);
    more := ls + [Land(w)];
  }

  /** `publish` has returned: up to the end of the markPublished call. */
  lemma MarkIsSent(s: State, p: Pid, o: Outcome) returns (ls: seq<Label>, t: State)
    requires Alone(s, p)
    requires s.procs[p].Publishing? && s.procs[p].todo != [] && HasLease(s.procs[p].todo[0])
    ensures Leads(s, ls, t) && Alone(t, p)
    ensures
      var ph := s.procs[p];
      var w := MarkWrite(ph.todo[0], o.markedAt);
      && t.rows == AfterCall(s.rows, w, o.mark)
      && t.procs[p] == Marking(ph.cfg, ph.todo, w)
      && ls == [PublishReturns(p, o.markedAt)] + (if o.mark.ThrewBefore? then [] else [Land(w)])
      && (!o.mark.ThrewBefore? ==> w !in t.wire)
  {
    var ph := s.procs[p];
    var w := MarkWrite(ph.todo[0], o.markedAt);
    var a := s.(procs := s.procs[p := Marking(ph.cfg, ph.todo, w)], wire := s.wire + {w},
                accepted := s.accepted + {(w.id, w.token)}, acked := s.acked + {(w.id, w.token)});
    assert Next(s, PublishReturns(p, o.markedAt), a);
    OneStep(s, PublishReturns(p, o.markedAt), a);
    ls, t := [PublishReturns(p, o.markedAt)], a;
    if !o.mark.ThrewBefore? {
      ls, t := Landed(s, ls, a, w);
    }
  }

  /** `publish` has returned: the markPublished call, and the catch block when it throws. */
  lemma PublishedAttempt(s: State, p: Pid, o: Outcome) returns (ls: seq<Label>, t: State)
    requires Alone(s, p) && o.published
    requires s.procs[p].Publishing? && s.procs[p].todo != [] && HasLease(s.procs[p].todo[0])
    ensures Leads(s, ls, t) && Alone(t, p)
    ensures [Begin(p)] + ls == EventLabels(p, s.procs[p].todo[0], s.procs[p].cfg, o)
    ensures
      var (after, threw) := Handled(s.rows, s.procs[p].todo[0], s.procs[p].cfg, o);
      t.rows == after && t.procs[p] == if threw then Idle else Looping(s.procs[p].cfg, s.procs[p].todo[1..])
  {
    var ph := s.procs[p];
    ls, t := MarkIsSent(s, p, o);
    if o.mark.Returned? {
      var u := t.(procs := t.procs[p := Looping(ph.cfg, ph.todo[1..])]);
      assert Next(t, StoreReturns(p), u);
      OneStep(t, StoreReturns(p), u);
      LeadsOn(s, ls, t, [StoreReturns(p)], u);
      ls, t := ls + [StoreReturns(p)], u;
    } else {
      var more, u := FailedAttempt(t, p, o, StoreThrows(p, o.blame));
      LeadsOn(s, ls, t, more, u);
      ls, t := ls + more, u;
    }
  }

  /** Handling an event is a behaviour of the protocol, in which `publish` and the store calls return
      and throw as they did. */
  lemma EventIsRun(s: State, p: Pid, o: Outcome) returns (ls: seq<Label>, t: State)
    requires Alone(s, p)
    requires s.procs[p].Looping? && s.procs[p].todo != []
    ensures Leads(s, ls, t) && Alone(t, p)
    ensures ls == EventLabels(p, s.procs[p].todo[0], s.procs[p].cfg, o)
    ensures (exists l | l in ls :: l.PublishReturns?) <==> HasLease(s.procs[p].todo[0]) && o.published
    ensures (exists l | l in ls :: l.PublishThrows?) <==> HasLease(s.procs[p].todo[0]) && !o.published
    ensures (exists l | l in ls :: l.StoreThrows?) <==> HasLease(s.procs[p].todo[0]) && StoreThrew(o)
    ensures
      var (after, threw) := Handled(s.rows, s.procs[p].todo[0], s.procs[p].cfg, o);
      t.rows == after && t.procs[p] == if threw then Idle else Looping(s.procs[p].cfg, s.procs[p].todo[1..])
  {
    var ph := s.procs[p];
    EventLabelsTell(p, ph.todo[0], ph.cfg, o);
    var a := s.(procs := s.procs[p := if HasLease(ph.todo[0]) then Publishing(ph.cfg, ph.todo) else Advanced(ph)],
                called := if HasLease(ph.todo[0]) then s.called + {Key(ph.todo[0])} else s.called);
    assert Next(s, Begin(p), a);
    OneStep(s, Begin(p), a);
    ls, t := [Begin(p)], a;
    if HasLease(ph.todo[0]) {
      var more, u;
      if o.published {
        more, u := PublishedAttempt(a, p, o);
      } else {
        more, u := FailedAttempt(a, p, o, PublishThrows(p, o.blame));
      }
      LeadsOn(s, ls, a, more, u);
      ls, t := ls + more, u;
    }
  }

  lemma {:induction false} DrainIsRun(s: State, p: Pid, os: seq<Outcome>) returns (ls: seq<Label>, t: State)
    requires Alone(s, p) && s.procs[p].Looping? && |os| >= |s.procs[p].todo|
    ensures Leads(s, ls, t) && Alone(t, p) && t.procs[p].Idle?
    ensures ls == DrainLabels(p, s.procs[p].todo, s.procs[p].cfg, os) && Tells(ls, s.procs[p].todo, os)
    ensures t.rows == Drained(s.rows, s.procs[p].todo, s.procs[p].cfg, os).0
    decreases |os|
  {
    DrainLabelsTell(p, s.procs[p].todo, s.procs[p].cfg, os);
    if s.procs[p].todo == [] {
      t := Unlock(s, p);
      assert Next(s, Finish(p), t);
      OneStep(s, Finish(p), t);
      ls := [Finish(p)];
    } else {
      ls, t := EventIsRun(s, p, os[0]);
      if t.procs[p].Looping? {
        var more, u := DrainIsRun(t, p, os[1..]);
        LeadsOn(s, ls, t, more, u);
        ls, t := ls + more, u;
      }
    }
  }

  lemma OpenIsRun(s: State, p: Pid, cfg: Config, call: ClaimCall) returns (l: Label, t: State)
    requires Alone(s, p) && s.procs[p].Idle? && call.token !in s.used
    requires Selects(s.rows, {}, call.now, cfg, call.picked)
    ensures forall i | 0 <= i < |call.picked| :: call.picked[i] in s.rows
    ensures l == OpenClaim(p, cfg, call.token, call.now, {}, call.picked)
    ensures Leads(s, [l], t) && p in t.procs && t.rows == s.rows && Released(t.locks, p) == map[]
    ensures t.procs[p] == Claiming(cfg, call.token, call.now, Snapshot(s.rows, call.picked))
  {
    SelectedRows(s.rows, {}, call.now, cfg, call.picked);
    t := s.(used := s.used + {call.token}, locks := s.locks + (map id | id in call.picked :: p),
            procs := s.procs[p := Claiming(cfg, call.token, call.now, Snapshot(s.rows, call.picked))]);
    l := OpenClaim(p, cfg, call.token, call.now, {}, call.picked);
    assert s.locks.Keys == {};
    OneStep(s, l, t);
  }

  lemma CloseIsRun(s: State, p: Pid, call: ClaimCall) returns (l: Label, t: State)
    requires p in s.procs && s.procs[p].Claiming? && Keyed(s.rows) && Released(s.locks, p) == map[]
    ensures Leads(s, [l], t) && Alone(t, p)
    ensures l == if call.fate.ThrewBefore? then AbortClaim(p) else CommitClaim(p, call.claimedAt, call.fate.ThrewAfter?)
    ensures
      var ph := s.procs[p];
      && t.rows == (if call.fate.ThrewBefore? then s.rows
                    else ClaimRows(s.rows, Ids(ph.snaps), ph.token, call.claimedAt))
      && t.procs[p] == if !call.fate.Returned? then Idle
                       else Looping(ph.cfg, Stamped(ph.snaps, ph.token, call.claimedAt))
  {
    if call.fate.ThrewBefore? {
      l, t := AbortClaim(p), Unlock(s, p);
    } else {
      var ph, lost := s.procs[p], call.fate.ThrewAfter?;
      var ids := Ids(ph.snaps);
      l := CommitClaim(p, call.claimedAt, lost);
      t := s.(rows := ClaimRows(s.rows, ids, ph.token, call.claimedAt),
              locks := Released(s.locks, p),
              procs := s.procs[p := if lost then Idle
                                    else Looping(ph.cfg, Stamped(ph.snaps, ph.token, call.claimedAt))],
              claims := s.claims[ph.token := Claim(ids, call.claimedAt)],
              latest := s.latest + (map id | id in ids :: ph.token));
    }
    OneStep(s, l, t);
  }

  /** What `runCycle` does to the table, exceptions included, some run of the protocol does while
      the other processors rest; so all that holds over every run holds of it. */
  lemma CycleIsRun(s: State, p: Pid, cfg: Config, call: ClaimCall, os: seq<Outcome>) returns (ls: seq<Label>, t: State)
    requires Alone(s, p) && s.procs[p].Idle? && call.token !in s.used
    requires Selects(s.rows, {}, call.now, cfg, call.picked) && |os| >= |call.picked|
    ensures forall i | 0 <= i < |call.picked| :: call.picked[i] in s.rows
    ensures Leads(s, ls, t) && Alone(t, p) && t.procs[p].Idle?
    ensures |ls| >= 2 && ls[0] == OpenClaim(p, cfg, call.token, call.now, {}, call.picked)
    ensures ls[1] == if call.fate.ThrewBefore? then AbortClaim(p)
                     else CommitClaim(p, call.claimedAt, call.fate.ThrewAfter?)
    ensures
      var batch := Stamped(Snapshot(s.rows, call.picked), call.token, call.claimedAt);
      if call.fate.Returned? then ls[2..] == DrainLabels(p, batch, cfg, os) && Tells(ls[2..], batch, os)
      else |ls| == 2
    ensures t.rows == Cycle(s.rows, cfg, call, os).0
  {
    var open, a := OpenIsRun(s, p, cfg, call);
    var close;
    close, t := CloseIsRun(a, p, call);
    LeadsOn(s, [open], a, [close], t);
    ls := [open] + [close];
    if call.fate.Returned? {
      var more, u := DrainIsRun(t, p, os);
      LeadsOn(s, ls, t, more, u);
      ls, t := ls + more, u;
    }
  }

  /** A run goes on with any steps its last state allows. */
  lemma {:induction false} RunGoesOn(tr: seq<State>, ls: seq<Label>, more: seq<Label>, t: State)
    returns (longer: seq<State>)
    requires Run(tr, ls) && Leads(tr[|ls|], more, t)
    ensures Run(longer, ls + more) && tr <= longer && longer[|ls + more|] == t
    decreases |more|
  {
    if more == [] {
      longer := tr;
      assert ls + more == ls;
    } else {
      var m :| Next(tr[|ls|], more[0], m) && Leads(m, more[1..], t);
      longer := RunGoesOn(tr + [m], ls + [more[0]], more[1..], t);
      assert ls + [more[0]] + more[1..] == ls + more;
    }
  }

  // ----- what a cycle achieves

  lemma {:induction false} HealthyDrain(rows: Table, batch: seq<Row>, cfg: Config, os: seq<Outcome>)
    requires |os| >= |batch| && forall i | 0 <= i < |batch| :: os[i].published && os[i].mark.Returned?
    requires forall i | 0 <= i < |batch| :: HasLease(batch[i]) && batch[i].id in rows && rows[batch[i].id] == batch[i]
    requires forall i, j | 0 <= i < j < |batch| :: batch[i].id != batch[j].id
    ensures
      var (after, threw) := Drained(rows, batch, cfg, os);
      && !threw && after.Keys == rows.Keys
      && (forall i | 0 <= i < |batch| ::
            HasLease(batch[i]) && after[batch[i].id] == Patched(batch[i], MarkWrite(batch[i], os[i].markedAt)))
      && (forall id | id in rows && id !in Ids(batch) :: after[id] == rows[id])
  {
    if batch != [] {
      var (mid, _) := Handled(rows, batch[0], cfg, os[0]);
      var (after, _) := Drained(mid, batch[1..], cfg, os[1..]);
      HealthyDrain(mid, batch[1..], cfg, os[1..]);
      assert batch[0].id !in Ids(batch[1..]);
      assert forall i | 0 < i < |batch| :: batch[i] == batch[1..][i - 1] && os[i] == os[1..][i - 1];
      assert forall id | id in Ids(batch[1..]) :: id in Ids(batch) by {
        assert forall i | 0 <= i < |batch[1..]| :: batch[1..][i] == batch[i + 1];
      }
      assert batch[0].id in Ids(batch);
    }
  }

  /** The rows a claim leaves are its batch, each under its lease. */
  lemma ClaimedBatch(rows: Table, call: ClaimCall)
    requires Keyed(rows) && forall i | 0 <= i < |call.picked| :: call.picked[i] in rows
    ensures
      var snaps := Snapshot(rows, call.picked);
      var batch := Stamped(snaps, call.token, call.claimedAt);
      var claimed := ClaimRows(rows, Ids(snaps), call.token, call.claimedAt);
      && claimed.Keys == rows.Keys
      && (forall i | 0 <= i < |batch| ::
            && HasLease(batch[i]) && batch[i].id == call.picked[i]
            && batch[i].id in claimed && claimed[batch[i].id] == batch[i])
      && (forall id | id in rows && id !in call.picked :: id !in Ids(batch) && claimed[id] == rows[id])
  {
    var snaps := Snapshot(rows, call.picked);
    forall i | 0 <= i < |snaps| ensures snaps[i].id in Ids(snaps) && snaps[i].id == call.picked[i] {
    }
  }

  /** A cycle in which every publish and every markPublished returns publishes exactly the rows it
      claimed and leaves the rest alone. */
  lemma HealthyCycle(rows: Table, locked: set<Id>, cfg: Config, call: ClaimCall, os: seq<Outcome>, id: Id)
    requires Keyed(rows) && Selects(rows, locked, call.now, cfg, call.picked)
    requires |os| >= |call.picked| && forall i | 0 <= i < |call.picked| :: os[i].published && os[i].mark.Returned?
    requires call.fate.Returned? && id in rows
    ensures forall i | 0 <= i < |call.picked| :: call.picked[i] in rows
    ensures
      var (after, threw) := Cycle(rows, cfg, call, os);
      && !threw && id in after
      && (id in call.picked ==>
            && after[id].status.Published? && after[id].claimToken.None? && after[id].nextAttemptAt.None?
            && after[id].attemptCount == rows[id].attemptCount)
      && (id !in call.picked ==> after[id] == rows[id])
  {
    SelectedRows(rows, locked, call.now, cfg, call.picked);
    var snaps := Snapshot(rows, call.picked);
    var batch := Stamped(snaps, call.token, call.claimedAt);
    ClaimedBatch(rows, call);
    HealthyDrain(ClaimRows(rows, Ids(snaps), call.token, call.claimedAt), batch, cfg, os);
    if id in call.picked {
      var i :| 0 <= i < |call.picked| && call.picked[i] == id;
      assert batch[i].id == id;
    }
  }
}
