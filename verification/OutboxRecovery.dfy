/**
 * Recovery: from wherever a run of the outbox protocol has come to, and even if every processor
 * dies there, any unfinished row can still be published.
 */
module OutboxRecovery {
  import opened OutboxRows
  import opened OutboxProtocol
  import opened OutboxSafety
  import opened OutboxProcessor

  /** These processors die one after the other, and their transactions with them. */
  lemma {:induction false} AllCrash(s: State, ps: set<Pid>) returns (ls: seq<Label>, t: State)
    requires ps <= s.procs.Keys
    ensures Leads(s, ls, t) && t.rows == s.rows && t.used == s.used && t.procs.Keys == s.procs.Keys
    ensures forall q | q in s.procs :: if q in ps then t.procs[q].Idle? else t.procs[q] == s.procs[q]
    ensures forall id | id in t.locks :: id in s.locks && t.locks[id] == s.locks[id] && t.locks[id] !in ps
    decreases |ps|
  {
    if ps == {} {
      ls, t := [], s;
    } else {
      var q :| q in ps;
      var rest := ps - {q};
      assert |rest| < |ps|;
      var m := Unlock(s, q);
      OneStep(s, Crash(q), m);
      var more;
      more, t := AllCrash(m, rest);
      LeadsOn(s, [Crash(q)], m, more, t);
      ls := [Crash(q)] + more;
    }
  }

  lemma {:induction false} PicksFit(picked: seq<Id>, keys: set<Id>)
    requires forall i | 0 <= i < |picked| :: picked[i] in keys
    requires forall i, j | 0 <= i < j < |picked| :: picked[i] != picked[j]
    ensures |picked| <= |keys|
  {
    if picked != [] {
      var rest := keys - {picked[0]};
      PicksFit(picked[1..], rest);
      assert |rest| == |keys| - 1;
    }
  }

  /** With room for the whole table a claim takes every candidate. */
  lemma RoomyClaimTakesAll(rows: Table, now: Instant, cfg: Config, picked: seq<Id>, id: Id)
    requires Selects(rows, {}, now, cfg, picked) && cfg.batchSize > |rows|
    requires Candidate(rows, {}, now, cfg.claimTimeoutMs, id)
    ensures id in picked
  {
    forall i | 0 <= i < |picked| ensures picked[i] in rows.Keys {
      assert Candidate(rows, {}, now, cfg.claimTimeoutMs, picked[i]);
    }
    PicksFit(picked, rows.Keys);
    assert |rows.Keys| == |rows|;
  }

  lemma {:induction false} UnusedToken(used: set<Token>) returns (token: Token)
    ensures forall k: Token | k in used :: k < token
    decreases |used|
  {
    if used == {} {
      token := 0;
    } else {
      var k: Token :| k in used;
      var rest := used - {k};
      assert |rest| < |used|;
      var above := UnusedToken(rest);
      token := if k < above then above else k + 1;
      assert forall other | other in used :: other == k || other in rest;
    }
  }

  /** From when on a claim with this timeout finds the row due. */
  function DueFrom(r: Row, timeoutMs: nat): Instant {
    var next := if r.nextAttemptAt.Some? then r.nextAttemptAt.value else 0;
    var expiry := if r.claimedAt.Some? then r.claimedAt.value + timeoutMs + 1 else next;
    if next < expiry then expiry else next
  }

  /** A cycle in which everything answers. */
  function Healthy(n: nat, now: Instant): (os: seq<Outcome>)
    ensures |os| == n && forall i | 0 <= i < n :: os[i].published && os[i].mark.Returned?
  {
    seq(n, i => Outcome(true, now, Returned, Blame(false, "", now, 0.0), Returned))
  }

  /** No publish intent is ever lost. After any run, and after every processor has then died, the
      cycle of one processor with room in its batch publishes every unfinished row whose time has
      come, whatever its timeout setting. */
  lemma AnyIntentCanBePublished(tr: seq<State>, ls: seq<Label>, id: Id, p: Pid, timeoutMs: nat)
    returns (tr': seq<State>, ls': seq<Label>)
    requires Run(tr, ls) && p in tr[|ls|].procs && id in tr[|ls|].rows
    requires !Finished(tr[|ls|].rows[id]) && tr[|ls|].rows[id].deletedAt.None?
    ensures Run(tr', ls') && tr <= tr' && ls <= ls'
    ensures id in tr'[|ls'|].rows && tr'[|ls'|].rows[id].status.Published?
    ensures tr'[|ls'|].rows[id].attemptCount == tr[|ls|].rows[id].attemptCount
  {
    var s := tr[|ls|];
    Reached(tr, ls, |ls|);
    NoIntentLost(tr, ls, |ls|, id, timeoutMs);
    var crashes, dead := AllCrash(s, s.procs.Keys);
    assert dead.locks == map[];
    var now := DueFrom(s.rows[id], timeoutMs);
    var cfg := Config(|s.rows| + 1, timeoutMs, 1, 0, 0);
    var picked := SelectionExists(s.rows, {}, now, cfg);
    RoomyClaimTakesAll(s.rows, now, cfg, picked, id);
    var token := UnusedToken(s.used);
    var call := ClaimCall(token, now, now, picked, Returned);
    var cycle, t := CycleIsRun(dead, p, cfg, call, Healthy(|picked|, now));
    HealthyCycle(s.rows, {}, cfg, call, Healthy(|picked|, now), id);
    LeadsOn(s, crashes, dead, cycle, t);
    ls' := ls + (crashes + cycle);
    tr' := RunGoesOn(tr, ls, crashes + cycle, t);
  }
}
