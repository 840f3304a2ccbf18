/**
 * src/repository/base.repository.ts over one table shared by all tenants.
 */
module TenantRepository {
  import opened Wrappers
  import opened TenantScope

  type Table = map<Id, Row>

  /** What a caller hands to `saveOne`. Without an id the database draws a new one; the timestamps
      are the caller's where given. */
  datatype Entity = Entity(id: Option<Id>, tenantId: Option<Tenant>, createdAt: Option<Instant>,
                           updatedAt: Option<Instant>, deletedAt: Option<Option<Instant>>, columns: Values)

  /** One call of the repository. `now` is the database's clock, `newId` the id it would draw. */
  datatype Op =
    | Find(tenant: Tenant, where_: Where, withDeleted: bool)
    | Update(tenant: Tenant, where_: Where, values: Values, now: Instant)
    | SoftDelete(tenant: Tenant, id: Id, now: Instant)
    | Restore(tenant: Tenant, id: Id, now: Instant)
    | Save(tenant: Tenant, entity: Entity, newId: Id, now: Instant)

  datatype Answer = Rows(rows: Table) | Affected(count: nat) | Saved(row: Row)

  function ById(id: Id): Where {
    One(map["id" := (d: Datum) => d == Number(id)])
  }

  function Matching(t: Table, tenant: Tenant, where_: Where): set<Id> {
    set id | id in t && SatisfiesAny(t[id], ScopeWhereToTenant(tenant, where_))
  }

  function Found(t: Table, tenant: Tenant, where_: Where, withDeleted: bool): Table {
    map id | id in Matching(t, tenant, where_) && (withDeleted || t[id].deletedAt.None?) :: t[id]
  }

  function Touched(t: Table, ids: set<Id>, change: Row -> Row): Table {
    map id | id in t :: if id in ids then change(t[id]) else t[id]
  }

  function SavedId(op: Op): Id
    requires op.Save?
  {
    if op.entity.id.Some? then op.entity.id.value else op.newId
  }

  function Given<T>(given: Option<T>, otherwise: T): T {
    if given.Some? then given.value else otherwise
  }

  /** Inserted, or laid over the row that has the id; the tenant is the argument's either way. */
  function SavedRow(t: Table, op: Op): Row
    requires op.Save?
  {
    var id, e := SavedId(op), op.entity;
    if id in t
    then Row(id, op.tenant, Given(e.createdAt, t[id].createdAt), Given(e.updatedAt, op.now),
             Given(e.deletedAt, t[id].deletedAt), t[id].columns + e.columns)
    else Row(id, op.tenant, Given(e.createdAt, op.now), Given(e.updatedAt, op.now), Given(e.deletedAt, None), e.columns)
  }

  function Target(op: Op): Where
    requires !op.Save?
  {
    match op
    case Find(_, w, _) => w
    case Update(_, w, _, _) => w
    case SoftDelete(_, id, _) => ById(id)
    case Restore(_, id, _) => ById(id)
  }

  function Change(op: Op): Row -> Row
    requires !op.Save? && !op.Find?
  {
    match op
    case Update(_, _, values, now) =>
      (r: Row) => r.(columns := r.columns + StripManagedColumns(values), updatedAt := now)
    case SoftDelete(_, _, now) => (r: Row) => r.(deletedAt := Some(now), updatedAt := now)
    case Restore(_, _, now) => (r: Row) => r.(deletedAt := None, updatedAt := now)
  }

  function Apply(t: Table, op: Op): Table {
    match op
    case Find(_, _, _) => t
    case Save(_, _, _, _) => t[SavedId(op) := SavedRow(t, op)]
    case _ => Touched(t, Matching(t, op.tenant, Target(op)), Change(op))
  }

  function AnswerTo(t: Table, op: Op): Answer {
    match op
    case Find(tenant, w, withDeleted) => Rows(Found(t, tenant, w, withDeleted))
    case Save(_, _, _, _) => Saved(SavedRow(t, op))
    case _ => Affected(|Matching(t, op.tenant, Target(op))|)
  }

  function After(t: Table, ops: seq<Op>): Table
    decreases |ops|
  {
    if ops == [] then t else After(Apply(t, ops[0]), ops[1..])
  }

  /** How much of `total` OFFSET and LIMIT leave. */
  function Span(total: nat, skip: nat, take: nat): nat {
    if total <= skip then 0 else if total - skip <= take then total - skip else take
  }

  function Window(ranked: seq<Id>, skip: nat, take: nat): (w: seq<Id>)
    ensures |w| == Span(|ranked|, skip, take)
    ensures forall k | 0 <= k < |w| :: w[k] == ranked[skip + k]
  {
    if |ranked| <= skip then [] else if |ranked| - skip <= take then ranked[skip..] else ranked[skip..skip + take]
  }

  function PageOf(found: Table, window: seq<Id>): (page: seq<Row>)
    requires forall k | 0 <= k < |window| :: window[k] in found
    ensures |page| == |window| && forall k | 0 <= k < |window| :: page[k] == found[window[k]]
  {
    seq(|window|, k requires 0 <= k < |window| => found[window[k]])
  }

  lemma FoundRow(t: Table, tenant: Tenant, where_: Where, withDeleted: bool, id: Id)
    requires id in Found(t, tenant, where_, withDeleted)
    ensures id in t && Found(t, tenant, where_, withDeleted)[id] == t[id]
    ensures t[id].tenantId == tenant && Wanted(t[id], where_)
  {
    ScopeMeaning(t[id], tenant, where_);
  }

  /** The tenant's own rows that a caller asks for. */
  function OwnWanted(t: Table, tenant: Tenant, where_: Where, withDeleted: bool): set<Id> {
    set id | id in t && t[id].tenantId == tenant && Wanted(t[id], where_) && (withDeleted || t[id].deletedAt.None?)
  }

  lemma FoundIsOwnWanted(t: Table, tenant: Tenant, where_: Where, withDeleted: bool)
    ensures Found(t, tenant, where_, withDeleted).Keys == OwnWanted(t, tenant, where_, withDeleted)
  {
    forall id | id in t
      ensures SatisfiesAny(t[id], ScopeWhereToTenant(tenant, where_))
         <==> t[id].tenantId == tenant && Wanted(t[id], where_)
    {
      ScopeMeaning(t[id], tenant, where_);
    }
  }

  /** Each of these ids once. */
  ghost predicate Ranks(ranked: seq<Id>, ids: set<Id>) {
    && (forall id :: id in ranked <==> id in ids)
    && (forall i, j | 0 <= i < j < |ranked| :: ranked[i] != ranked[j])
  }

  lemma {:induction false} RanksAll(ranked: seq<Id>, ids: set<Id>)
    requires Ranks(ranked, ids)
    ensures |ranked| == |ids|
  {
    if ranked != [] {
      var rest := ids - {ranked[0]};
      assert forall id :: id in ranked[1..] <==> id in rest;
      RanksAll(ranked[1..], rest);
    } else {
      assert ids == {};
    }
  }

  /** The row ranked k-th, and one the tenant owns and asked for. */
  predicate InPage(t: Table, tenant: Tenant, where_: Where, ranked: seq<Id>, k: nat, row: Row) {
    && k < |ranked| && ranked[k] in t && row == t[ranked[k]]
    && row.tenantId == tenant && Wanted(row, where_)
  }

  class BaseRepository {
    var table: Table

    constructor ()
      ensures table == map[]
    {
      table := map[];
    }

    method FindAll(tenant: Tenant, where_: Where, withDeleted: bool) returns (found: Table)
      ensures found.Keys == OwnWanted(table, tenant, where_, withDeleted)
      ensures forall id | id in found :: id in table && found[id] == table[id]
    {
      found := Found(table, tenant, where_, withDeleted);
      FoundIsOwnWanted(table, tenant, where_, withDeleted);
    }

    /** `ranked` is the order the database returns the matching rows in. */
    method FindMany(tenant: Tenant, where_: Where, withDeleted: bool, ranked: seq<Id>, skip: nat, take: nat)
      returns (page: seq<Row>)
      requires Ranks(ranked, Found(table, tenant, where_, withDeleted).Keys)
      ensures |page| == Span(|OwnWanted(table, tenant, where_, withDeleted)|, skip, take)
      ensures forall k | 0 <= k < |page| :: InPage(table, tenant, where_, ranked, skip + k, page[k])
    {
      var window := Window(ranked, skip, take);
      RanksAll(ranked, Found(table, tenant, where_, withDeleted).Keys);
      FoundIsOwnWanted(table, tenant, where_, withDeleted);
      assert forall k | 0 <= k < |window| :: window[k] in ranked;
      page := PageOf(Found(table, tenant, where_, withDeleted), window);
      forall k | 0 <= k < |page| ensures InPage(table, tenant, where_, ranked, skip + k, page[k]) {
        FoundRow(table, tenant, where_, withDeleted, window[k]);
      }
    }

    method Count(tenant: Tenant, where_: Where, withDeleted: bool) returns (n: nat)
      ensures n == |OwnWanted(table, tenant, where_, withDeleted)|
    {
      var found := Found(table, tenant, where_, withDeleted);
      FoundIsOwnWanted(table, tenant, where_, withDeleted);
      assert |found| == |found.Keys|;
      n := |found|;
    }

    method UpdateBy(tenant: Tenant, where_: Where, values: Values, now: Instant) returns (affected: nat)
      modifies this
      ensures table == Apply(old(table), Update(tenant, where_, values, now))
      ensures Affected(affected) == AnswerTo(old(table), Update(tenant, where_, values, now))
    {
      var rest := StripManagedColumns(values);
      var ids := Matching(table, tenant, where_);
      affected := |ids|;
      table := Touched(table, ids, (r: Row) => r.(columns := r.columns + rest, updatedAt := now));
    }

    method UpdateOneById(tenant: Tenant, id: Id, values: Values, now: Instant) returns (affected: nat)
      modifies this
      ensures table == Apply(old(table), Update(tenant, ById(id), values, now))
      ensures Affected(affected) == AnswerTo(old(table), Update(tenant, ById(id), values, now))
    {
      affected := UpdateBy(tenant, ById(id), values, now);
    }

    method SoftDeleteOneById(tenant: Tenant, id: Id, now: Instant) returns (affected: nat)
      modifies this
      ensures table == Apply(old(table), SoftDelete(tenant, id, now))
      ensures Affected(affected) == AnswerTo(old(table), SoftDelete(tenant, id, now))
    {
      var ids := Matching(table, tenant, ById(id));
      affected := |ids|;
      table := Touched(table, ids, (r: Row) => r.(deletedAt := Some(now), updatedAt := now));
    }

    method RestoreOneById(tenant: Tenant, id: Id, now: Instant) returns (affected: nat)
      modifies this
      ensures table == Apply(old(table), Restore(tenant, id, now))
      ensures Affected(affected) == AnswerTo(old(table), Restore(tenant, id, now))
    {
      var ids := Matching(table, tenant, ById(id));
      affected := |ids|;
      table := Touched(table, ids, (r: Row) => r.(deletedAt := None, updatedAt := now));
    }

    method SaveOne(tenant: Tenant, entity: Entity, newId: Id, now: Instant) returns (row: Row)
      modifies this
      ensures table == Apply(old(table), Save(tenant, entity, newId, now))
      ensures Saved(row) == AnswerTo(old(table), Save(tenant, entity, newId, now)) && row.tenantId == tenant
    {
      var stamped := entity.(tenantId := Some(tenant));
      var id := if stamped.id.Some? then stamped.id.value else newId;
      var createdAt, deletedAt, columns := now, None, stamped.columns;
      if id in table {
        createdAt, deletedAt, columns := table[id].createdAt, table[id].deletedAt, table[id].columns + stamped.columns;
      }
      row := Row(id, stamped.tenantId.value, Given(stamped.createdAt, createdAt), Given(stamped.updatedAt, now),
                 Given(stamped.deletedAt, deletedAt), columns);
      table := table[id := row];
    }

    /** The rows come back in the order of the entities, each stamped with the argument's tenant. */
    method SaveMany(tenant: Tenant, entities: seq<Entity>, newIds: seq<Id>, now: Instant) returns (saved: seq<Row>)
      requires |newIds| == |entities|
      modifies this
      ensures table == After(old(table), Saves(tenant, entities, newIds, now))
      ensures |saved| == |entities|
      ensures forall k | 0 <= k < |saved| ::
        var ops := Saves(tenant, entities, newIds, now);
        saved[k] == SavedRow(After(old(table), ops[..k]), ops[k]) && saved[k].tenantId == tenant
    {
      ghost var ops := Saves(tenant, entities, newIds, now);
      saved := [];
      for i := 0 to |entities|
        invariant table == After(old(table), ops[..i]) && |saved| == i
        invariant forall k | 0 <= k < i ::
          saved[k] == SavedRow(After(old(table), ops[..k]), ops[k]) && saved[k].tenantId == tenant
      {
        AfterSnoc(old(table), ops[..i], ops[i]);
        assert ops[..i + 1] == ops[..i] + [ops[i]];
        var row := SaveOne(tenant, entities[i], newIds[i], now);
        saved := saved + [row];
      }
      assert ops[..|entities|] == ops;
    }
  }

  lemma {:induction false} AfterSnoc(t: Table, ops: seq<Op>, op: Op)
    ensures After(t, ops + [op]) == Apply(After(t, ops), op)
    decreases |ops|
  {
    if ops == [] {
      assert ops + [op] == [op] && [op][1..] == [];
    } else {
      AfterSnoc(Apply(t, ops[0]), ops[1..], op);
      assert (ops + [op])[1..] == ops[1..] + [op];
    }
  }

  function Saves(tenant: Tenant, entities: seq<Entity>, newIds: seq<Id>, now: Instant): (ops: seq<Op>)
    requires |newIds| == |entities|
    ensures |ops| == |entities|
  {
    seq(|entities|, i requires 0 <= i < |entities| => Save(tenant, entities[i], newIds[i], now))
  }

  // ----- one call

  ghost predicate Keyed(t: Table) {
    forall id | id in t :: t[id].id == id
  }

  /** A save over a row that is another tenant's. */
  predicate TakesOver(t: Table, op: Op) {
    op.Save? && SavedId(op) in t && t[SavedId(op)].tenantId != op.tenant
  }

  function Owned(t: Table, tenant: Tenant): Table {
    map id | id in t && t[id].tenantId == tenant :: t[id]
  }

  /** Every row of another tenant is still there and as it was. */
  ghost predicate OthersUntouched(t: Table, t': Table, tenant: Tenant) {
    forall id | id in t && t[id].tenantId != tenant :: id in t' && t'[id] == t[id]
  }

  lemma MatchingIsOwn(t: Table, tenant: Tenant, where_: Where)
    ensures forall id | id in Matching(t, tenant, where_) :: t[id].tenantId == tenant
    ensures Matching(t, tenant, where_) == Matching(Owned(t, tenant), tenant, where_)
  {
    forall id | id in t
      ensures SatisfiesAny(t[id], ScopeWhereToTenant(tenant, where_)) ==> t[id].tenantId == tenant
    {
      ScopeMeaning(t[id], tenant, where_);
    }
    assert forall id | id in Owned(t, tenant) :: Owned(t, tenant)[id] == t[id];
  }

  /** A call leaves other tenants' rows alone if and only if it is not a save whose id is another
      tenant's row. */
  lemma UntouchedIffNoTakeOver(t: Table, op: Op)
    ensures OthersUntouched(t, Apply(t, op), op.tenant) <==> !TakesOver(t, op)
  {
    if TakesOver(t, op) {
      assert Apply(t, op)[SavedId(op)].tenantId == op.tenant;
    } else if !op.Save? {
      MatchingIsOwn(t, op.tenant, Target(op));
    }
  }

  lemma FindsOwn(t: Table, tenant: Tenant, where_: Where, withDeleted: bool)
    ensures Found(t, tenant, where_, withDeleted) == Found(Owned(t, tenant), tenant, where_, withDeleted)
  {
    MatchingIsOwn(t, tenant, where_);
    assert forall id | id in Owned(t, tenant) :: Owned(t, tenant)[id] == t[id];
  }

  /** Reads and counts see the caller's own rows and nothing else. */
  lemma AnswersAreOwn(t: Table, op: Op)
    requires !TakesOver(t, op)
    ensures AnswerTo(t, op) == AnswerTo(Owned(t, op.tenant), op)
    ensures op.Find? ==> AnswerTo(t, op).rows.Keys == OwnWanted(t, op.tenant, op.where_, op.withDeleted)
  {
    if op.Find? {
      FindsOwn(t, op.tenant, op.where_, op.withDeleted);
      FoundIsOwnWanted(t, op.tenant, op.where_, op.withDeleted);
    } else if !op.Save? {
      MatchingIsOwn(t, op.tenant, Target(op));
    }
  }

  lemma TouchOwned(t: Table, tenant: Tenant, ids: set<Id>, change: Row -> Row)
    requires forall r: Row :: change(r).tenantId == r.tenantId
    ensures Owned(Touched(t, ids, change), tenant) == Touched(Owned(t, tenant), ids, change)
    ensures (forall id | id in ids && id in t :: t[id].tenantId != tenant) ==>
      Owned(Touched(t, ids, change), tenant) == Owned(t, tenant)
  {
  }

  lemma SaveOwned(t: Table, op: Op, tenant: Tenant)
    requires op.Save? && !TakesOver(t, op)
    ensures Owned(Apply(t, op), tenant) == if op.tenant == tenant then Apply(Owned(t, tenant), op) else Owned(t, tenant)
  {
    var id, row := SavedId(op), SavedRow(t, op);
    assert Apply(t, op) == t[id := row];
    if op.tenant == tenant {
      assert SavedRow(Owned(t, tenant), op) == row;
    }
  }

  lemma ApplyToOwned(t: Table, op: Op, tenant: Tenant)
    requires !TakesOver(t, op)
    ensures Owned(Apply(t, op), tenant) == if op.tenant == tenant then Apply(Owned(t, tenant), op) else Owned(t, tenant)
  {
    if op.Save? {
      SaveOwned(t, op, tenant);
    } else if !op.Find? {
      MatchingIsOwn(t, op.tenant, Target(op));
      TouchOwned(t, tenant, Matching(t, op.tenant, Target(op)), Change(op));
    }
  }

  // ----- what a write sets

  lemma MatchingIsOwnWanted(t: Table, tenant: Tenant, where_: Where)
    ensures Matching(t, tenant, where_) == OwnWanted(t, tenant, where_, true)
  {
    FoundIsOwnWanted(t, tenant, where_, true);
    assert Found(t, tenant, where_, true).Keys == Matching(t, tenant, where_);
  }

  lemma UpdatedRow(t: Table, op: Op, id: Id)
    requires op.Update? && id in t
    ensures Apply(t, op).Keys == t.Keys
    ensures Apply(t, op)[id] == if id in OwnWanted(t, op.tenant, op.where_, true) then Change(op)(t[id]) else t[id]
    ensures AnswerTo(t, op) == Affected(|OwnWanted(t, op.tenant, op.where_, true)|)
  {
    MatchingIsOwnWanted(t, op.tenant, op.where_);
  }

  lemma ChangedCell(r: Row, op: Op, column: string)
    requires op.Update?
    ensures Cell(Change(op)(r), column)
         == if column == "updatedAt" then Number(op.now)
            else if column in op.values && column !in MANAGED_COLUMNS then op.values[column]
            else Cell(r, column)
  {
    StrippedUpdate(r, op.values, column);
  }

  /** An update sets each column it names, but for the managed ones, on exactly the tenant's rows that
      are wanted, and nothing else but the update time; its answer is the number of those rows. */
  lemma UpdateSets(t: Table, op: Op, id: Id, column: string)
    requires op.Update? && id in t
    ensures Apply(t, op).Keys == t.Keys && AnswerTo(t, op) == Affected(|OwnWanted(t, op.tenant, op.where_, true)|)
    ensures Cell(Apply(t, op)[id], column)
         == if t[id].tenantId != op.tenant || !Wanted(t[id], op.where_) then Cell(t[id], column)
            else if column == "updatedAt" then Number(op.now)
            else if column in op.values && column !in MANAGED_COLUMNS then op.values[column]
            else Cell(t[id], column)
  {
    UpdatedRow(t, op, id);
    ChangedCell(t[id], op, column);
  }

  /** A save leaves every other row; its own has each column the entity names, and otherwise what the
      row had, or nothing. */
  lemma SaveSets(t: Table, op: Op, column: string)
    requires op.Save?
    ensures
      var e, id := op.entity, if op.entity.id.Some? then op.entity.id.value else op.newId;
      var after := Apply(t, op);
      && after.Keys == t.Keys + {id} && (forall other | other in t && other != id :: after[other] == t[other])
      && AnswerTo(t, op) == Saved(after[id])
      && after[id].id == id && after[id].tenantId == op.tenant
      && after[id].createdAt == (if e.createdAt.Some? then e.createdAt.value
                                 else if id in t then t[id].createdAt else op.now)
      && after[id].updatedAt == (if e.updatedAt.Some? then e.updatedAt.value else op.now)
      && after[id].deletedAt == (if e.deletedAt.Some? then e.deletedAt.value
                                 else if id in t then t[id].deletedAt else None)
      && (column !in MANAGED_COLUMNS ==>
            Cell(after[id], column) == if column in e.columns then e.columns[column]
                                       else if id in t then Cell(t[id], column) else Null)
  {
  }

  // ----- soft deletion

  lemma MatchingById(t: Table, tenant: Tenant, id: Id)
    requires Keyed(t)
    ensures Matching(t, tenant, ById(id)) == if id in t && t[id].tenantId == tenant then {id} else {}
  {
    var clause := ById(id).clause;
    assert clause - {"tenantId"} == clause;
    forall other | other in t
      ensures SatisfiesAny(t[other], ScopeWhereToTenant(tenant, ById(id)))
         <==> t[other].tenantId == tenant && other == id
    {
      ScopeMeaning(t[other], tenant, ById(id));
      assert clause["id"](Cell(t[other], "id")) <==> other == id;
    }
  }

  lemma TouchOne(t: Table, id: Id, change: Row -> Row)
    ensures Touched(t, {}, change) == t
    ensures id in t ==> Touched(t, {id}, change) == t[id := change(t[id])]
  {
  }

  lemma TouchById(t: Table, op: Op, id: Id)
    requires Keyed(t) && !op.Save? && !op.Find? && Target(op) == ById(id)
    ensures Apply(t, op) == if id in t && t[id].tenantId == op.tenant then t[id := Change(op)(t[id])] else t
  {
    MatchingById(t, op.tenant, id);
    TouchOne(t, id, Change(op));
    assert Apply(t, op) == Touched(t, Matching(t, op.tenant, ById(id)), Change(op));
  }

  lemma HiddenWhenDeleted(t: Table, id: Id, owner: Tenant, where_: Where)
    requires id in t && t[id].deletedAt.Some?
    ensures id !in Found(t, owner, where_, false)
  {
  }

  lemma FoundWithDeleted(t: Table, tenant: Tenant, id: Id)
    requires Keyed(t) && id in t && t[id].tenantId == tenant
    ensures id in Found(t, tenant, ById(id), true)
  {
    MatchingById(t, tenant, id);
  }

  lemma DeletedRow(t: Table, tenant: Tenant, id: Id, now: Instant)
    requires Keyed(t) && id in t && t[id].tenantId == tenant
    ensures Apply(t, SoftDelete(tenant, id, now)) == t[id := t[id].(deletedAt := Some(now), updatedAt := now)]
  {
    TouchById(t, SoftDelete(tenant, id, now), id);
  }

  lemma RestoredRow(t: Table, tenant: Tenant, id: Id, now: Instant)
    requires Keyed(t) && id in t && t[id].tenantId == tenant
    ensures Apply(t, Restore(tenant, id, now)) == t[id := t[id].(deletedAt := None, updatedAt := now)]
  {
    TouchById(t, Restore(tenant, id, now), id);
  }

  /** A soft-deleted row answers no default find of anybody, and is still there for its owner's
      find with deleted rows. */
  lemma SoftDeleteHides(t: Table, tenant: Tenant, id: Id, now: Instant, owner: Tenant, where_: Where)
    requires Keyed(t) && id in t && t[id].tenantId == tenant
    ensures id !in Found(Apply(t, SoftDelete(tenant, id, now)), owner, where_, false)
    ensures id in Found(Apply(t, SoftDelete(tenant, id, now)), tenant, ById(id), true)
  {
    DeletedRow(t, tenant, id, now);
    var gone := t[id := t[id].(deletedAt := Some(now), updatedAt := now)];
    HiddenWhenDeleted(gone, id, owner, where_);
    FoundWithDeleted(gone, tenant, id);
  }

  /** A restore brings the row back as it was. */
  lemma RestoreUndoes(t: Table, tenant: Tenant, id: Id, now: Instant, later: Instant)
    requires Keyed(t) && id in t && t[id].tenantId == tenant
    ensures Apply(Apply(t, SoftDelete(tenant, id, now)), Restore(tenant, id, later))
         == t[id := t[id].(deletedAt := None, updatedAt := later)]
  {
    DeletedRow(t, tenant, id, now);
    var gone := t[id := t[id].(deletedAt := Some(now), updatedAt := now)];
    RestoredRow(gone, tenant, id, later);
    assert gone[id].(deletedAt := None, updatedAt := later) == t[id].(deletedAt := None, updatedAt := later);
  }

  /** A call by id on a missing row and one on another tenant's row are alike: neither does
      anything, and both count zero. */
  lemma NotYoursIsNotFound(t: Table, op: Op, id: Id)
    requires Keyed(t) && !op.Save? && !op.Find? && Target(op) == ById(id)
    ensures AnswerTo(t, op) == Affected(0) <==> id !in t || t[id].tenantId != op.tenant
    ensures AnswerTo(t, op) == Affected(0) ==> Apply(t, op) == t
  {
    MatchingById(t, op.tenant, id);
    TouchById(t, op, id);
  }

  // ----- whole runs

  ghost predicate NoTakeOver(t: Table, ops: seq<Op>)
    decreases |ops|
  {
    ops == [] || (!TakesOver(t, ops[0]) && NoTakeOver(Apply(t, ops[0]), ops[1..]))
  }

  /** The calls a tenant made itself. */
  function Own(ops: seq<Op>, tenant: Tenant): seq<Op> {
    if ops == [] then []
    else (if ops[0].tenant == tenant then [ops[0]] else []) + Own(ops[1..], tenant)
  }

  /** Isolation: over any run, what a tenant owns is what it would own had it been alone on the
      table and made only its own calls. */
  lemma {:induction false} TenantIsAlone(t: Table, ops: seq<Op>, tenant: Tenant)
    requires NoTakeOver(t, ops)
    ensures Owned(After(t, ops), tenant) == After(Owned(t, tenant), Own(ops, tenant))
    decreases |ops|
  {
    if ops != [] {
      ApplyToOwned(t, ops[0], tenant);
      TenantIsAlone(Apply(t, ops[0]), ops[1..], tenant);
      if ops[0].tenant == tenant {
        assert Own(ops, tenant) == [ops[0]] + Own(ops[1..], tenant);
        assert ([ops[0]] + Own(ops[1..], tenant))[1..] == Own(ops[1..], tenant);
      } else {
        assert Own(ops, tenant) == Own(ops[1..], tenant);
      }
    }
  }

  /** And what it is told is what it would have been told. */
  lemma {:induction false} AnswersAlone(t: Table, ops: seq<Op>, op: Op)
    requires NoTakeOver(t, ops) && !TakesOver(After(t, ops), op)
    ensures AnswerTo(After(t, ops), op) == AnswerTo(After(Owned(t, op.tenant), Own(ops, op.tenant)), op)
  {
    AnswersAreOwn(After(t, ops), op);
    TenantIsAlone(t, ops, op.tenant);
  }

  /** No row ever changes owner or disappears. */
  lemma {:induction false} OwnersStay(t: Table, ops: seq<Op>, id: Id)
    requires NoTakeOver(t, ops) && id in t
    ensures id in After(t, ops) && After(t, ops)[id].tenantId == t[id].tenantId
    decreases |ops|
  {
    if ops != [] {
      OwnersStay(Apply(t, ops[0]), ops[1..], id);
    }
  }

  /** One save is enough to take a row over. */
  lemma SaveTakesRowOver(owner: Tenant, other: Tenant, row: Row)
    requires owner != other && row.tenantId == owner
    ensures
      var op := Save(other, Entity(Some(row.id), None, None, None, None, map[]), 0, 0);
      && TakesOver(map[row.id := row], op)
      && Owned(Apply(map[row.id := row], op), owner) == map[]
      && row.id in Owned(Apply(map[row.id := row], op), other)
  {
  }
}
