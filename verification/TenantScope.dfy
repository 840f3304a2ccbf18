/**
 * The where-clause rewrite and the column filter of src/repository/tenant-scope.util.ts.
 */
module TenantScope {
  import opened Wrappers

  type Tenant = nat
  type Id = nat
  type Instant = int

  datatype Datum = Null | Number(n: int) | Text(s: string)

  type Values = map<string, Datum>

  /** `columns` holds what the entity adds to the base columns. */
  datatype Row = Row(id: Id, tenantId: Tenant, createdAt: Instant, updatedAt: Instant, deletedAt: Option<Instant>,
                     columns: Values)

  /** An equality or any operator: what it accepts. */
  type Condition = Datum -> bool

  type Clause = map<string, Condition>

  datatype Where = Absent | One(clause: Clause) | Many(clauses: seq<Clause>)

  function Cell(r: Row, column: string): Datum {
    if column == "id" then Number(r.id)
    else if column == "tenantId" then Number(r.tenantId)
    else if column == "createdAt" then Number(r.createdAt)
    else if column == "updatedAt" then Number(r.updatedAt)
    else if column == "deletedAt" then (if r.deletedAt.None? then Null else Number(r.deletedAt.value))
    else if column in r.columns then r.columns[column] else Null
  }

  /** All conditions of a clause hold. */
  predicate Satisfies(r: Row, clause: Clause) {
    forall column | column in clause :: clause[column](Cell(r, column))
  }

  /** An array of clauses is an OR. */
  predicate SatisfiesAny(r: Row, clauses: seq<Clause>) {
    exists i :: 0 <= i < |clauses| && Satisfies(r, clauses[i])
  }

  // ----- scopeWhereToTenant

  function Scoped(clause: Clause, tenant: Tenant): Clause {
    clause["tenantId" := d => d == Number(tenant)]
  }

  function ScopeWhereToTenant(tenant: Tenant, where_: Where): (scoped: seq<Clause>)
    ensures scoped != []
  {
    var clauses := match where_ case Absent => [map[]] case One(c) => [c] case Many(cs) => cs;
    var effective := if |clauses| > 0 then clauses else [map[]];
    seq(|effective|, i requires 0 <= i < |effective| => Scoped(effective[i], tenant))
  }

  /** What the caller asked for, leaving aside any tenantId of the caller's own. */
  predicate Wanted(r: Row, where_: Where) {
    match where_
    case Absent => true
    case One(c) => Satisfies(r, c - {"tenantId"})
    case Many(cs) => cs == [] || exists i :: 0 <= i < |cs| && Satisfies(r, cs[i] - {"tenantId"})
  }

  lemma ScopedClauseMeaning(r: Row, clause: Clause, tenant: Tenant)
    ensures Satisfies(r, Scoped(clause, tenant)) <==> r.tenantId == tenant && Satisfies(r, clause - {"tenantId"})
  {
    var scoped, rest := Scoped(clause, tenant), clause - {"tenantId"};
    assert scoped["tenantId"](Cell(r, "tenantId")) <==> r.tenantId == tenant;
    assert forall column | column in rest :: column in scoped && scoped[column] == rest[column];
    assert forall column | column in scoped && column != "tenantId" :: column in rest;
  }

  /** A scoped where matches a row exactly when the row is the tenant's and is wanted: in every
      branch of an OR, for no criteria at all, and whatever tenantId the caller wrote. */
  lemma ScopeMeaning(r: Row, tenant: Tenant, where_: Where)
    ensures SatisfiesAny(r, ScopeWhereToTenant(tenant, where_)) <==> r.tenantId == tenant && Wanted(r, where_)
  {
    var scoped := ScopeWhereToTenant(tenant, where_);
    match where_
    case Absent =>
      ScopedClauseMeaning(r, map[], tenant);
      assert scoped == [Scoped(map[], tenant)];
      assert Satisfies(r, scoped[0]) <==> SatisfiesAny(r, scoped);
    case One(c) =>
      ScopedClauseMeaning(r, c, tenant);
      assert scoped == [Scoped(c, tenant)];
      assert Satisfies(r, scoped[0]) <==> SatisfiesAny(r, scoped);
    case Many(cs) =>
      if cs == [] {
        ScopedClauseMeaning(r, map[], tenant);
        assert scoped == [Scoped(map[], tenant)];
        assert Satisfies(r, scoped[0]) <==> SatisfiesAny(r, scoped);
      } else {
        forall i | 0 <= i < |cs|
          ensures Satisfies(r, scoped[i]) <==> r.tenantId == tenant && Satisfies(r, cs[i] - {"tenantId"})
        {
          ScopedClauseMeaning(r, cs[i], tenant);
        }
        if r.tenantId == tenant && Wanted(r, where_) {
          var i :| 0 <= i < |cs| && Satisfies(r, cs[i] - {"tenantId"});
          assert Satisfies(r, scoped[i]);
        }
        if SatisfiesAny(r, scoped) {
          var i :| 0 <= i < |scoped| && Satisfies(r, scoped[i]);
          assert Satisfies(r, cs[i] - {"tenantId"});
        }
      }
  }

  // ----- stripManagedColumns

  const MANAGED_COLUMNS: set<string> := {"id", "tenantId", "createdAt", "updatedAt", "deletedAt"}

  function StripManagedColumns(values: Values): Values {
    values - MANAGED_COLUMNS
  }

  /** An update can set any column but the managed ones, and those not at all. */
  lemma StrippedUpdate(r: Row, values: Values, column: string)
    ensures
      var updated := r.(columns := r.columns + StripManagedColumns(values));
      Cell(updated, column)
      == if column in values && column !in MANAGED_COLUMNS then values[column] else Cell(r, column)
  {
  }
}
