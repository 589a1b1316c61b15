/**
 Bounding a generated query: one row more than the limit is asked for, and what
 comes back is compared with what the query as written would have returned.
 */
module RowLimit {
  import opened Wrappers

  /** A LIMIT as the code reads it; `Opaque` is an expression, a parameter or FETCH, with the value the database gives it. */
  datatype Limit = Absent | IntLiteral(n: nat) | Opaque(value: Option<nat>)

  datatype Validation = Valid | Rejected(errorType: string)

  datatype Query = Query(limit: Limit, validation: Validation)

  datatype Settings = Settings(defaultRows: nat, ceiling: nat)

  /** What loading the settings has already checked. */
  predicate Checked(s: Settings) {
    1 <= s.defaultRows <= s.ceiling
  }

  datatype Bound = Bound(effective: nat, serverCapped: bool)

  datatype ExecuteError = Invalid(errorType: string) | Refused(errorType: string)

  datatype QueryResult<R> = QueryResult(rows: seq<R>, truncated: bool, rowLimit: nat)

  datatype AuditOutcome = AuditRejected | AuditError | AuditSuccess(rowCount: nat, truncated: bool) | AuditExplained

  /** What the database holds for the query without its LIMIT, or the error it raises. */
  datatype Database<R> = Rows(base: seq<R>) | Fails(errorType: string)

  // ----- the code -----

  /** Never trust the caller: at least one row, at most the ceiling. */
  function ClampRows(s: Settings, requested: Option<int>): int {
    match requested
    case None => s.defaultRows
    case Some(n) =>
      var capped := if n < s.ceiling then n else s.ceiling;
      if capped > 1 then capped else 1
  }

  function ExistingLimit(limit: Limit): Option<nat> {
    if limit.IntLiteral? then Some(limit.n) else None
  }

  /** The smaller of the two limits wins; `serverCapped` says whose it was. */
  function ApplyRowLimit(limit: Limit, maxRows: nat): Bound {
    match ExistingLimit(limit)
    case None => Bound(maxRows, true)
    case Some(n) => Bound(if n < maxRows then n else maxRows, n > maxRows)
  }

  function Prefix<R>(rows: seq<R>, n: nat): seq<R> {
    if n <= |rows| then rows[..n] else rows
  }

  class SQLExecutor {
    const settings: Settings
    var audit: seq<AuditOutcome>

    constructor (settings: Settings)
      ensures this.settings == settings && audit == []
    {
      this.settings, audit := settings, [];
    }

    /** Validate, bound, run, and record exactly once. */
    method Execute<R>(q: Query, requested: Option<int>, db: Database<R>)
      returns (r: Result<QueryResult<R>, ExecuteError>)
      requires Checked(settings)
      modifies this
      ensures r == Executed(q, ClampRows(settings, requested), db)
      ensures audit == old(audit) + [AuditOf(r)]
    {
      var limit := ClampRows(settings, requested);
      if q.validation.Rejected? {
        audit := audit + [AuditRejected];
        return Err(Invalid(q.validation.errorType));
      }
      var bound := ApplyRowLimit(q.limit, limit);
      if db.Fails? {
        audit := audit + [AuditError];
        return Err(Refused(db.errorType));
      }
      var fetched := Prefix(db.base, bound.effective + 1);
      var overflowed := |fetched| > bound.effective;
      var rows := Prefix(fetched, bound.effective);
      var truncated := overflowed && bound.serverCapped;
      audit := audit + [AuditSuccess(|rows|, truncated)];
      return Ok(QueryResult(rows, truncated, bound.effective));
    }

    /** Validate without running; recorded as well. */
    method Explain(q: Query) returns (r: Result<(), ExecuteError>)
      modifies this
      ensures r == Explained(q)
      ensures audit == old(audit) + [if r.Ok? then AuditExplained else AuditRejected]
    {
      if q.validation.Rejected? {
        audit := audit + [AuditRejected];
        return Err(Invalid(q.validation.errorType));
      }
      audit := audit + [AuditExplained];
      return Ok(());
    }
  }

  function Explained(q: Query): Result<(), ExecuteError> {
    if q.validation.Rejected? then Err(Invalid(q.validation.errorType)) else Ok(())
  }

  /** Explaining refuses exactly what executing would refuse before reaching the database, for the same reason. */
  lemma ExplainPredictsExecute<R>(q: Query, maxRows: nat, db: Database<R>)
    ensures Explained(q).Err? <==> Executed(q, maxRows, db).Err? && Executed(q, maxRows, db).error.Invalid?
    ensures Explained(q).Err? ==> Executed(q, maxRows, db) == Err(Explained(q).error)
  {
  }

  function Executed<R>(q: Query, maxRows: nat, db: Database<R>): Result<QueryResult<R>, ExecuteError> {
    if q.validation.Rejected? then Err(Invalid(q.validation.errorType))
    else if db.Fails? then Err(Refused(db.errorType))
    else Ok(Bounded(q.limit, maxRows, db.base))
  }

  function Bounded<R>(limit: Limit, maxRows: nat, base: seq<R>): QueryResult<R> {
    var bound := ApplyRowLimit(limit, maxRows);
    var fetched := Prefix(base, bound.effective + 1);
    QueryResult(Prefix(fetched, bound.effective), |fetched| > bound.effective && bound.serverCapped, bound.effective)
  }

  function AuditOf<R>(r: Result<QueryResult<R>, ExecuteError>): AuditOutcome {
    match r
    case Ok(result) => AuditSuccess(|result.rows|, result.truncated)
    case Err(Invalid(_)) => AuditRejected
    case Err(Refused(_)) => AuditError
  }

  // ----- what the caller is owed -----

  /** The result of the query exactly as it was written. */
  function AsWritten<R>(limit: Limit, base: seq<R>): seq<R> {
    match limit
    case Absent => base
    case IntLiteral(n) => Prefix(base, n)
    case Opaque(None) => base
    case Opaque(Some(n)) => Prefix(base, n)
  }

  /** The first `maxRows` rows of the result as written, flagged exactly when there were more. */
  predicate Exact<R(==)>(r: QueryResult<R>, written: seq<R>, maxRows: nat) {
    r.rows == Prefix(written, maxRows) && (r.truncated <==> |written| > maxRows)
  }

  function Distance(a: int, b: int): nat {
    if a < b then b - a else a - b
  }

  /** A caller gets the nearest limit to the one asked for, or the default, and never one above the ceiling. */
  lemma ClampStaysInRange(s: Settings, requested: Option<int>)
    requires Checked(s)
    ensures 1 <= ClampRows(s, requested) <= s.ceiling
    ensures requested.Some? && 1 <= requested.value <= s.ceiling ==> ClampRows(s, requested) == requested.value
    ensures requested.None? ==> ClampRows(s, requested) == s.defaultRows
    ensures requested.Some? ==> forall n :: 1 <= n <= s.ceiling ==>
              Distance(ClampRows(s, requested), requested.value) <= Distance(n, requested.value)
  {
  }

  /** The error names the stage that refused: the validator before the database, and rows only when neither did. */
  lemma ExecutedMeans<R>(q: Query, maxRows: nat, db: Database<R>)
    ensures Executed(q, maxRows, db).Ok? <==> q.validation.Valid? && db.Rows?
    ensures Executed(q, maxRows, db).Ok? ==>
              && var r := Executed(q, maxRows, db).value;
              && r.rows <= db.base
              && AuditOf(Executed(q, maxRows, db)) == AuditSuccess(|r.rows|, r.truncated)
              && (r.truncated ==> |r.rows| == maxRows < |db.base|)
    ensures Executed(q, maxRows, db).Err? ==>
              if q.validation.Rejected?
              then Executed(q, maxRows, db).error == Invalid(q.validation.errorType)
              else db.Fails? && Executed(q, maxRows, db).error == Refused(db.errorType)
    ensures AuditOf(Executed(q, maxRows, db)) == AuditRejected <==> q.validation.Rejected?
    ensures AuditOf(Executed(q, maxRows, db)) == AuditError <==> q.validation.Valid? && db.Fails?
  {
  }

  /**
   With no LIMIT or an integer literal the result is always exact, although the rewritten query
   asks for one row more; with any other LIMIT it is exact when that LIMIT does not cut at or
   below the server's own limit, and never otherwise.
   */
  lemma BoundedIsExactIff<R>(limit: Limit, maxRows: nat, base: seq<R>)
    ensures Exact(Bounded(limit, maxRows, base), AsWritten(limit, base), maxRows) <==>
            (limit.Opaque? && limit.value.Some? ==> limit.value.value > maxRows || limit.value.value >= |base|)
  {
    var written, r := AsWritten(limit, base), Bounded(limit, maxRows, base);
    PrefixTwice(base, r.rowLimit + 1, r.rowLimit);
    if limit.IntLiteral? {
      PrefixTwice(base, limit.n, maxRows);
    } else if limit.Opaque? && limit.value.Some? {
      PrefixTwice(base, limit.value.value, maxRows);
    }
  }

  lemma PrefixTwice<R>(s: seq<R>, n: nat, k: nat)
    ensures Prefix(Prefix(s, n), k) == Prefix(s, if k < n then k else n)
  {
  }

  /** However many rows the database has, no more than the limit comes back. */
  lemma NeverMoreThanLimit<R>(limit: Limit, maxRows: nat, base: seq<R>)
    ensures |Bounded(limit, maxRows, base).rows| <= Bounded(limit, maxRows, base).rowLimit <= maxRows
    ensures Bounded(limit, maxRows, base).rows <= base
    ensures var r := Bounded(limit, maxRows, base);
            && (|r.rows| < r.rowLimit ==> r.rows == base)
            && (r.rowLimit < maxRows ==> limit == IntLiteral(r.rowLimit))
            && (r.rowLimit == maxRows && limit.IntLiteral? ==> limit.n >= maxRows)
  {
  }

  /** `LIMIT 1 + 1` comes back as the whole table, and is not even marked as cut. */
  lemma ComputedLimitIsIgnored()
    ensures var r := Bounded(Opaque(Some(2)), 10, [1, 2, 3]);
            r.rows == [1, 2, 3] && AsWritten(Opaque(Some(2)), [1, 2, 3]) == [1, 2]
  {
  }
}
