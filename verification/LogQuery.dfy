/** The filtered, keyset-paginated log query: compilation to numbered placeholders, and one page. */
module LogQuery {
  import opened Common
  import opened IntOrder

  /** None stands for the zero time and for an absent bound. */
  datatype Params = Params(host: string, level: string, from: Option<int>, to: Option<int>,
                           q: string, limit: int, cursor: int)

  datatype Row = Row(id: int, time: int, host: string, path: string, level: string, message: string)

  /** The log table: rows under positive unique ids. */
  type Table = t: map<int, Row> | forall id :: id in t ==> id > 0 && t[id].id == id witness map[]

  /** Case-insensitive pattern matching of the database: (text, pattern). */
  type Matcher = (string, string) -> bool

  const DEFAULT_LIMIT := 100
  const MAX_LIMIT := 1000
  const LEVELS := {"info", "warn", "error", "debug"}

  // ----- parameters -----

  class LogQueryParams {
    var value: Params

    constructor (value: Params)
      ensures this.value == value
    {
      this.value := value;
    }

    /** Afterwards the limit lies between 1 and 1000; one that already does is kept. */
    method Validate() returns (ok: bool)
      modifies this
      ensures ok <==> old(value.level) in {"", "info", "warn", "error", "debug"}
      ensures value == old(value).(limit := value.limit)
      ensures 1 <= value.limit <= 1000
      ensures 1 <= old(value.limit) <= 1000 ==> value == old(value)
      ensures old(value.limit) <= 0 ==> value.limit == 100
      ensures old(value.limit) > 1000 ==> value.limit == 1000
    {
      if value.limit <= 0 {
        value := value.(limit := DEFAULT_LIMIT);
      }
      if value.limit > MAX_LIMIT {
        value := value.(limit := MAX_LIMIT);
      }
      if value.level != "" && value.level !in LEVELS {
        return false;
      }
      return true;
    }
  }

  // ----- the compiled query -----

  datatype Column = HostColumn | LevelColumn | TimeColumn | MessageColumn | IdColumn
  datatype Comparison = Equal | AtLeast | AtMost | Below | ILike
  datatype Value = Str(s: string) | Time(t: int) | Num(n: int)

  /** `column comparison $placeholder`; placeholders count from 1. */
  datatype Cond = Cond(column: Column, comparison: Comparison, placeholder: nat)

  /** A conjunction of conditions, newest rows first, and the placeholder of the row limit. */
  datatype Sql = Sql(conds: seq<Cond>, limitPlaceholder: nat)

  predicate Compare(column: Column, comparison: Comparison, v: Value, row: Row, ilike: Matcher) {
    match (column, comparison, v)
    case (HostColumn, Equal, Str(s)) => row.host == s
    case (LevelColumn, Equal, Str(s)) => row.level == s
    case (TimeColumn, AtLeast, Time(t)) => row.time >= t
    case (TimeColumn, AtMost, Time(t)) => row.time <= t
    case (MessageColumn, ILike, Str(s)) => ilike(row.message, s)
    case (IdColumn, Below, Num(n)) => row.id < n
    case _ => false
  }

  /** A condition whose placeholder has no argument, or one of the wrong kind, holds of no row. */
  predicate Holds(c: Cond, args: seq<Value>, row: Row, ilike: Matcher) {
    1 <= c.placeholder <= |args| && Compare(c.column, c.comparison, args[c.placeholder - 1], row, ilike)
  }

  predicate AllHold(conds: seq<Cond>, args: seq<Value>, row: Row, ilike: Matcher) {
    forall i :: 0 <= i < |conds| ==> Holds(conds[i], args, row, ilike)
  }

  // ----- the direct filter -----

  predicate Matches(p: Params, row: Row, ilike: Matcher) {
    && (p.host != "" ==> row.host == p.host)
    && (p.level != "" ==> row.level == p.level)
    && (p.from != None ==> row.time >= p.from.value)
    && (p.to != None ==> row.time <= p.to.value)
    && (p.q != "" ==> ilike(row.message, "%" + p.q + "%"))
  }

  /** A positive cursor bounds the ids from above; any other means the first page. */
  predicate Wanted(p: Params, row: Row, ilike: Matcher) {
    Matches(p, row, ilike) && (p.cursor > 0 ==> row.id < p.cursor)
  }

  /** A filter before it is numbered. */
  datatype Filter = Filter(column: Column, comparison: Comparison, value: Value)

  class Builder {
    var conds: seq<Cond>
    var args: seq<Value>
    var n: nat
    ghost var filters: seq<Filter>

    ghost predicate Valid()
      reads this
    {
      && |conds| == |args| == n == |filters|
      && (forall i :: 0 <= i < n ==> conds[i] == Cond(filters[i].column, filters[i].comparison, i + 1))
      && (forall i :: 0 <= i < n ==> args[i] == filters[i].value)
    }

    constructor ()
      ensures Valid() && filters == []
    {
      conds, args, n, filters := [], [], 0, [];
    }

    method Add(column: Column, comparison: Comparison, value: Value)
      requires Valid()
      modifies this
      ensures Valid() && filters == old(filters) + [Filter(column, comparison, value)]
    {
      n := n + 1;
      conds := conds + [Cond(column, comparison, n)];
      args := args + [value];
      filters := filters + [Filter(column, comparison, value)];
    }
  }

  /** `args` and the placeholders of `sql` fit together, and it selects exactly the wanted rows. */
  ghost predicate CompiledFor(p: Params, sql: Sql, args: seq<Value>) {
    && |args| == |sql.conds| + 1
    && (forall i :: 0 <= i < |sql.conds| ==> sql.conds[i].placeholder == i + 1)
    && sql.limitPlaceholder == |args|
    && args[sql.limitPlaceholder - 1] == Num(p.limit + 1)
    && (forall row, ilike :: AllHold(sql.conds, args, row, ilike) <==> Wanted(p, row, ilike))
  }

  function If<T>(b: bool, x: T): seq<T> {
    if b then [x] else []
  }

  /** The filters that a query's parameters ask for, built up in the order of the source. */
  function HostFilters(p: Params): seq<Filter> {
    If(p.host != "", Filter(HostColumn, Equal, Str(p.host)))
  }

  function LevelFilters(p: Params): seq<Filter> {
    HostFilters(p) + If(p.level != "", Filter(LevelColumn, Equal, Str(p.level)))
  }

  function FromFilters(p: Params): seq<Filter> {
    LevelFilters(p) + if p.from == None then [] else [Filter(TimeColumn, AtLeast, Time(p.from.value))]
  }

  function ToFilters(p: Params): seq<Filter> {
    FromFilters(p) + if p.to == None then [] else [Filter(TimeColumn, AtMost, Time(p.to.value))]
  }

  function TextFilters(p: Params): seq<Filter> {
    ToFilters(p) + If(p.q != "", Filter(MessageColumn, ILike, Str("%" + p.q + "%")))
  }

  function Filters(p: Params): seq<Filter> {
    TextFilters(p) + If(p.cursor > 0, Filter(IdColumn, Below, Num(p.cursor)))
  }

  predicate Passes(f: Filter, row: Row, ilike: Matcher) {
    Compare(f.column, f.comparison, f.value, row, ilike)
  }

  ghost predicate AllPass(filters: seq<Filter>, row: Row, ilike: Matcher) {
    forall i :: 0 <= i < |filters| ==> Passes(filters[i], row, ilike)
  }

  lemma AllPassConcat(a: seq<Filter>, b: seq<Filter>, row: Row, ilike: Matcher)
    ensures AllPass(a + b, row, ilike) <==> AllPass(a, row, ilike) && AllPass(b, row, ilike)
  {
    if AllPass(a + b, row, ilike) {
      assert forall i :: 0 <= i < |a| ==> (a + b)[i] == a[i];
      assert forall i :: 0 <= i < |b| ==> (a + b)[|a| + i] == b[i];
    }
  }

  lemma AllPassIf(b: bool, f: Filter, row: Row, ilike: Matcher)
    ensures AllPass(If(b, f), row, ilike) <==> (b ==> Passes(f, row, ilike))
  {
    assert b ==> If(b, f)[0] == f;
  }

  lemma LevelFiltersMean(p: Params, row: Row, ilike: Matcher)
    ensures AllPass(LevelFilters(p), row, ilike) <==>
            (p.host != "" ==> row.host == p.host) && (p.level != "" ==> row.level == p.level)
  {
    var host, level := Filter(HostColumn, Equal, Str(p.host)), Filter(LevelColumn, Equal, Str(p.level));
    AllPassIf(p.host != "", host, row, ilike);
    AllPassIf(p.level != "", level, row, ilike);
    AllPassConcat(HostFilters(p), If(p.level != "", level), row, ilike);
  }

  lemma ToFiltersMean(p: Params, row: Row, ilike: Matcher)
    ensures AllPass(ToFilters(p), row, ilike) <==>
            && AllPass(LevelFilters(p), row, ilike)
            && (p.from != None ==> row.time >= p.from.value)
            && (p.to != None ==> row.time <= p.to.value)
  {
    var from := if p.from == None then [] else [Filter(TimeColumn, AtLeast, Time(p.from.value))];
    var to := if p.to == None then [] else [Filter(TimeColumn, AtMost, Time(p.to.value))];
    assert p.from != None ==> from[0] == Filter(TimeColumn, AtLeast, Time(p.from.value));
    assert p.to != None ==> to[0] == Filter(TimeColumn, AtMost, Time(p.to.value));
    AllPassConcat(LevelFilters(p), from, row, ilike);
    AllPassConcat(FromFilters(p), to, row, ilike);
  }

  lemma FiltersMean(p: Params, row: Row, ilike: Matcher)
    ensures AllPass(Filters(p), row, ilike) <==> Wanted(p, row, ilike)
  {
    var text, id := Filter(MessageColumn, ILike, Str("%" + p.q + "%")), Filter(IdColumn, Below, Num(p.cursor));
    LevelFiltersMean(p, row, ilike);
    ToFiltersMean(p, row, ilike);
    AllPassIf(p.q != "", text, row, ilike);
    AllPassIf(p.cursor > 0, id, row, ilike);
    AllPassConcat(ToFilters(p), If(p.q != "", text), row, ilike);
    AllPassConcat(TextFilters(p), If(p.cursor > 0, id), row, ilike);
  }

  lemma NumberedMeans(conds: seq<Cond>, args: seq<Value>, filters: seq<Filter>, row: Row, ilike: Matcher)
    requires |conds| == |filters| <= |args|
    requires forall i :: 0 <= i < |conds| ==> conds[i] == Cond(filters[i].column, filters[i].comparison, i + 1)
    requires forall i :: 0 <= i < |conds| ==> args[i] == filters[i].value
    ensures AllHold(conds, args, row, ilike) <==> AllPass(filters, row, ilike)
  {
    assert forall i :: 0 <= i < |conds| ==> (Holds(conds[i], args, row, ilike) <==> Passes(filters[i], row, ilike));
  }

  method AddColumnFilters(b: Builder, p: Params)
    requires b.Valid() && b.filters == []
    modifies b
    ensures b.Valid() && b.filters == LevelFilters(p)
  {
    if p.host != "" {
      b.Add(HostColumn, Equal, Str(p.host));
    }
    if p.level != "" {
      b.Add(LevelColumn, Equal, Str(p.level));
    }
  }

  method AddTimeFilters(b: Builder, p: Params)
    requires b.Valid() && b.filters == LevelFilters(p)
    modifies b
    ensures b.Valid() && b.filters == ToFilters(p)
  {
    if p.from != None {
      b.Add(TimeColumn, AtLeast, Time(p.from.value));
    }
    if p.to != None {
      b.Add(TimeColumn, AtMost, Time(p.to.value));
    }
  }

  method Compile(p: Params) returns (sql: Sql, args: seq<Value>)
    ensures CompiledFor(p, sql, args)
  {
    var b := new Builder();
    AddColumnFilters(b, p);
    AddTimeFilters(b, p);
    if p.q != "" {
      b.Add(MessageColumn, ILike, Str("%" + p.q + "%"));
    }
    if p.cursor > 0 {
      b.Add(IdColumn, Below, Num(p.cursor));
    }
    assert b.filters == Filters(p);
    var limitArg := b.n + 1;
    args := b.args + [Num(p.limit + 1)];
    sql := Sql(b.conds, limitArg);
    NumberedCompiles(p, sql, args);
  }

  /** What a compiled query selects, filter by filter: an absent one selects everything. */
  lemma CompiledSelects(p: Params, sql: Sql, args: seq<Value>, row: Row, ilike: Matcher)
    requires CompiledFor(p, sql, args)
    ensures AllHold(sql.conds, args, row, ilike) <==>
            && (p.host == "" || row.host == p.host)
            && (p.level == "" || row.level == p.level)
            && (p.from == None || row.time >= p.from.value)
            && (p.to == None || row.time <= p.to.value)
            && (p.q == "" || ilike(row.message, "%" + p.q + "%"))
            && (p.cursor <= 0 || row.id < p.cursor)
  {
  }

  lemma NumberedCompiles(p: Params, sql: Sql, args: seq<Value>)
    requires |sql.conds| == |Filters(p)|
    requires forall i :: 0 <= i < |sql.conds| ==>
               sql.conds[i] == Cond(Filters(p)[i].column, Filters(p)[i].comparison, i + 1)
    requires |args| == |sql.conds| + 1 == sql.limitPlaceholder
    requires forall i :: 0 <= i < |sql.conds| ==> args[i] == Filters(p)[i].value
    requires args[|sql.conds|] == Num(p.limit + 1)
    ensures CompiledFor(p, sql, args)
  {
    forall row, ilike
      ensures AllHold(sql.conds, args, row, ilike) <==> Wanted(p, row, ilike)
    {
      NumberedMeans(sql.conds, args, Filters(p), row, ilike);
      FiltersMean(p, row, ilike);
    }
  }

  // ----- the database's answer -----

  function WantedIds(t: Table, p: Params, ilike: Matcher): set<int> {
    set id | id in t && Wanted(p, t[id], ilike)
  }

  function RowsOf(t: Table, ids: seq<int>): (rows: seq<Row>)
    requires forall i :: 0 <= i < |ids| ==> ids[i] in t
    ensures |rows| == |ids| && forall i :: 0 <= i < |ids| ==> rows[i] == t[ids[i]]
  {
    seq(|ids|, i requires 0 <= i < |ids| => t[ids[i]])
  }

  function AtMostRows(rows: seq<Row>, n: nat): seq<Row> {
    if |rows| <= n then rows else rows[..n]
  }

  /** All wanted rows, newest first. */
  function AllWanted(t: Table, p: Params, ilike: Matcher): seq<Row> {
    RowsOf(t, Descending(WantedIds(t, p, ilike)))
  }

  /** What the database answers to a compiled query. */
  function Execute(t: Table, sql: Sql, args: seq<Value>, ilike: Matcher): seq<Row>
    requires 1 <= sql.limitPlaceholder <= |args|
    requires args[sql.limitPlaceholder - 1].Num? && args[sql.limitPlaceholder - 1].n >= 0
  {
    var ids := set id | id in t && AllHold(sql.conds, args, t[id], ilike);
    AtMostRows(RowsOf(t, Descending(ids)), args[sql.limitPlaceholder - 1].n)
  }

  // ----- one page -----

  /** The page a caller is owed: the first `limit` wanted rows, and the id to go on below if there are more. */
  function Page(t: Table, p: Params, ilike: Matcher): (seq<Row>, int)
    requires p.limit >= 1
  {
    var all := AllWanted(t, p, ilike);
    if |all| > p.limit then (all[..p.limit], all[p.limit - 1].id) else (all, 0)
  }

  lemma ExecuteMeans(t: Table, p: Params, ilike: Matcher, sql: Sql, args: seq<Value>)
    requires p.limit >= 1 && CompiledFor(p, sql, args)
    ensures Execute(t, sql, args, ilike) == AtMostRows(AllWanted(t, p, ilike), p.limit + 1)
  {
    assert (set id | id in t && AllHold(sql.conds, args, t[id], ilike)) == WantedIds(t, p, ilike);
  }

  datatype Fault = NoFault | QueryFails | ScanFails(at: nat) | IterationFails

  /**
   The query fetches one row more than the limit, and the extra row only decides whether there is a next
   page. The limit is at least 1, which validation and the dashboard's clamp both establish.
   */
  method Query(t: Table, p: Params, ilike: Matcher, fault: Fault) returns (ok: bool, results: seq<Row>, next: int)
    requires p.limit >= 1
    ensures !ok ==> results == [] && next == 0
    ensures ok ==> (results, next) == Page(t, p, ilike)
    ensures ok <==> fault.NoFault? ||
                    (fault.ScanFails? && fault.at >= |AtMostRows(AllWanted(t, p, ilike), p.limit + 1)|)
  {
    hide Execute, AllWanted, AllHold;
    var sql, args := Compile(p);
    if fault == QueryFails {
      return false, [], 0;
    }
    var rows := Execute(t, sql, args, ilike);
    ExecuteMeans(t, p, ilike, sql, args);
    ok, results := Collect(rows, fault);
    if !ok {
      return false, [], 0;
    }
    ProbeMeans(AllWanted(t, p, ilike), p.limit);
    next := 0;
    if |results| > p.limit {
      results := results[..p.limit];
      next := results[p.limit - 1].id;
    }
  }

  /** Reads the database's rows one by one. */
  method Collect(rows: seq<Row>, fault: Fault) returns (ok: bool, results: seq<Row>)
    ensures ok <==> !fault.IterationFails? && (fault.ScanFails? ==> fault.at >= |rows|)
    ensures ok ==> results == rows
  {
    results := [];
    var i := 0;
    while i < |rows|
      invariant 0 <= i <= |rows|
      invariant results == rows[..i]
      invariant fault.ScanFails? ==> fault.at >= i
    {
      if fault == ScanFails(i) {
        return false, [];
      }
      results := results + [rows[i]];
      i := i + 1;
    }
    ok := fault != IterationFails;
  }

  /** One row more than the limit tells whether there are more rows than the limit. */
  lemma ProbeMeans(all: seq<Row>, limit: int)
    requires limit >= 1
    ensures var got := AtMostRows(all, limit + 1);
            && (|got| > limit <==> |all| > limit)
            && (if |got| > limit then got[..limit] == all[..limit] else got == all)
  {
  }
}
