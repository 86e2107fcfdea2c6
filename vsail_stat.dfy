/**
 * The query building of the bus statistics service: the date-range parameters, the group-id
 * expansion and group-by suffix of the report queries, the binding of named parameters, and the
 * SQL text of the last-sensor-readings query. Running the queries is not modelled.
 */
module VsailStat {
  import opened Wrappers
  import opened JavaText

  /** A calendar date as its year, month (1-12) and day of month. */
  datatype Date = Date(year: int, month: int, day: int)

  /** The value bound to a named query parameter. */
  datatype ParamValue =
    | IntValue(n: int)            // a date component
    | IdList(ids: seq<int>)       // the list of group ids
    | Between(lo: int, hi: int)   // a two-element [start, end] array

  /** The start date used when none is given: LocalDate.ofYearDay(1970, 1). */
  const Epoch := Date(1970, 1, 1)

  /** The names under which processDate puts the date components. */
  const StartYear := "startYear"
  const StartMonth := "startMonth"
  const StartDay := "startDay"
  const EndYear := "endYear"
  const EndMonth := "endMonth"
  const EndDay := "endDay"

  /** The six parameter names that processDate fills. */
  const DateKeys: set<string> := {StartYear, StartMonth, StartDay, EndYear, EndMonth, EndDay}

  /** The names under which processParams puts the [start, end] pairs. */
  const YearBetween := "year_between"
  const MonthBetween := "month_between"
  const DayBetween := "day_between"

  /** The three parameter names that processParams fills. */
  const BetweenKeys: set<string> := {YearBetween, MonthBetween, DayBetween}

  /** The parameter name of the group-id list. */
  const GroupIdsKey := "groupIds"

  /** The condition appended to a report query when a root group is given. */
  const GroupIdsClause := " and group_Id in (:groupIds)"

  /** The date columns every report groups by, after any requested column. */
  const DateColumns := "log_year, log_month, log_day"

  /**
   * processDate: the year, month and day of the start date (1970-01-01 when absent) and of the
   * end date (today when absent), under six names. `today` is LocalDate.now().
   */
  function ProcessDate(startDay: Option<Date>, endDay: Option<Date>, today: Date): (m: map<string, ParamValue>)
    ensures m.Keys == DateKeys
    ensures startDay.None? ==>
      m[StartYear] == IntValue(1970) && m[StartMonth] == IntValue(1) && m[StartDay] == IntValue(1)
    ensures startDay.Some? ==>
      m[StartYear] == IntValue(startDay.value.year) && m[StartMonth] == IntValue(startDay.value.month)
      && m[StartDay] == IntValue(startDay.value.day)
    ensures endDay.None? ==>
      m[EndYear] == IntValue(today.year) && m[EndMonth] == IntValue(today.month)
      && m[EndDay] == IntValue(today.day)
    ensures endDay.Some? ==>
      m[EndYear] == IntValue(endDay.value.year) && m[EndMonth] == IntValue(endDay.value.month)
      && m[EndDay] == IntValue(endDay.value.day)
  {
    var s := startDay.GetOr(Epoch);
    var e := endDay.GetOr(today);
    map[StartYear := IntValue(s.year), StartMonth := IntValue(s.month), StartDay := IntValue(s.day),
        EndYear := IntValue(e.year), EndMonth := IntValue(e.month), EndDay := IntValue(e.day)]
  }

  /**
   * processParams: for year, month and day, the pair [start component, end component], with the
   * same defaults as processDate.
   */
  function ProcessParams(startDay: Option<Date>, endDay: Option<Date>, today: Date): (m: map<string, ParamValue>)
    ensures m.Keys == BetweenKeys
    ensures forall k :: k in m ==> m[k].Between?
    ensures startDay.None? ==>
      m[YearBetween].lo == 1970 && m[MonthBetween].lo == 1 && m[DayBetween].lo == 1
    ensures endDay.None? ==>
      m[YearBetween].hi == today.year && m[MonthBetween].hi == today.month && m[DayBetween].hi == today.day
  {
    var s := startDay.GetOr(Epoch);
    var e := endDay.GetOr(today);
    map[YearBetween := Between(s.year, e.year), MonthBetween := Between(s.month, e.month),
        DayBetween := Between(s.day, e.day)]
  }

  /** processParams pairs up exactly the start and end components that processDate lists. */
  lemma ParamsPairDateComponents(startDay: Option<Date>, endDay: Option<Date>, today: Date)
    ensures var d := ProcessDate(startDay, endDay, today);
      var p := ProcessParams(startDay, endDay, today);
      p[YearBetween] == Between(d[StartYear].n, d[EndYear].n)
      && p[MonthBetween] == Between(d[StartMonth].n, d[EndMonth].n)
      && p[DayBetween] == Between(d[StartDay].n, d[EndDay].n)
  {
  }

  /** The keyword that starts the group-by suffix. */
  const GroupByKeyword := " group by "

  /** The comma that follows a requested group-by column. */
  const Comma := ","

  /**
   * The group-by suffix: the keyword, then the requested column and a comma when it has text,
   * then the date columns.
   */
  function GroupBySuffix(groupBy: Option<string>): (r: string)
    ensures GroupByKeyword <= r
    ensures HasText(groupBy) ==> GroupByKeyword + groupBy.value + Comma <= r
  {
    GroupByKeyword + (if HasText(groupBy) then groupBy.value + Comma else []) + DateColumns
  }

  /** `x` occurs somewhere in `s`. */
  ghost predicate Contains(s: string, x: string) {
    exists p :: Occurs(s, x, p)
  }

  /** A string holds whatever its start holds. */
  lemma ContainsLeft(a: string, b: string, x: string)
    requires Contains(a, x)
    ensures Contains(a + b, x)
  {
    var p :| Occurs(a, x, p);
    assert (a + b)[p..p + |x|] == a[p..p + |x|];
    assert Occurs(a + b, x, p);
  }

  /** A string holds whatever its end holds. */
  lemma ContainsRight(a: string, b: string, x: string)
    requires Contains(b, x)
    ensures Contains(a + b, x)
  {
    var p :| Occurs(b, x, p);
    assert (a + b)[|a| + p..|a| + p + |x|] == b[p..p + |x|];
    assert Occurs(a + b, x, |a| + p);
  }

  /** A string holds itself. */
  lemma ContainsSelf(x: string)
    ensures Contains(x, x)
  {
    assert x[0..|x|] == x;
    assert Occurs(x, x, 0);
  }

  /** Holding a string that holds `x` means holding `x`. */
  lemma ContainsTransitive(a: string, b: string, x: string)
    requires Contains(a, b) && Contains(b, x)
    ensures Contains(a, x)
  {
    var p :| Occurs(a, b, p);
    var q :| Occurs(b, x, q);
    forall k | q <= k < q + |x| ensures a[p + k] == b[k] {
      assert a[p..p + |b|][k] == a[p + k];
    }
    assert a[p + q..p + q + |x|] == b[q..q + |x|];
    assert Occurs(a, x, p + q);
  }

  /**
   * Every report groups by the date columns, placed last; it also groups by the requested
   * column, followed by a comma, exactly when that column has text.
   */
  lemma GroupBySuffixColumns(groupBy: Option<string>)
    ensures var r := GroupBySuffix(groupBy);
      GroupByKeyword <= r && |DateColumns| <= |r| && r[|r| - |DateColumns|..] == DateColumns
    ensures HasText(groupBy) ==> Contains(GroupBySuffix(groupBy), groupBy.value + Comma)
    ensures !HasText(groupBy) ==> GroupBySuffix(groupBy) == GroupByKeyword + DateColumns
  {
    var mid := if HasText(groupBy) then groupBy.value + Comma else [];
    var r := GroupBySuffix(groupBy);
    assert r == GroupByKeyword + mid + DateColumns;
    assert r[..|GroupByKeyword|] == GroupByKeyword;
    if HasText(groupBy) {
      ContainsSelf(mid);
      ContainsRight(GroupByKeyword, mid, mid);
      ContainsLeft(GroupByKeyword + mid, DateColumns, mid);
    }
  }

  /** The ids that queryBusStat filters on: the root group, then each child in order. */
  method CollectGroupIds(rootGroupId: int, childIds: seq<int>) returns (groupIds: seq<int>)
    ensures |groupIds| == |childIds| + 1 && groupIds[0] == rootGroupId
    ensures forall i :: 0 <= i < |childIds| ==> groupIds[i + 1] == childIds[i]
  {
    groupIds := [rootGroupId];
    for i := 0 to |childIds|
      invariant groupIds == [rootGroupId] + childIds[..i]
    {
      groupIds := groupIds + [childIds[i]];
    }
  }

  /** Appending three parts one by one is appending their concatenation. */
  lemma AppendThree(a: string, b: string, c: string, d: string)
    ensures a + b + c + d == a + (b + c + d)
  {
  }

  /**
   * queryBusStat up to the native query: with a root group, the group ids (the root, then the
   * ids of its enabled children in order) are bound and filtered on; then the group-by suffix.
   * `childIds` stands for the ids of group.getChildList(ENABLE).
   */
  method QueryBusStat(sql: string, groupBy: Option<string>, rootGroupId: Option<int>, childIds: seq<int>,
                      queryParams: map<string, ParamValue>)
    returns (query: string, params: map<string, ParamValue>)
    ensures query == sql + (if rootGroupId.Some? then GroupIdsClause else []) + GroupBySuffix(groupBy)
    ensures rootGroupId.Some? ==> params == queryParams[GroupIdsKey := IdList([rootGroupId.value] + childIds)]
    ensures rootGroupId.None? ==> params == queryParams
  {
    query := sql;
    params := queryParams;
    if rootGroupId.Some? {
      var groupIds := CollectGroupIds(rootGroupId.value, childIds);
      assert groupIds == [rootGroupId.value] + childIds;
      query := query + GroupIdsClause;
      params := params[GroupIdsKey := IdList(groupIds)];
    }
    ghost var filtered := query;
    ghost var requested := if HasText(groupBy) then groupBy.value + Comma else [];
    query := query + GroupByKeyword;
    if HasText(groupBy) {
      query := query + groupBy.value;
      query := query + Comma;
    }
    assert query == filtered + GroupByKeyword + requested;
    query := query + DateColumns;
    assert query == filtered + GroupBySuffix(groupBy) by {
      AppendThree(filtered, GroupByKeyword, requested, DateColumns);
    }
  }

  /** The five date-range reports of the service. */
  datatype Report =
    | FireCountByBusModel
    | BreakDownCountByBusModel
    | FireCountByGroup
    | BreakDownCountByGroup
    | FireCount

  /** The date-range condition shared by every report. */
  const DateRange := " where log_year>=:startYear and log_year<=:endYear and log_month>=:startMonth and log_month<=:endMonth and log_day>=:startDay and log_day<=:endDay"

  /** The keyword and separator around the first selected column. */
  const SelectKeyword := "select "
  const ColumnSeparator := ", "

  /** The bus-model and route columns that reports group by. */
  const ModelName := "model_name"
  const GroupName := "group_name"

  /** The date columns and the count, from the fire log and from the break-down log. */
  const FireCounts := "log_year, log_month, log_day,count(1) ct from v_bus_fire_log f"
  const BreakDownCounts := "log_year, log_month, log_day ,count(1) ct from v_bus_break_down_log f"

  /** The select statements of the five reports, each ending with the date-range condition. */
  const FireByModelSql := SelectKeyword + ModelName + ColumnSeparator + FireCounts + DateRange
  const BreakDownByModelSql := SelectKeyword + ModelName + ColumnSeparator + BreakDownCounts + DateRange
  const FireByGroupSql := SelectKeyword + GroupName + ColumnSeparator + FireCounts + DateRange
  const BreakDownByGroupSql := SelectKeyword + GroupName + ColumnSeparator + BreakDownCounts + DateRange
  const FireSql := SelectKeyword + FireCounts + DateRange

  /**
   * The select statement a report starts from: it begins with "select " and ends with the
   * date-range condition.
   */
  function ReportSql(report: Report): (r: string)
    ensures SelectKeyword <= r
    ensures |DateRange| < |r| && r[|r| - |DateRange|..] == DateRange
  {
    match report
    case FireCountByBusModel => FireByModelSql
    case BreakDownCountByBusModel => BreakDownByModelSql
    case FireCountByGroup => FireByGroupSql
    case BreakDownCountByGroup => BreakDownByGroupSql
    case FireCount => FireSql
  }

  /**
   * The column a report groups by before the date columns: the bus model or the route, always
   * a column with text; only getFireCount passes null.
   */
  function ReportGroupBy(report: Report): (r: Option<string>)
    ensures r.None? <==> report == FireCount
    ensures r.Some? ==> (r.value == ModelName || r.value == GroupName) && HasText(r)
  {
    match report
    case FireCountByBusModel => Some(ModelName)
    case BreakDownCountByBusModel => Some(ModelName)
    case FireCountByGroup => Some(GroupName)
    case BreakDownCountByGroup => Some(GroupName)
    case FireCount => None
  }

  /** Each grouped report selects first the column it groups by. */
  lemma ReportSelectsGroupedColumn(report: Report)
    requires ReportGroupBy(report).Some?
    ensures SelectKeyword + ReportGroupBy(report).value + ColumnSeparator <= ReportSql(report)
  {
    var head := SelectKeyword + ReportGroupBy(report).value + ColumnSeparator;
    var counts := if report.FireCountByBusModel? || report.FireCountByGroup? then FireCounts else BreakDownCounts;
    assert ReportSql(report) == head + counts + DateRange;
    JoinEnds(head, counts, DateRange);
  }

  /** A concatenation begins with its first part and ends with its last. */
  lemma JoinEnds(a: string, b: string, c: string)
    ensures a <= a + b + c
    ensures (a + b + c)[|a + b + c| - |c|..] == c
  {
    assert (a + b + c)[..|a|] == a;
  }

  /**
   * One report up to the native query: its select statement and group-by column through
   * queryBusStat, with the processDate parameters. The parameters are the six date components,
   * plus the group ids exactly when a root group is given.
   */
  method ReportQuery(report: Report, rootGroupId: Option<int>, childIds: seq<int>,
                     startDay: Option<Date>, endDay: Option<Date>, today: Date)
    returns (query: string, params: map<string, ParamValue>)
    ensures params.Keys == if rootGroupId.Some? then DateKeys + {GroupIdsKey} else DateKeys
    ensures forall k :: k in DateKeys ==> params[k] == ProcessDate(startDay, endDay, today)[k]
    ensures ReportSql(report) <= query
    ensures var suffix := GroupBySuffix(ReportGroupBy(report));
      |suffix| <= |query| && query[|query| - |suffix|..] == suffix
  {
    var sql := ReportSql(report);
    var suffix := GroupBySuffix(ReportGroupBy(report));
    query, params := QueryBusStat(sql, ReportGroupBy(report), rootGroupId, childIds,
                                  ProcessDate(startDay, endDay, today));
    var filter := if rootGroupId.Some? then GroupIdsClause else [];
    JoinEnds(sql, filter, suffix);
  }

  /** A named parameter of a query and the value bound to it (null when the map lacks it). */
  datatype Binding = Binding(name: string, value: Option<ParamValue>)

  /** The message of the IllegalArgumentException for a parameter without a name. */
  const BlankNameMessage := "Query查询语句命名参数不能为空"

  /** HashMap.get: the value under `k`, or null. */
  function Lookup(m: map<string, ParamValue>, k: string): (r: Option<ParamValue>)
    ensures r.Some? <==> k in m
    ensures r.Some? ==> r.value == m[k]
  {
    if k in m then Some(m[k]) else None
  }

  /**
   * setParams: binds every named parameter of the query, in order, to the map's value for its
   * name, whether or not the map has one; a parameter whose name is null or blank makes it
   * throw. `names` stands for the names of query.getParameters().
   */
  method SetParams(queryParams: map<string, ParamValue>, names: seq<Option<string>>)
    returns (r: Result<seq<Binding>>)
    ensures r.Err? <==> exists i :: 0 <= i < |names| && !HasText(names[i])
    ensures r.Err? ==> r.message == BlankNameMessage
    ensures r.Ok? ==> |r.value| == |names|
    ensures r.Ok? ==> forall i :: 0 <= i < |names| ==>
      names[i].Some? && r.value[i] == Binding(names[i].value, Lookup(queryParams, names[i].value))
  {
    var bound: seq<Binding> := [];
    var i := 0;
    while i < |names|
      invariant i <= |names| && |bound| == i
      invariant forall j :: 0 <= j < i ==> HasText(names[j])
      invariant forall j :: 0 <= j < i ==>
        names[j].Some? && bound[j] == Binding(names[j].value, Lookup(queryParams, names[j].value))
    {
      var name := names[i];
      if HasText(name) {
        bound := bound + [Binding(name.value, Lookup(queryParams, name.value))];
      } else {
        return Err(BlankNameMessage);
      }
      i := i + 1;
    }
    r := Ok(bound);
  }

  /** The start of the last-sensor-readings query, up to the per-sensor columns. */
  const SensorHead := "select * from (select vin, upload_time, array_length(sensores,1) ct, bus_data->>'isFire' as isFire,bus_data->>'isError' as isError"

  /** The end of the last-sensor-readings query: the last 10 rows of a vin, oldest first. */
  const SensorTail := " from v_bus_data_log where array_length(sensores,1) is not null  and vin=:vin order by upload_time desc limit 10)b order by upload_time asc"

  /** The number of sensors whose readings getSensor selects. */
  const SensorCount := 6

  /** The name of getSensor's one parameter. */
  const VinKey := "vin"

  /** The readings listed for each sensor, in order. */
  const SensorFields: seq<string> := ["sn", "temp", "concen", "fire", "error", "state"]

  /** One reading `field` of sensor `n`, aliased as the field name followed by `n`. */
  function SensorColumn(field: string, n: string): string {
    SensorIndexOpen + n + SensorIndexClose + field + SensorAlias + field + n
  }

  /** The fixed text around the sensor number and the field name of a sensor column. */
  const SensorIndexOpen := "sensores["
  const SensorIndexClose := "]->>'"
  const SensorAlias := "' as "

  /** The columns of `fields` for sensor `n`, separated by ", ". */
  function SensorColumns(fields: seq<string>, n: string): string
    decreases |fields|
  {
    if fields == [] then []
    else if |fields| == 1 then SensorColumn(fields[0], n)
    else SensorColumn(fields[0], n) + ColumnSeparator + SensorColumns(fields[1..], n)
  }

  /** The columns of sensor `i`: a comma, then its readings `fields`. */
  function SensorBlock(fields: seq<string>, i: nat): string {
    Comma + SensorColumns(fields, Decimal(i))
  }

  /** The columns of sensors 1 to n, in order. */
  function SensorBlocks(fields: seq<string>, n: nat): string
    decreases n
  {
    if n == 0 then [] else SensorBlocks(fields, n - 1) + SensorBlock(fields, n)
  }

  /** Appending the columns of sensor i after those of sensors 1 to i - 1 gives those of 1 to i. */
  lemma BlocksStep(head: string, before: string, fields: seq<string>, i: nat, block: string)
    requires i >= 1 && before == head + SensorBlocks(fields, i - 1) && block == SensorBlock(fields, i)
    ensures before + block == head + SensorBlocks(fields, i)
  {
  }

  /** Each of the fields has its column among the columns of a sensor. */
  lemma {:induction false} ColumnsHoldEveryField(fields: seq<string>, n: string, k: nat)
    requires k < |fields|
    ensures Contains(SensorColumns(fields, n), SensorColumn(fields[k], n))
    decreases |fields|
  {
    var c := SensorColumn(fields[0], n);
    ContainsSelf(c);
    if |fields| > 1 {
      var rest := SensorColumns(fields[1..], n);
      if k == 0 {
        ContainsLeft(c, ColumnSeparator, c);
        ContainsLeft(c + ColumnSeparator, rest, c);
      } else {
        ColumnsHoldEveryField(fields[1..], n, k - 1);
        ContainsRight(c + ColumnSeparator, rest, SensorColumn(fields[k], n));
      }
    }
  }

  /** The columns of every sensor from 1 to n are among the columns of sensors 1 to n. */
  lemma {:induction false} BlocksHoldEverySensor(fields: seq<string>, i: nat, n: nat)
    requires 1 <= i <= n
    ensures Contains(SensorBlocks(fields, n), SensorBlock(fields, i))
    decreases n
  {
    if i == n {
      ContainsSelf(SensorBlock(fields, n));
      ContainsRight(SensorBlocks(fields, n - 1), SensorBlock(fields, n), SensorBlock(fields, n));
    } else {
      BlocksHoldEverySensor(fields, i, n - 1);
      ContainsLeft(SensorBlocks(fields, n - 1), SensorBlock(fields, n), SensorBlock(fields, i));
    }
  }

  /**
   * The loop of getSensor: from `head`, appends the columns of sensors 1 to `count` in order,
   * then `tail`.
   */
  method AppendSensorColumns(head: string, fields: seq<string>, count: nat, tail: string) returns (sql: string)
    ensures sql == head + SensorBlocks(fields, count) + tail
  {
    sql := head;
    for i := 1 to count + 1
      invariant sql == head + SensorBlocks(fields, i - 1)
    {
      var block := SensorBlock(fields, i);
      BlocksStep(head, sql, fields, i, block);
      sql := sql + block;
    }
    sql := sql + tail;
  }

  /**
   * getSensor's SQL text and its one parameter: the head, the columns of sensors 1 to 6 in
   * order, and the tail, with the vin bound to ":vin".
   */
  method SensorQuery(vin: string) returns (sql: string, params: map<string, string>)
    ensures sql == SensorHead + SensorBlocks(SensorFields, 6) + SensorTail
    ensures params == map[VinKey := vin]
  {
    sql := AppendSensorColumns(SensorHead, SensorFields, SensorCount, SensorTail);
    params := map[VinKey := vin];
  }

  /** getSensor's query selects every reading of every sensor from 1 to 6. */
  lemma SensorQueryHoldsEveryColumn(i: nat, k: nat)
    requires 1 <= i <= 6 && k < |SensorFields|
    ensures Contains(SensorHead + SensorBlocks(SensorFields, 6) + SensorTail,
                     SensorColumn(SensorFields[k], Decimal(i)))
  {
    var blocks := SensorBlocks(SensorFields, 6);
    var col := SensorColumn(SensorFields[k], Decimal(i));
    ColumnsHoldEveryField(SensorFields, Decimal(i), k);
    ContainsRight(Comma, SensorColumns(SensorFields, Decimal(i)), col);
    BlocksHoldEverySensor(SensorFields, i, 6);
    ContainsTransitive(blocks, SensorBlock(SensorFields, i), col);
    ContainsRight(SensorHead, blocks, col);
    ContainsLeft(SensorHead + blocks, SensorTail, col);
  }
}
