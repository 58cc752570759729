/**
 * The statements src/db/queries.ts builds. `getLocations` appends
 * conditions and bindings step by step and then assembles the SQL text;
 * `insertLocations` binds one statement per record. Running the statements
 * (D1's prepare, bind, batch and all) is not part of this model.
 */
module Queries {
  import opened Wrappers
  import opened JsValues
  import opened Strings
  import opened Types

  /** A value bound to a `?` placeholder. */
  datatype SqlValue = Text(text: string) | Number(num: Num) | Null

  /** A prepared statement with its bindings. */
  datatype Statement = Statement(sql: string, bindings: seq<SqlValue>)

  // ---------------------------------------------------------------- getLocations

  /** One filter of `getLocations`, with the values it binds. */
  datatype Condition =
    | DeviceIs(deviceId: string)
    | RecordedFrom(from: string)
    | RecordedTo(to: string)
    | LonRange(swLon: Num, neLon: Num)
    | LatRange(swLat: Num, neLat: Num)

  /** The placeholder; SQL texts below are spelled around it so that their placeholders can be counted. */
  const Mark := "?"

  /** The SQL text of a condition: "device_id = ?", "recorded_at >= ?", ..., "lat >= ? AND lat <= ?". */
  function ConditionSql(c: Condition): string
  {
    match c
    case DeviceIs(_) => "device_id = " + Mark
    case RecordedFrom(_) => "recorded_at >= " + Mark
    case RecordedTo(_) => "recorded_at <= " + Mark
    case LonRange(_, _) => "lon >= " + Mark + " AND lon <= " + Mark
    case LatRange(_, _) => "lat >= " + Mark + " AND lat <= " + Mark
  }

  /** The values a condition binds, in the order of its placeholders. */
  function ConditionBindings(c: Condition): seq<SqlValue>
  {
    match c
    case DeviceIs(d) => [Text(d)]
    case RecordedFrom(f) => [Text(f)]
    case RecordedTo(t) => [Text(t)]
    case LonRange(sw, ne) => [Number(sw), Number(ne)]
    case LatRange(sw, ne) => [Number(sw), Number(ne)]
  }

  /** Text without placeholders, then one placeholder. */
  lemma OneMark(a: string)
    requires '?' !in a
    ensures Count(a + Mark, '?') == 1
  {
    CountConcat(a, Mark, '?');
    CountAbsent(a, '?');
    assert Mark[1..] == [];
  }

  /** Every condition has exactly as many placeholders as values. */
  lemma ConditionPlaceholders(c: Condition)
    ensures Count(ConditionSql(c), '?') == |ConditionBindings(c)|
  {
    match c
    case DeviceIs(_) => OneMark("device_id = ");
    case RecordedFrom(_) => OneMark("recorded_at >= ");
    case RecordedTo(_) => OneMark("recorded_at <= ");
    case LonRange(_, _) =>
      OneMark("lon >= ");
      OneMark(" AND lon <= ");
      CountConcat("lon >= " + Mark, " AND lon <= " + Mark, '?');
      assert ConditionSql(c) == ("lon >= " + Mark) + (" AND lon <= " + Mark);
    case LatRange(_, _) =>
      OneMark("lat >= ");
      OneMark(" AND lat <= ");
      CountConcat("lat >= " + Mark, " AND lat <= " + Mark, '?');
      assert ConditionSql(c) == ("lat >= " + Mark) + (" AND lat <= " + Mark);
  }

  /** The position of each kind of condition in the fixed order device_id, from, to, bbox. */
  function Rank(c: Condition): nat
  {
    match c
    case DeviceIs(_) => 0
    case RecordedFrom(_) => 1
    case RecordedTo(_) => 2
    case LonRange(_, _) => 3
    case LatRange(_, _) => 4
  }

  /** The conditions `getLocations` adds for `params`, field by field. */
  function ActiveConditions(params: GetLocationsParams): seq<Condition>
  {
    DeviceConditions(params.deviceId) + FromConditions(params.from) +
    ToConditions(params.to) + BboxConditions(params.bbox)
  }

  function DeviceConditions(deviceId: Option<string>): seq<Condition>
  {
    if StrTruthy(deviceId) then [DeviceIs(deviceId.value)] else []
  }

  function FromConditions(from: Option<string>): seq<Condition>
  {
    if StrTruthy(from) then [RecordedFrom(from.value)] else []
  }

  function ToConditions(to: Option<string>): seq<Condition>
  {
    if StrTruthy(to) then [RecordedTo(to.value)] else []
  }

  /** A bbox gives the lon range, then the lat range. */
  function BboxConditions(bbox: Option<Bbox>): seq<Condition>
  {
    if bbox.Some?
    then [LonRange(bbox.value.swLon, bbox.value.neLon), LatRange(bbox.value.swLat, bbox.value.neLat)]
    else []
  }

  /** Ranks strictly increase along `cs`: each kind at most once, in the fixed order. */
  predicate InFixedOrder(cs: seq<Condition>)
  {
    forall i, j :: 0 <= i < j < |cs| ==> Rank(cs[i]) < Rank(cs[j])
  }

  lemma OrderedAppend(a: seq<Condition>, b: seq<Condition>, bound: nat)
    requires InFixedOrder(a) && InFixedOrder(b)
    requires forall i :: 0 <= i < |a| ==> Rank(a[i]) < bound
    requires forall j :: 0 <= j < |b| ==> bound <= Rank(b[j])
    ensures InFixedOrder(a + b)
  {
    forall i, j | 0 <= i < j < |a + b| ensures Rank((a + b)[i]) < Rank((a + b)[j]) {
      if j < |a| {
        assert (a + b)[i] == a[i] && (a + b)[j] == a[j];
      } else if i < |a| {
        assert (a + b)[i] == a[i] && (a + b)[j] == b[j - |a|];
      } else {
        assert (a + b)[i] == b[i - |a|] && (a + b)[j] == b[j - |a|];
      }
    }
  }

  /** Conditions are added in the fixed order device_id, from, to, lon range, lat range. */
  lemma ConditionsInFixedOrder(params: GetLocationsParams)
    ensures InFixedOrder(ActiveConditions(params))
  {
    var d := DeviceConditions(params.deviceId);
    var f := FromConditions(params.from);
    var t := ToConditions(params.to);
    var b := BboxConditions(params.bbox);
    assert forall i :: 0 <= i < |d| ==> Rank(d[i]) == 0;
    assert forall i :: 0 <= i < |f| ==> Rank(f[i]) == 1;
    assert forall i :: 0 <= i < |t| ==> Rank(t[i]) == 2;
    assert forall i :: 0 <= i < |b| ==> Rank(b[i]) == 3 + i;
    OrderedAppend(d, f, 1);
    assert forall i :: 0 <= i < |d + f| ==> Rank((d + f)[i]) < 2;
    OrderedAppend(d + f, t, 2);
    assert forall i :: 0 <= i < |d + f + t| ==> Rank((d + f + t)[i]) < 3;
    OrderedAppend(d + f + t, b, 3);
  }

  /** The device condition is present exactly when the device id is truthy. */
  lemma DevicePresent(params: GetLocationsParams)
    ensures StrTruthy(params.deviceId) <==> DeviceIs(params.deviceId.GetOr("")) in ActiveConditions(params)
  {
    var c := DeviceIs(params.deviceId.GetOr(""));
    var f := FromConditions(params.from);
    var t := ToConditions(params.to);
    var b := BboxConditions(params.bbox);
    assert c !in f && c !in t && c !in b;
    assert ActiveConditions(params) == DeviceConditions(params.deviceId) + f + t + b;
  }

  /** The from condition is present exactly when `from` is truthy. */
  lemma FromPresent(params: GetLocationsParams)
    ensures StrTruthy(params.from) <==> RecordedFrom(params.from.GetOr("")) in ActiveConditions(params)
  {
    var c := RecordedFrom(params.from.GetOr(""));
    var d := DeviceConditions(params.deviceId);
    var t := ToConditions(params.to);
    var b := BboxConditions(params.bbox);
    assert c !in d && c !in t && c !in b;
    assert ActiveConditions(params) == d + FromConditions(params.from) + t + b;
  }

  /** The to condition is present exactly when `to` is truthy. */
  lemma ToPresent(params: GetLocationsParams)
    ensures StrTruthy(params.to) <==> RecordedTo(params.to.GetOr("")) in ActiveConditions(params)
  {
    var c := RecordedTo(params.to.GetOr(""));
    var d := DeviceConditions(params.deviceId);
    var f := FromConditions(params.from);
    var b := BboxConditions(params.bbox);
    assert c !in d && c !in f && c !in b;
    assert ActiveConditions(params) == d + f + ToConditions(params.to) + b;
  }

  /** The two bbox conditions end the list exactly when a bbox is given. */
  lemma BboxPresent(params: GetLocationsParams)
    ensures var cs := ActiveConditions(params);
            params.bbox.Some? <==> |cs| >= 2 && cs[|cs| - 2..] == BboxConditions(params.bbox)
  {
    var front := DeviceConditions(params.deviceId) + FromConditions(params.from) + ToConditions(params.to);
    var cs := ActiveConditions(params);
    assert cs == front + BboxConditions(params.bbox);
    if params.bbox.None? && |cs| >= 2 {
      assert cs == front;
      assert !cs[|cs| - 1].LatRange?;
    }
  }

  /** Each condition is present exactly when its field is truthy (bbox: present), with that field's values. */
  lemma ConditionsPresentWhenTruthy(params: GetLocationsParams)
    ensures var cs := ActiveConditions(params);
            && (StrTruthy(params.deviceId) <==> DeviceIs(params.deviceId.GetOr("")) in cs)
            && (StrTruthy(params.from) <==> RecordedFrom(params.from.GetOr("")) in cs)
            && (StrTruthy(params.to) <==> RecordedTo(params.to.GetOr("")) in cs)
            && (params.bbox.Some? <==> |cs| >= 2 && cs[|cs| - 2..] == BboxConditions(params.bbox))
  {
    DevicePresent(params);
    FromPresent(params);
    ToPresent(params);
    BboxPresent(params);
  }

  function ConditionTexts(cs: seq<Condition>): (texts: seq<string>)
    ensures |texts| == |cs|
    ensures forall i :: 0 <= i < |cs| ==> texts[i] == ConditionSql(cs[i])
  {
    if cs == [] then [] else [ConditionSql(cs[0])] + ConditionTexts(cs[1..])
  }

  function AllBindings(cs: seq<Condition>): seq<SqlValue>
  {
    if cs == [] then [] else ConditionBindings(cs[0]) + AllBindings(cs[1..])
  }

  lemma AppendPair(cs: seq<Condition>, x: Condition, y: Condition)
    ensures cs + [x] + [y] == cs + [x, y]
  {
  }

  /** Appending a condition appends its text and its values. */
  lemma {:induction false} Append(cs: seq<Condition>, c: Condition)
    ensures AllBindings(cs + [c]) == AllBindings(cs) + ConditionBindings(c)
    ensures ConditionTexts(cs + [c]) == ConditionTexts(cs) + [ConditionSql(c)]
  {
    if cs == [] {
      assert [] + [c] == [c];
    } else {
      assert (cs + [c])[1..] == cs[1..] + [c];
      Append(cs[1..], c);
    }
  }

  /** The WHERE clause: present exactly when there is a condition, conditions joined with " AND ". */
  function WhereClause(texts: seq<string>): string
  {
    if |texts| > 0 then "WHERE " + Join(texts, " AND ") else ""
  }

  /** "SELECT id, geojson, address, poi FROM locations " */
  const SelectPrefix := "SELECT id, geojson, " + "address, poi FROM locations "
  /** " ORDER BY recorded_at DESC LIMIT ?" */
  const OrderSuffix := " ORDER BY recorded_at DESC LIMIT " + Mark
  const DefaultLimit: real := 1000.0

  /** The joined conditions hold exactly one placeholder per bound value. */
  lemma {:induction false} JoinedPlaceholders(cs: seq<Condition>)
    ensures Count(Join(ConditionTexts(cs), " AND "), '?') == |AllBindings(cs)|
  {
    if cs != [] {
      ConditionPlaceholders(cs[0]);
      JoinedPlaceholders(cs[1..]);
      var texts := ConditionTexts(cs);
      assert ConditionTexts(cs[1..]) == texts[1..];
      if |cs| > 1 {
        assert Join(texts, " AND ") == texts[0] + (" AND " + Join(texts[1..], " AND "));
        CountConcat(texts[0], " AND " + Join(texts[1..], " AND "), '?');
        CountConcat(" AND ", Join(texts[1..], " AND "), '?');
        CountAbsent(" AND ", '?');
      } else {
        assert AllBindings(cs[1..]) == [];
      }
    }
  }

  lemma SelectPrefixHasNoMark()
    ensures Count(SelectPrefix, '?') == 0
  {
    CountAbsent(SelectPrefix, '?');
  }

  lemma OrderSuffixHasOneMark()
    ensures Count(OrderSuffix, '?') == 1
  {
    OneMark(" ORDER BY recorded_at DESC LIMIT ");
  }

  lemma WhereHasNoMark()
    ensures Count("WHERE ", '?') == 0
  {
    CountAbsent("WHERE ", '?');
  }

  /** The assembled SQL holds one placeholder per condition value, plus the limit's. */
  lemma SqlPlaceholders(cs: seq<Condition>)
    ensures Count(SelectPrefix + WhereClause(ConditionTexts(cs)) + OrderSuffix, '?') == |AllBindings(cs)| + 1
  {
    var where := WhereClause(ConditionTexts(cs));
    JoinedPlaceholders(cs);
    SelectPrefixHasNoMark();
    OrderSuffixHasOneMark();
    CountConcat(SelectPrefix, where, '?');
    CountConcat(SelectPrefix + where, OrderSuffix, '?');
    if |cs| > 0 {
      WhereHasNoMark();
      CountConcat("WHERE ", Join(ConditionTexts(cs), " AND "), '?');
    }
  }

  /**
   * The first half of `getLocations`: the condition texts and their bindings,
   * appended field by field in the order of the source.
   */
  method BuildConditions(params: GetLocationsParams) returns (conditions: seq<string>, bindings: seq<SqlValue>)
    ensures conditions == ConditionTexts(ActiveConditions(params))
    ensures bindings == AllBindings(ActiveConditions(params))
  {
    conditions := [];
    bindings := [];
    ghost var added: seq<Condition> := [];

    if StrTruthy(params.deviceId) {
      var c := DeviceIs(params.deviceId.value);
      conditions := conditions + [ConditionSql(c)];
      bindings := bindings + ConditionBindings(c);
      Append(added, c);
      added := added + [c];
    }
    assert added == DeviceConditions(params.deviceId);
    assert conditions == ConditionTexts(added) && bindings == AllBindings(added);
    if StrTruthy(params.from) {
      var c := RecordedFrom(params.from.value);
      conditions := conditions + [ConditionSql(c)];
      bindings := bindings + ConditionBindings(c);
      Append(added, c);
      added := added + [c];
    }
    assert added == DeviceConditions(params.deviceId) + FromConditions(params.from);
    assert conditions == ConditionTexts(added) && bindings == AllBindings(added);
    if StrTruthy(params.to) {
      var c := RecordedTo(params.to.value);
      conditions := conditions + [ConditionSql(c)];
      bindings := bindings + ConditionBindings(c);
      Append(added, c);
      added := added + [c];
    }
    assert added == DeviceConditions(params.deviceId) + FromConditions(params.from) + ToConditions(params.to);
    assert conditions == ConditionTexts(added) && bindings == AllBindings(added);
    ghost var beforeBbox := added;
    if params.bbox.Some? {
      var bbox := params.bbox.value;
      var lon := LonRange(bbox.swLon, bbox.neLon);
      conditions := conditions + [ConditionSql(lon)];
      bindings := bindings + ConditionBindings(lon);
      Append(added, lon);
      added := added + [lon];
      var lat := LatRange(bbox.swLat, bbox.neLat);
      conditions := conditions + [ConditionSql(lat)];
      bindings := bindings + ConditionBindings(lat);
      Append(added, lat);
      added := added + [lat];
      AppendPair(beforeBbox, lon, lat);
    } else {
      assert added == beforeBbox + [];
    }
    assert added == beforeBbox + BboxConditions(params.bbox);
    assert conditions == ConditionTexts(added) && bindings == AllBindings(added);
  }

  /**
   * `getLocations`: the SQL text and the bindings it prepares. The conditions
   * are joined under WHERE when there is at least one; the limit is bound last.
   */
  method GetLocations(params: GetLocationsParams) returns (sql: string, bindings: seq<SqlValue>)
    ensures sql == SelectPrefix + WhereClause(ConditionTexts(ActiveConditions(params))) + OrderSuffix
    ensures bindings == AllBindings(ActiveConditions(params)) + [Number(params.limit.GetOr(Num(DefaultLimit)))]
    ensures Count(sql, '?') == |bindings|
    ensures Statement(sql, bindings) == SelectStatement(params)
  {
    var conditions;
    conditions, bindings := BuildConditions(params);
    var where := if |conditions| > 0 then "WHERE " + Join(conditions, " AND ") else "";
    var limit := params.limit.GetOr(Num(DefaultLimit));
    sql := SelectPrefix + where + OrderSuffix;
    bindings := bindings + [Number(limit)];
    SqlPlaceholders(ActiveConditions(params));
  }

  /** The statement `getLocations` prepares, as a value: one placeholder per binding. */
  function SelectStatement(params: GetLocationsParams): (st: Statement)
    ensures Count(st.sql, '?') == |st.bindings|
  {
    SqlPlaceholders(ActiveConditions(params));
    Statement(SelectPrefix + WhereClause(ConditionTexts(ActiveConditions(params))) + OrderSuffix,
              AllBindings(ActiveConditions(params)) + [Number(params.limit.GetOr(Num(DefaultLimit)))])
  }

  /**
   * With a bbox, whatever other filters are present, the bindings end with
   * sw_lon, ne_lon (the lon range), then sw_lat, ne_lat, then the limit;
   * the device, from and to values come before them.
   */
  lemma BboxBindingOrder(params: GetLocationsParams)
    requires params.bbox.Some?
    ensures var b := params.bbox.value;
            var limit := Number(params.limit.GetOr(Num(DefaultLimit)));
            AllBindings(ActiveConditions(params)) + [limit] ==
              AllBindings(DeviceConditions(params.deviceId) + FromConditions(params.from) + ToConditions(params.to)) +
              [Number(b.swLon), Number(b.neLon), Number(b.swLat), Number(b.neLat), limit]
  {
    var b := params.bbox.value;
    var pre := DeviceConditions(params.deviceId) + FromConditions(params.from) + ToConditions(params.to);
    var lon, lat := LonRange(b.swLon, b.neLon), LatRange(b.swLat, b.neLat);
    assert ActiveConditions(params) == pre + [lon] + [lat];
    Append(pre + [lon], lat);
    Append(pre, lon);
  }

  /** Without any filter there is no WHERE clause and the limit, 1000 by default, is the only binding. */
  lemma NoFilterNoWhere(limit: Option<Num>)
    ensures var params := GetLocationsParams(None, None, None, None, limit);
            ActiveConditions(params) == [] &&
            WhereClause(ConditionTexts(ActiveConditions(params))) == "" &&
            AllBindings(ActiveConditions(params)) + [Number(limit.GetOr(Num(DefaultLimit)))] ==
              [Number(if limit.Some? then limit.value else Num(1000.0))]
  {
  }

  // ---------------------------------------------------------------- insertLocations

  /** "INSERT INTO locations (device_id, geojson, address, poi) VALUES (?, ?, ?, ?)" */
  const InsertHead := "INSERT INTO locations " + "(device_id, geojson, address, poi) VALUES ("
  const InsertSql := InsertHead + Mark + ", " + Mark + ", " + Mark + ", " + Mark + ")"

  /** What `insertLocations` does: the batch it sends (None: nothing prepared, nothing sent) and the count it returns. */
  datatype InsertPlan = InsertPlan(batch: Option<seq<Statement>>, count: nat)

  /** The bound statement for one record; a missing address or poi is bound as NULL. */
  function InsertStatement(loc: LocationInsert): Statement
  {
    Statement(InsertSql, [Text(loc.deviceId), Text(loc.geojson),
                          if loc.address.Some? then Text(loc.address.value) else Null,
                          if loc.poi.Some? then Text(loc.poi.value) else Null])
  }

  function InsertLocations(locations: seq<LocationInsert>): (plan: InsertPlan)
    // an empty list prepares and sends nothing
    ensures plan.batch.None? <==> |locations| == 0
    ensures plan.count == |locations|
    // otherwise one bound statement per record, in order
    ensures plan.batch.Some? ==>
              |plan.batch.value| == |locations| &&
              forall i :: 0 <= i < |locations| ==>
                var st := plan.batch.value[i];
                && st.sql == InsertSql
                && |st.bindings| == 4
                && st.bindings[0] == Text(locations[i].deviceId)
                && st.bindings[1] == Text(locations[i].geojson)
                && (st.bindings[2] == Null <==> locations[i].address.None?)
                && (locations[i].address.Some? ==> st.bindings[2] == Text(locations[i].address.value))
                && (st.bindings[3] == Null <==> locations[i].poi.None?)
                && (locations[i].poi.Some? ==> st.bindings[3] == Text(locations[i].poi.value))
  {
    if |locations| == 0 then InsertPlan(None, 0)
    else InsertPlan(Some(seq(|locations|, i requires 0 <= i < |locations| => InsertStatement(locations[i]))), |locations|)
  }

  /** Four placeholders separated by `sep`, between a head and a tail that hold none. */
  lemma FourMarks(head: string, sep: string, tail: string)
    requires '?' !in head && '?' !in sep && '?' !in tail
    ensures Count(head + Mark + sep + Mark + sep + Mark + sep + Mark + tail, '?') == 4
  {
    var x := head + Mark;
    OneMark(head);
    CountAbsent(sep, '?');
    CountAbsent(tail, '?');
    assert Count(Mark, '?') == 1 by { assert Mark[1..] == []; }
    CountConcat(x, sep, '?');
    CountConcat(x + sep, Mark, '?');
    CountConcat(x + sep + Mark, sep, '?');
    CountConcat(x + sep + Mark + sep, Mark, '?');
    CountConcat(x + sep + Mark + sep + Mark, sep, '?');
    CountConcat(x + sep + Mark + sep + Mark + sep, Mark, '?');
    CountConcat(x + sep + Mark + sep + Mark + sep + Mark, tail, '?');
  }

  /** The insert statement has one placeholder per bound value. */
  lemma InsertPlaceholders(loc: LocationInsert)
    ensures Count(InsertStatement(loc).sql, '?') == |InsertStatement(loc).bindings|
  {
    assert '?' !in InsertHead;
    FourMarks(InsertHead, ", ", ")");
  }
}
