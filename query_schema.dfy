/**
 * The query-string schema of src/schemas/query.ts: the `DateString`,
 * `BboxString` and `format` recognisers, `parseBbox`, and the object
 * schema `GetLocationsQuery` that combines them. Regular expressions are
 * written out as recognisers over characters; `v.isoTimestamp()` and the
 * string-to-number conversions are parameters.
 */
module QuerySchema {
  import opened Wrappers
  import opened JsValues
  import opened Strings
  import opened Types

  /** `\d` in a JavaScript regular expression without the `u` flag. */
  predicate IsDigit(c: char)
  {
    '0' <= c <= '9'
  }

  predicate AllDigits(s: string)
  {
    forall i :: 0 <= i < |s| ==> IsDigit(s[i])
  }

  lemma DigitsHaveNo(s: string, c: char)
    requires AllDigits(s) && !IsDigit(c)
    ensures c !in s
  {
    forall j | 0 <= j < |s| ensures s[j] != c {
      assert IsDigit(s[j]);
    }
  }

  // ---------------------------------------------------------------- DateString

  /** `/^\d{4}-\d{2}-\d{2}$/`, read position by position. */
  predicate IsDateString(s: string): (ok: bool)
    // position by position: ten characters, dashes at 4 and 7, digits elsewhere
    ensures ok <==> |s| == 10 && s[4] == '-' && s[7] == '-' && forall i :: 0 <= i < 10 && i != 4 && i != 7 ==> IsDigit(s[i])
  {
    |s| == 10 && s[4] == '-' && s[7] == '-' &&
    AllDigits(s[..4]) && AllDigits(s[5..7]) && AllDigits(s[8..])
  }

  /** A date string is exactly three dash-separated digit groups of widths 4, 2 and 2. */
  lemma {:induction false} DateStringIsThreeGroups(s: string)
    ensures IsDateString(s) <==>
              var p := Split(s, '-');
              |p| == 3 && |p[0]| == 4 && |p[1]| == 2 && |p[2]| == 2 &&
              AllDigits(p[0]) && AllDigits(p[1]) && AllDigits(p[2])
  {
    var p := Split(s, '-');
    if IsDateString(s) {
      var groups := [s[..4], s[5..7], s[8..]];
      forall i | 0 <= i < 3 ensures '-' !in groups[i] {
        DigitsHaveNo(groups[i], '-');
      }
      assert Join(groups, "-") == s[..4] + "-" + (s[5..7] + "-" + s[8..]) by {
        JoinCons(s[5..7], [s[8..]], "-");
        JoinCons(s[..4], [s[5..7], s[8..]], "-");
        assert groups == [s[..4]] + [s[5..7], s[8..]];
      }
      assert s == s[..4] + "-" + (s[5..7] + "-" + s[8..]);
      SplitJoin(groups, '-');
    }
    if |p| == 3 && |p[0]| == 4 && |p[1]| == 2 && |p[2]| == 2 &&
       AllDigits(p[0]) && AllDigits(p[1]) && AllDigits(p[2]) {
      JoinSplit(s, '-');
      assert Join(p, "-") == p[0] + "-" + (p[1] + "-" + p[2]) by {
        JoinCons(p[1], [p[2]], "-");
        JoinCons(p[0], [p[1], p[2]], "-");
        assert p == [p[0]] + [p[1], p[2]];
      }
      assert s[..4] == p[0];
      assert s[5..7] == p[1];
      assert s[8..] == p[2];
    }
  }

  // ---------------------------------------------------------------- BboxString

  /** The length of the run of digits that starts `s`. */
  function DigitRun(s: string): (k: nat)
    ensures k <= |s|
    ensures AllDigits(s[..k])
    ensures k < |s| ==> !IsDigit(s[k])
  {
    if s == [] || !IsDigit(s[0]) then 0
    else
      var k := 1 + DigitRun(s[1..]);
      assert s[..k] == [s[0]] + s[1..][..k - 1];
      k
  }

  /** One number of the bbox pattern, `-?\d+\.?\d*`. */
  predicate IsNumberToken(t: string)
  {
    var u := if |t| > 0 && t[0] == '-' then t[1..] else t;
    var k := DigitRun(u);
    k >= 1 && (k == |u| || (u[k] == '.' && AllDigits(u[k + 1..])))
  }

  /** A number token is made of a sign, digits and a point only. */
  lemma NumberTokenAlphabet(t: string)
    requires IsNumberToken(t)
    ensures forall j :: 0 <= j < |t| ==> IsDigit(t[j]) || t[j] == '-' || t[j] == '.'
  {
    var u := if |t| > 0 && t[0] == '-' then t[1..] else t;
    var k := DigitRun(u);
    var off := |t| - |u|;
    assert u == t[off..];
    forall j | 0 <= j < |t| ensures IsDigit(t[j]) || t[j] == '-' || t[j] == '.' {
      if j >= off {
        var ju := j - off;
        assert u[ju] == t[j];
        if ju < k {
          assert IsDigit(u[..k][ju]);
        } else if ju > k {
          assert IsDigit(u[k + 1..][ju - k - 1]);
        }
      }
    }
  }

  /** In particular a number token holds no comma. */
  lemma NumberTokenHasNoComma(t: string)
    requires IsNumberToken(t)
    ensures ',' !in t
  {
    NumberTokenAlphabet(t);
  }

  /**
   * The language of `/^-?\d+\.?\d*,-?\d+\.?\d*,-?\d+\.?\d*,-?\d+\.?\d*$/`:
   * four number tokens with a comma between consecutive ones.
   */
  ghost predicate BboxPattern(s: string)
  {
    exists parts: seq<string> :: |parts| == 4 && s == Join(parts, ",") &&
      forall i :: 0 <= i < 4 ==> IsNumberToken(parts[i])
  }

  /** The recogniser `BboxString` applies: split on commas, four number tokens. */
  predicate IsBboxString(s: string): (ok: bool)
    // an accepted string holds digits, signs, points and commas only
    ensures ok ==> forall k :: 0 <= k < |s| ==> IsDigit(s[k]) || s[k] in "-.,"
  {
    var p := Split(s, ',');
    if |p| == 4 && forall i :: 0 <= i < 4 ==> IsNumberToken(p[i]) then
      BboxAlphabet(s);
      true
    else false
  }

  lemma BboxAlphabet(s: string)
    requires |Split(s, ',')| == 4 && forall i :: 0 <= i < 4 ==> IsNumberToken(Split(s, ',')[i])
    ensures forall k :: 0 <= k < |s| ==> IsDigit(s[k]) || s[k] in "-.,"
  {
    var p := Split(s, ',');
    JoinSplit(s, ',');
    JoinChars(p, ",");
    forall i | 0 <= i < 4 ensures forall j :: 0 <= j < |p[i]| ==> IsDigit(p[i][j]) || p[i][j] == '-' || p[i][j] == '.' {
      NumberTokenAlphabet(p[i]);
    }
    forall k | 0 <= k < |s| ensures IsDigit(s[k]) || s[k] in "-.," {
      if s[k] !in "," {
        var i :| 0 <= i < |p| && s[k] in p[i];
        var j :| 0 <= j < |p[i]| && p[i][j] == s[k];
      }
    }
  }

  /**
   * The recogniser accepts exactly the strings of the regular expression's
   * language, and every accepted string splits on "," into exactly four parts.
   */
  lemma BboxRecogniserMatchesPattern(s: string)
    ensures IsBboxString(s) <==> BboxPattern(s)
    ensures IsBboxString(s) ==> |Split(s, ',')| == 4
  {
    if IsBboxString(s) {
      JoinSplit(s, ',');
      assert |Split(s, ',')| == 4 && s == Join(Split(s, ','), ",");
    }
    if BboxPattern(s) {
      var parts :| |parts| == 4 && s == Join(parts, ",") &&
        forall i :: 0 <= i < 4 ==> IsNumberToken(parts[i]);
      forall i | 0 <= i < 4 ensures ',' !in parts[i] {
        NumberTokenHasNoComma(parts[i]);
      }
      SplitJoin(parts, ',');
    }
  }

  /** `parseBbox`, for a string the schema accepted. */
  function ParseBbox(bbox: string, toNumber: string -> Num): (b: Bbox)
    requires IsBboxString(bbox)
    // the string is four number tokens joined by commas, converted in order
    ensures exists w, x, y, z :: bbox == Join([w, x, y, z], ",") &&
              IsNumberToken(w) && IsNumberToken(x) && IsNumberToken(y) && IsNumberToken(z) &&
              b == Bbox(toNumber(w), toNumber(x), toNumber(y), toNumber(z))
  {
    var p := Split(bbox, ',');
    JoinSplit(bbox, ',');
    assert p == [p[0], p[1], p[2], p[3]];
    Bbox(toNumber(p[0]), toNumber(p[1]), toNumber(p[2]), toNumber(p[3]))
  }

  /**
   * The four numbers of a bbox string are assigned in order to sw_lon,
   * sw_lat, ne_lon and ne_lat.
   */
  lemma ParseBboxAssignsInOrder(a: string, b: string, c: string, d: string, toNumber: string -> Num)
    requires IsNumberToken(a) && IsNumberToken(b) && IsNumberToken(c) && IsNumberToken(d)
    ensures IsBboxString(Join([a, b, c, d], ","))
    ensures ParseBbox(Join([a, b, c, d], ","), toNumber) ==
              Bbox(toNumber(a), toNumber(b), toNumber(c), toNumber(d))
  {
    var parts := [a, b, c, d];
    NumberTokenHasNoComma(a);
    NumberTokenHasNoComma(b);
    NumberTokenHasNoComma(c);
    NumberTokenHasNoComma(d);
    SplitJoin(parts, ',');
  }

  // ---------------------------------------------------------------- format

  datatype Format = GeoJson | Json | JsonLines

  function FormatName(f: Format): string
  {
    match f
    case GeoJson => "geojson"
    case Json => "json"
    case JsonLines => "jsonl"
  }

  /** `v.picklist(["geojson", "json", "jsonl"])`. */
  function ParseFormat(s: string): (f: Option<Format>)
    ensures f.Some? <==> s in {"geojson", "json", "jsonl"}
    ensures f.Some? ==> FormatName(f.value) == s
  {
    if s == "geojson" then Some(GeoJson)
    else if s == "json" then Some(Json)
    else if s == "jsonl" then Some(JsonLines)
    else None
  }

  /** The picklist reads back every format's own name and nothing else. */
  lemma FormatRoundTrip(f: Format, s: string)
    ensures ParseFormat(FormatName(f)) == Some(f)
    ensures ParseFormat(s) == Some(f) ==> s == FormatName(f)
  {
  }

  // ---------------------------------------------------------------- GetLocationsQuery

  /** The validated query, `GetLocationsQueryType`. */
  datatype Query = Query(
    date: Option<string>,
    from: Option<string>,
    to: Option<string>,
    bbox: Option<string>,
    limit: Option<Num>,
    format: Option<Format>,
    deviceId: Option<string>)

  function Field(raw: map<string, string>, key: string): Option<string>
  {
    if key in raw then Some(raw[key]) else None
  }

  /** Each key the schema knows is either absent or accepted by its own check. */
  predicate QueryValid(raw: map<string, string>, isIsoTimestamp: string -> bool)
  {
    && ("date" in raw ==> IsDateString(raw["date"]))
    && ("from" in raw ==> isIsoTimestamp(raw["from"]))
    && ("to" in raw ==> isIsoTimestamp(raw["to"]))
    && ("bbox" in raw ==> IsBboxString(raw["bbox"]))
    && ("format" in raw ==> ParseFormat(raw["format"]).Some?)
  }

  /**
   * `v.safeParse(GetLocationsQuery, rawParams)`: None for a failed parse.
   * `limit` accepts any string and is transformed by `parseInt`; unknown keys
   * are dropped.
   */
  function ValidateQuery(raw: map<string, string>, isIsoTimestamp: string -> bool, parseInt: string -> Num): (q: Option<Query>)
    ensures q.Some? <==> QueryValid(raw, isIsoTimestamp)
    ensures q.Some? ==> q.value.date == Field(raw, "date") && q.value.from == Field(raw, "from") &&
                        q.value.to == Field(raw, "to") && q.value.bbox == Field(raw, "bbox") &&
                        q.value.deviceId == Field(raw, "device_id")
    ensures q.Some? ==> (q.value.limit.Some? <==> "limit" in raw) &&
                        ("limit" in raw ==> q.value.limit.value == parseInt(raw["limit"]))
    ensures q.Some? ==> (q.value.format.Some? <==> "format" in raw) &&
                        ("format" in raw ==> FormatName(q.value.format.value) == raw["format"])
  {
    if !QueryValid(raw, isIsoTimestamp) then None
    else
      Some(Query(
        Field(raw, "date"),
        Field(raw, "from"),
        Field(raw, "to"),
        Field(raw, "bbox"),
        if "limit" in raw then Some(parseInt(raw["limit"])) else None,
        if "format" in raw then ParseFormat(raw["format"]) else None,
        Field(raw, "device_id")))
  }

  /** The handler test's `?date=invalid` is refused. */
  lemma InvalidDateRefused(isIsoTimestamp: string -> bool, parseInt: string -> Num)
    ensures ValidateQuery(map["date" := "invalid"], isIsoTimestamp, parseInt).None?
  {
    assert !IsDateString("invalid");
  }
}
