/** The JSON bodies of the client's write requests and the HTTP request head
    sent in front of them. A value handed to `Print::print` is modelled by
    the text it renders, given as a string; how numbers and doubles are
    rendered is not part of this model. Each serialiser prints piece by
    piece and returns the number of bytes printed. The client runs it once
    against a counting `NullPrint`, to fill in `Content-Length`, and once
    against the connection. */
module M2xJson {
  import opened Common
  import M2xEncode
  import M2xStatus
  import M2xTime
  import M2xWait

  const CRLF: string := "\r\n"

  /** Items separated by commas: the `if (i < n - 1) print(",")` pattern of
      the serialiser loops. */
  function Join(items: seq<string>): string
    decreases |items|
  {
    if |items| == 0 then []
    else if |items| == 1 then items[0]
    else Join(items[..|items| - 1]) + "," + items[|items| - 1]
  }

  /** The sum of the items' lengths. */
  function TotalLength(items: seq<string>): nat
    decreases |items|
  {
    if |items| == 0 then 0 else TotalLength(items[..|items| - 1]) + |items[|items| - 1]|
  }

  /** A joined list is its items and one comma between each two. */
  lemma {:induction false} JoinLength(items: seq<string>)
    ensures |Join(items)| == TotalLength(items) + (if |items| == 0 then 0 else |items| - 1)
    decreases |items|
  {
    if |items| > 1 {
      JoinLength(items[..|items| - 1]);
    }
  }

  /** One more item, as the loops print it. */
  lemma {:induction false} JoinStep(items: seq<string>, i: nat)
    requires i < |items|
    ensures Join(items[..i + 1]) == if i == 0 then items[0] else Join(items[..i]) + "," + items[i]
  {
    assert items[..i + 1][..i] == items[..i];
  }

  /** The invariant of a loop that prints item `i` and then a comma unless
      it was the last of `n`: one more item joined. */
  lemma {:induction false} JoinLoopStep(items: seq<string>, i: nat, n: int, piece: string)
    requires i < |items| && |items| == n && items[i] == piece
    ensures Joined(items, i, n) + piece + (if i < n - 1 then "," else "") == Joined(items, i + 1, n)
  {
    JoinStep(items, i);
  }

  /** What such a loop has printed after `i` of `n` items. */
  function Joined(items: seq<string>, i: nat, n: int): string
    requires i <= |items|
  {
    Join(items[..i]) + (if 0 < i < n then "," else "")
  }

  /** A non-positive count is no values: the loop `for (j = 0; j < n; j++)`
      does not run. */
  function Count(c: int): nat {
    if c > 0 then c else 0
  }

  // ---------------------------------------------------------------------
  // write_multiple_values

  /** `value_index` when stream `i` starts: the values of the earlier
      streams, which are stored one after the other in `ats` and `values`. */
  function Offset(counts: seq<int>, i: nat): nat
    requires i <= |counts|
  {
    if i == 0 then 0 else Offset(counts, i - 1) + Count(counts[i - 1])
  }

  function PointJson(at: string, value: string): string {
    "{\"timestamp\": \"" + at + "\",\"value\": \"" + value + "\"}"
  }

  /** The `n` points from position `from` on. */
  function Points(ats: seq<string>, values: seq<string>, from: nat, n: nat): (r: seq<string>)
    requires from + n <= |ats| && from + n <= |values|
    ensures |r| == n
    decreases n
  {
    if n == 0 then [] else Points(ats, values, from, n - 1) + [PointJson(ats[from + n - 1], values[from + n - 1])]
  }

  function StreamJson(name: string, points: seq<string>): string {
    "\"" + name + "\":[" + Join(points) + "]"
  }

  /** The arrays hold what the first `streams` streams need. */
  predicate Fits(streams: nat, names: seq<string>, counts: seq<int>, ats: seq<string>, values: seq<string>) {
    streams <= |names| && streams <= |counts|
    && Offset(counts, streams) <= |ats| && Offset(counts, streams) <= |values|
  }

  /** The first `streams` streams, each with its own run of points. */
  function Streams(streams: nat, names: seq<string>, counts: seq<int>, ats: seq<string>, values: seq<string>): (r: seq<string>)
    requires Fits(streams, names, counts, ats, values)
    ensures |r| == streams
    decreases streams
  {
    if streams == 0 then []
    else
      var i := streams - 1;
      Streams(i, names, counts, ats, values)
        + [StreamJson(names[i], Points(ats, values, Offset(counts, i), Count(counts[i])))]
  }

  /** The body of `postDeviceUpdates`. */
  function MultipleValuesJson(streamNum: int, names: seq<string>, counts: seq<int>, ats: seq<string>, values: seq<string>): string
    requires Fits(Count(streamNum), names, counts, ats, values)
  {
    "{\"values\":{" + Join(Streams(Count(streamNum), names, counts, ats, values)) + "}}"
  }

  /** The inner loop of `write_multiple_values`: `count` points from
      `value_index` = `from` on. */
  method WritePoints(ats: seq<string>, values: seq<string>, from: nat, count: int) returns (out: string, bytes: int)
    requires from + Count(count) <= |ats| && from + Count(count) <= |values|
    ensures out == Join(Points(ats, values, from, Count(count)))
    ensures bytes == |out|
  {
    ghost var pts := Points(ats, values, from, Count(count));
    out, bytes := "", 0;
    var j := 0;
    while j < count
      invariant 0 <= j <= Count(count)
      invariant out == Joined(pts, j, count)
      invariant bytes == |out|
    {
      var k := from + j;
      var p, b := WritePoint(ats[k], values[k]);
      PointAt(ats, values, from, j, Count(count), k);
      JoinLoopStep(pts, j, count, p);
      out := out + p;
      bytes := bytes + b;
      if j < count - 1 {
        out := out + ",";
        bytes := bytes + 1;
      }
      j := j + 1;
    }
    assert pts[..j] == pts;
  }

  /** One element of the inner loop. */
  method WritePoint(at: string, value: string) returns (out: string, bytes: int)
    ensures out == PointJson(at, value)
    ensures bytes == |out|
  {
    out := "{\"timestamp\": \"";
    out := out + at;
    out := out + "\",\"value\": \"";
    out := out + value;
    out := out + "\"}";
    bytes := |"{\"timestamp\": \""| + |at| + |"\",\"value\": \""| + |value| + |"\"}"|;
  }

  /** The first points of a longer run are the shorter run. */
  lemma {:induction false} PointsPrefix(ats: seq<string>, values: seq<string>, from: nat, m: nat, n: nat)
    requires m <= n && from + n <= |ats| && from + n <= |values|
    ensures Points(ats, values, from, n)[..m] == Points(ats, values, from, m)
    decreases n - m
  {
    if m < n {
      PointsPrefix(ats, values, from, m, n - 1);
      assert Points(ats, values, from, n)[..n - 1] == Points(ats, values, from, n - 1);
    }
  }

  /** The first streams of a longer prefix are the shorter prefix. */
  lemma {:induction false} StreamsPrefix(m: nat, n: nat, names: seq<string>, counts: seq<int>, ats: seq<string>, values: seq<string>)
    requires m <= n && Fits(n, names, counts, ats, values)
    ensures Fits(m, names, counts, ats, values)
    ensures Streams(n, names, counts, ats, values)[..m] == Streams(m, names, counts, ats, values)
    decreases n - m
  {
    if m < n {
      StreamsPrefix(m, n - 1, names, counts, ats, values);
      assert Streams(n, names, counts, ats, values)[..n - 1] == Streams(n - 1, names, counts, ats, values);
    }
  }

  /** Stream `i` of the first `n`: where its points start, and its text. */
  lemma {:induction false} StreamAt(i: nat, n: nat, names: seq<string>, counts: seq<int>, ats: seq<string>, values: seq<string>)
    requires i < n && Fits(n, names, counts, ats, values)
    ensures Offset(counts, i + 1) == Offset(counts, i) + Count(counts[i])
    ensures Offset(counts, i) + Count(counts[i]) <= |ats| && Offset(counts, i) + Count(counts[i]) <= |values|
    ensures Streams(n, names, counts, ats, values)[i]
         == StreamJson(names[i], Points(ats, values, Offset(counts, i), Count(counts[i])))
  {
    StreamsPrefix(i + 1, n, names, counts, ats, values);
    assert Streams(n, names, counts, ats, values)[i] == Streams(i + 1, names, counts, ats, values)[i];
  }

  /** Point `j` of a run. */
  lemma {:induction false} PointAt(ats: seq<string>, values: seq<string>, from: nat, j: nat, n: nat, p: nat)
    requires j < n && from + n <= |ats| && from + n <= |values| && p == from + j
    ensures Points(ats, values, from, n)[j] == PointJson(ats[p], values[p])
  {
    PointsPrefix(ats, values, from, j + 1, n);
    assert Points(ats, values, from, n)[j] == Points(ats, values, from, j + 1)[j];
  }

  /** One stream of the outer loop: its name and its run of points. */
  method WriteStream(name: string, ats: seq<string>, values: seq<string>, from: nat, count: int)
    returns (out: string, bytes: int)
    requires from + Count(count) <= |ats| && from + Count(count) <= |values|
    ensures out == StreamJson(name, Points(ats, values, from, Count(count)))
    ensures bytes == |out|
  {
    out := "\"";
    out := out + name;
    out := out + "\":[";
    var pts, b := WritePoints(ats, values, from, count);
    out := out + pts;
    out := out + "]";
    bytes := 1 + |name| + 3 + b + 1;
  }

  /** The outer loop of `write_multiple_values`. */
  method WriteStreams(streamNum: int, names: seq<string>, counts: seq<int>, ats: seq<string>, values: seq<string>)
    returns (out: string, bytes: int)
    requires Fits(Count(streamNum), names, counts, ats, values)
    ensures out == Join(Streams(Count(streamNum), names, counts, ats, values))
    ensures bytes == |out|
  {
    var n := Count(streamNum);
    ghost var items := Streams(n, names, counts, ats, values);
    out, bytes := "", 0;
    var valueIndex := 0;
    var i := 0;
    while i < streamNum
      invariant 0 <= i <= n
      invariant valueIndex == Offset(counts, i)
      invariant out == Joined(items, i, streamNum)
      invariant bytes == |out|
    {
      StreamAt(i, n, names, counts, ats, values);
      var piece, b := WriteStream(names[i], ats, values, valueIndex, counts[i]);
      JoinLoopStep(items, i, streamNum, piece);
      out := out + piece;
      bytes := bytes + b;
      if i < streamNum - 1 {
        out := out + ",";
        bytes := bytes + 1;
      }
      valueIndex := valueIndex + Count(counts[i]);
      i := i + 1;
    }
    assert items[..i] == items;
  }

  /** `write_multiple_values`: the body with `streamNum` streams; stream `i`
      is `names[i]` with the next `counts[i]` timestamped values. */
  method WriteMultipleValues(streamNum: int, names: seq<string>, counts: seq<int>, ats: seq<string>, values: seq<string>)
    returns (out: string, bytes: int)
    requires Fits(Count(streamNum), names, counts, ats, values)
    ensures out == MultipleValuesJson(streamNum, names, counts, ats, values)
    ensures bytes == |out|
  {
    var body, b := WriteStreams(streamNum, names, counts, ats, values);
    out := "{\"values\":{" + body;
    out := out + "}}";
    bytes := 11 + b + 2;
  }

  // ---------------------------------------------------------------------
  // write_single_device_values

  function NamedValue(name: string, value: string): string {
    "\"" + name + "\": \"" + value + "\""
  }

  function NamedValues(n: nat, names: seq<string>, values: seq<string>): (r: seq<string>)
    requires n <= |names| && n <= |values|
    ensures |r| == n
    ensures forall i :: 0 <= i < n ==> r[i] == NamedValue(names[i], values[i])
    decreases n
  {
    if n == 0 then [] else NamedValues(n - 1, names, values) + [NamedValue(names[n - 1], values[n - 1])]
  }

  /** The body of `postDeviceUpdate`: one value per stream, and the
      timestamp when one is given. */
  function SingleValuesJson(streamNum: int, names: seq<string>, values: seq<string>, at: Option<string>): string
    requires Count(streamNum) <= |names| && Count(streamNum) <= |values|
  {
    "{\"values\":{" + Join(NamedValues(Count(streamNum), names, values)) + "}"
      + (if at.Some? then ",\"timestamp\":\"" + at.value + "\"" else "")
      + "}"
  }

  /** The loop of `write_single_device_values`: one named value per
      stream, comma separated. */
  method WriteNamedValues(streamNum: int, names: seq<string>, values: seq<string>) returns (out: string, bytes: int)
    requires Count(streamNum) <= |names| && Count(streamNum) <= |values|
    ensures out == Join(NamedValues(Count(streamNum), names, values))
    ensures bytes == |out|
  {
    ghost var items := NamedValues(Count(streamNum), names, values);
    out, bytes := "", 0;
    var i := 0;
    while i < streamNum
      invariant 0 <= i <= Count(streamNum)
      invariant out == Joined(items, i, streamNum)
      invariant bytes == |out|
    {
      var piece := "\"" + names[i] + "\": \"" + values[i] + "\"";
      assert items[i] == piece;
      JoinLoopStep(items, i, streamNum, piece);
      out := out + piece;
      bytes := bytes + |piece|;
      if i < streamNum - 1 {
        out := out + ",";
        bytes := bytes + 1;
      }
      i := i + 1;
    }
    assert items[..i] == items;
  }

  /** `write_single_device_values`; a null `at` is `None`. */
  method WriteSingleDeviceValues(streamNum: int, names: seq<string>, values: seq<string>, at: Option<string>)
    returns (out: string, bytes: int)
    requires Count(streamNum) <= |names| && Count(streamNum) <= |values|
    ensures out == SingleValuesJson(streamNum, names, values, at)
    ensures bytes == |out|
  {
    var body, b := WriteNamedValues(streamNum, names, values);
    out := "{\"values\":{" + body;
    out := out + "}";
    bytes := 11 + b + 1;
    if at.Some? {
      out := out + ",\"timestamp\":\"";
      out := out + at.value;
      out := out + "\"";
      bytes := bytes + |",\"timestamp\":\""| + |at.value| + 1;
    }
    out := out + "}";
    bytes := bytes + 1;
  }

  // ---------------------------------------------------------------------
  // Flat objects of string members.

  function Member(key: string, value: string): string {
    "\"" + key + "\":\"" + value + "\""
  }

  function Members(fields: seq<(string, string)>): (r: seq<string>)
    ensures |r| == |fields|
    ensures forall i :: 0 <= i < |fields| ==> r[i] == Member(fields[i].0, fields[i].1)
    decreases |fields|
  {
    if |fields| == 0 then [] else Members(fields[..|fields| - 1]) + [Member(fields[|fields| - 1].0, fields[|fields| - 1].1)]
  }

  /** A JSON object whose members all have string values. */
  function ObjectJson(fields: seq<(string, string)>): string {
    "{" + Join(Members(fields)) + "}"
  }

  /** The body `updateStreamValue` sends: the value as the one member
      `value`, and 12 bytes around the value, the constant the source adds
      to the value's printed length for `Content-Length`. */
  method UpdateStreamValueBody(value: string) returns (out: string, bytes: int)
    ensures out == ObjectJson([("value", value)])
    ensures bytes == |out| == |value| + 12
  {
    out := "{\"value\":\"";
    out := out + value;
    out := out + "\"}";
    bytes := |"{\"value\":\""| + |value| + |"\"}"|;
    assert Members([("value", value)]) == [Member("value", value)];
  }

  /** `write_location_data`, both overloads: four string members. */
  method WriteLocationData(name: string, latitude: string, longitude: string, elevation: string)
    returns (out: string, bytes: int)
    ensures out == ObjectJson([("name", name), ("latitude", latitude), ("longitude", longitude), ("elevation", elevation)])
    ensures bytes == |out|
  {
    out := "{\"name\":\"";
    out := out + name;
    out := out + "\",\"latitude\":\"";
    out := out + latitude;
    out := out + "\",\"longitude\":\"";
    out := out + longitude;
    out := out + "\",\"elevation\":\"";
    out := out + elevation;
    out := out + "\"}";
    bytes := |"{\"name\":\""| + |name| + |"\",\"latitude\":\""| + |latitude| + |"\",\"longitude\":\""| + |longitude|
      + |"\",\"elevation\":\""| + |elevation| + |"\"}"|;
    LocationText(name, latitude, longitude, elevation);
    LocationObject(name, latitude, longitude, elevation);
  }

  /** The printed pieces of `write_location_data` make up its four members. */
  lemma {:induction false} LocationText(name: string, latitude: string, longitude: string, elevation: string)
    ensures "{\"name\":\"" + name + "\",\"latitude\":\"" + latitude + "\",\"longitude\":\"" + longitude
            + "\",\"elevation\":\"" + elevation + "\"}"
         == "{" + Member("name", name) + "," + Member("latitude", latitude) + "," + Member("longitude", longitude)
            + "," + Member("elevation", elevation) + "}"
  {
    var h1, h2, h3, h4 := "\"" + "name" + "\":\"", "\"" + "latitude" + "\":\"", "\"" + "longitude" + "\":\"", "\"" + "elevation" + "\":\"";
    assert "{\"name\":\"" == "{" + h1;
    assert "\",\"latitude\":\"" == "\"" + "," + h2;
    assert "\",\"longitude\":\"" == "\"" + "," + h3;
    assert "\",\"elevation\":\"" == "\"" + "," + h4;
    assert "\"}" == "\"" + "}";
    Interleave4("{", "}", "\"", ",", h1, h2, h3, h4, name, latitude, longitude, elevation);
  }

  /** Regrouping the pieces of four members. */
  lemma {:induction false} Interleave4(o: string, c: string, q: string, comma: string,
                                       h1: string, h2: string, h3: string, h4: string,
                                       v1: string, v2: string, v3: string, v4: string)
    ensures (o + h1) + v1 + (q + comma + h2) + v2 + (q + comma + h3) + v3 + (q + comma + h4) + v4 + (q + c)
         == o + (h1 + v1 + q) + comma + (h2 + v2 + q) + comma + (h3 + v3 + q) + comma + (h4 + v4 + q) + c
  {
  }

  lemma {:induction false} LocationObject(name: string, latitude: string, longitude: string, elevation: string)
    ensures ObjectJson([("name", name), ("latitude", latitude), ("longitude", longitude), ("elevation", elevation)])
         == "{" + Member("name", name) + "," + Member("latitude", latitude) + "," + Member("longitude", longitude) + "," + Member("elevation", elevation) + "}"
  {
    var fields := [("name", name), ("latitude", latitude), ("longitude", longitude), ("elevation", elevation)];
    var ms := Members(fields);
    JoinFour(ms);
    assert ms[0] == Member("name", name);
    assert ms[3] == Member("elevation", elevation);
  }

  lemma {:induction false} JoinFour(items: seq<string>)
    requires |items| == 4
    ensures Join(items) == items[0] + "," + items[1] + "," + items[2] + "," + items[3]
  {
    JoinStep(items, 1);
    JoinStep(items, 2);
    JoinStep(items, 3);
    assert items[..4] == items;
    assert items[..1] == [items[0]];
  }

  /** `write_delete_values`: the range as the members `from` and `end`. */
  method WriteDeleteValues(from: string, end: string) returns (out: string, bytes: int)
    ensures out == ObjectJson([("from", from), ("end", end)])
    ensures bytes == |out|
  {
    out := "{\"from\":\"";
    out := out + from;
    out := out + "\",\"end\":\"";
    out := out + end;
    out := out + "\"}";
    bytes := |"{\"from\":\""| + |from| + |"\",\"end\":\""| + |end| + |"\"}"|;
    DeleteText(from, end);
    DeleteObject(from, end);
  }

  /** The printed pieces of `write_delete_values` make up its two members. */
  lemma {:induction false} DeleteText(from: string, end: string)
    ensures "{\"from\":\"" + from + "\",\"end\":\"" + end + "\"}"
         == "{" + Member("from", from) + "," + Member("end", end) + "}"
  {
    assert "{\"from\":\"" == "{" + ("\"" + "from" + "\":\"");
    assert "\",\"end\":\"" == "\"" + "," + ("\"" + "end" + "\":\"");
    assert "\"}" == "\"" + "}";
  }

  lemma {:induction false} DeleteObject(from: string, end: string)
    ensures ObjectJson([("from", from), ("end", end)]) == "{" + Member("from", from) + "," + Member("end", end) + "}"
  {
    var ms := Members([("from", from), ("end", end)]);
    JoinStep(ms, 0);
    JoinStep(ms, 1);
    assert ms[..2] == ms;
    assert ms[..1] == [ms[0]];
  }

  // ---------------------------------------------------------------------
  // The request head.

  /** The client's settings: API key, host, port and an optional path
      prefix (a null `_path_prefix` is `None`). */
  datatype Config = Config(key: string, host: string, port: int, pathPrefix: Option<string>)

  const USER_AGENT: string := "User-Agent: M2X Energia Client/2.2.0"

  /** The number of decimal digits of `n`. */
  function NumDigits(n: nat): (w: nat)
    ensures w >= 1 && n < M2xTime.Pow10(w)
  {
    if n < 10 then 1 else 1 + NumDigits(n / 10)
  }

  /** `Print::print` of an `int`: a minus sign for a negative value, then
      the decimal digits without leading zeros. */
  function IntText(n: int): string {
    if n < 0 then "-" + M2xTime.Digits(-n, NumDigits(-n)) else M2xTime.Digits(n, NumDigits(n))
  }

  /** The decimal text of a non-negative value reads back as the value. */
  lemma {:induction false} IntTextReadsBack(n: nat)
    ensures IntText(n) == M2xTime.Digits(n, NumDigits(n))
    ensures M2xTime.DecimalValue(IntText(n)) == n
  {
    var w := NumDigits(n);
    var digits := M2xTime.Digits(n, w);
    assert IntText(n) == digits;
    M2xTime.DigitsValue(n, w);
  }

  function Prefix(c: Config): string {
    if c.pathPrefix.Some? then c.pathPrefix.value else ""
  }

  /** The header lines up to and including `Host`. */
  function HostLines(c: Config): string
    requires M2xEncode.IsCString(c.host)
  {
    USER_AGENT + CRLF
      + "X-M2X-KEY: " + c.key + CRLF
      + "Host: " + M2xEncode.PercentEncode(c.host)
      + (if c.port != M2xStatus.DEFAULT_M2X_PORT then ":" + IntText(c.port) else "") + CRLF
  }

  const CONTENT_TYPE: string := "Content-Type: application/json\r\n"

  /** `writeHttpHeader`: the content lines only for a positive length, then
      the blank line. */
  function HttpHeader(c: Config, contentLength: int): string
    requires M2xEncode.IsCString(c.host)
  {
    if contentLength > 0 then WithContent(HostLines(c), contentLength) else HostLines(c) + CRLF
  }

  /** The request line, the head for a body of the given length, and the
      body: what each write request sends after connecting. */
  function Request(c: Config, line: string, body: string): string
    requires M2xEncode.IsCString(c.host)
  {
    line + HttpHeader(c, |body|) + body
  }

  /** The head declares the body it precedes: for a non-empty body, the
      `Content-Length` line sits right after `Content-Type` and is read
      back by the client's own response reader as the body's length; an
      empty body gets no content lines at all. */
  lemma {:induction false} HeaderDeclaresLength(c: Config, body: string)
    requires M2xEncode.IsCString(c.host)
    ensures |body| == 0 ==> HttpHeader(c, |body|) == HostLines(c) + CRLF
    ensures |body| > 0 ==> HttpHeader(c, |body|)[..|HostLines(c)| + |CONTENT_TYPE|] == HostLines(c) + CONTENT_TYPE
    ensures |body| > 0 ==>
              HttpHeader(c, |body|)[|HostLines(c)| + |CONTENT_TYPE|..|HostLines(c)| + |CONTENT_TYPE| + 16] == M2xWait.LENGTH_PREFIX
    ensures |body| > 0 ==> M2xWait.LengthLine(HttpHeader(c, |body|)[|HostLines(c)| + |CONTENT_TYPE| + 16..] + body) == |body|
  {
    if |body| > 0 {
      assert HttpHeader(c, |body|) == WithContent(HostLines(c), |body|);
      ContentLinesShape(HostLines(c), |body|);
      ContentLinesReadBack(HostLines(c), |body|, body);
    }
  }

  /** The `Content-Length` line sits right after `Content-Type` ... */
  lemma {:induction false} ContentLinesShape(head: string, n: nat)
    ensures WithContent(head, n)[..|head| + |CONTENT_TYPE|] == head + CONTENT_TYPE
    ensures WithContent(head, n)[|head| + |CONTENT_TYPE|..|head| + |CONTENT_TYPE| + 16] == M2xWait.LENGTH_PREFIX
  {
    HeadShape(head, CONTENT_TYPE, M2xWait.LENGTH_PREFIX, IntText(n), "");
  }

  /** ... and is read back as the length. */
  lemma {:induction false} ContentLinesReadBack(head: string, n: nat, body: string)
    requires n > 0
    ensures M2xWait.LengthLine(WithContent(head, n)[|head| + |CONTENT_TYPE| + 16..] + body) == n
  {
    var w := NumDigits(n);
    IntTextReadsBack(n);
    HeadShape(head, CONTENT_TYPE, M2xWait.LENGTH_PREFIX, IntText(n), body);
    M2xWait.LengthLineReadsBack(n, w, CRLF + body);
  }

  /** A head with the content lines for a positive length. */
  function WithContent(head: string, n: int): string {
    head + (CONTENT_TYPE + M2xWait.LENGTH_PREFIX + IntText(n) + CRLF) + CRLF
  }

  /** Where the pieces of a head with content lines sit. */
  lemma {:induction false} HeadShape(head: string, contentType: string, prefix: string, digits: string, body: string)
    requires |prefix| == 16
    ensures var h := head + (contentType + prefix + digits + CRLF) + CRLF;
            var k := |head| + |contentType|;
            && h[..k] == head + contentType
            && h[k..k + 16] == prefix
            && h[k + 16..] + body == digits + "\r\n" + (CRLF + body)
  {
    var h := head + (contentType + prefix + digits + CRLF) + CRLF;
    var k := |head| + |contentType|;
    assert h == (head + contentType) + (prefix + (digits + CRLF + CRLF));
    assert h[k + 16..] == digits + CRLF + CRLF;
  }

  /** The request line of `writePutHeader`: the stream name goes into the
      path percent-encoded. */
  function PutLine(c: Config, deviceId: string, streamName: string): string
    requires M2xEncode.IsCString(streamName)
  {
    "PUT " + Prefix(c) + "/v2/devices/" + deviceId + "/streams/" + M2xEncode.PercentEncode(streamName) + "/value HTTP/1.0" + CRLF
  }

  /** The request line of `writeDeleteHeader`. */
  function DeleteLine(c: Config, deviceId: string, streamName: string): string
    requires M2xEncode.IsCString(streamName)
  {
    "DELETE " + Prefix(c) + "/v2/devices/" + deviceId + "/streams/" + M2xEncode.PercentEncode(streamName) + "/values" + " HTTP/1.0" + CRLF
  }

  /** An encoded name is one path segment: it holds no `/`, space, `?` or
      `#`, so it cannot end the segment, the path or the request line. */
  lemma {:induction false} EncodedNameIsOneSegment(name: string)
    requires M2xEncode.IsCString(name)
    ensures forall i :: 0 <= i < |M2xEncode.PercentEncode(name)| ==>
              M2xEncode.PercentEncode(name)[i] !in {'/', ' ', '?', '#', '\r', '\n'}
  {
    var e := M2xEncode.PercentEncode(name);
    forall i | 0 <= i < |e|
      ensures e[i] !in {'/', ' ', '?', '#', '\r', '\n'}
    {
      assert M2xEncode.IsUnreserved(e[i]) || e[i] == '%' || M2xEncode.IsUpperHex(e[i]);
    }
  }

  /** `updateStreamValue`: the head is written with the value's printed
      length plus 12 rather than with a counted body. */
  function UpdateStreamValueRequest(c: Config, deviceId: string, streamName: string, value: string): string
    requires M2xEncode.IsCString(c.host) && M2xEncode.IsCString(streamName)
  {
    PutLine(c, deviceId, streamName) + HttpHeader(c, |value| + 12)
      + ("{\"value\":\"" + value + "\"}")
  }

  /** ... and the constant is right: the request is the `value` object sent
      under a head that declares exactly its length. */
  lemma {:induction false} UpdateStreamValueDeclaresBody(c: Config, deviceId: string, streamName: string, value: string)
    requires M2xEncode.IsCString(c.host) && M2xEncode.IsCString(streamName)
    ensures UpdateStreamValueRequest(c, deviceId, streamName, value)
         == Request(c, PutLine(c, deviceId, streamName), ObjectJson([("value", value)]))
  {
    assert Members([("value", value)]) == [Member("value", value)];
    var body := ObjectJson([("value", value)]);
    assert body == "{\"value\":\"" + value + "\"}";
    assert |body| == |value| + 12;
  }

  /** `m2x_fixed_buffer_filling_callback`: the context string, or nothing
      for a null context. */
  function FixedBufferFill(context: Option<string>): string {
    if context.Some? then context.value else ""
  }

  /** `markCommandProcessedWithData` with a fixed buffer: the callback is
      run once against `NullPrint` for the length and once against the
      connection. */
  function MarkCommandProcessedRequest(c: Config, deviceId: string, commandId: string, context: Option<string>): string
    requires M2xEncode.IsCString(c.host)
  {
    ProcessLine(c, deviceId, commandId) + HttpHeader(c, |FixedBufferFill(context)|) + FixedBufferFill(context)
  }

  /** The request line of `markCommandProcessedWithData`. */
  function ProcessLine(c: Config, deviceId: string, commandId: string): string {
    "POST " + Prefix(c) + "/v2/devices/" + deviceId + "/commands/" + commandId + "/process" + " HTTP/1.0" + CRLF
  }

  /** Without data the request is the request line and a head with no
      content lines; with data it is a request that declares its body. */
  lemma {:induction false} CommandProcessedBody(c: Config, deviceId: string, commandId: string, context: Option<string>)
    requires M2xEncode.IsCString(c.host)
    ensures var line := ProcessLine(c, deviceId, commandId);
            && (context == None ==> MarkCommandProcessedRequest(c, deviceId, commandId, context) == line + HostLines(c) + CRLF)
            && (context.Some? ==> MarkCommandProcessedRequest(c, deviceId, commandId, context) == Request(c, line, context.value))
  {
  }
}
