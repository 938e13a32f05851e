/** The `jsonlite` callbacks that turn the response of the stream-values API
    into one user callback per data point. The JSON parser itself is not
    part of this model: it is represented by the tokens it reports, object
    keys and scalar values, each as its raw text. The state keeps four flags
    (the bits `WAITING_AT`, `GOT_AT`, `WAITING_VALUE` and `GOT_VALUE`), the
    captured timestamp and value text and the index of the next point. */
module M2xStreamParser {
  import opened Common

  /** The capacity of `at_str` and `value_str`, not counting the NUL. */
  const STREAM_BUF_LEN: nat := 32

  datatype Flags = Flags(waitingAt: bool, gotAt: bool, waitingValue: bool, gotValue: bool)

  /** `state = 0`. */
  const Clear: Flags := Flags(false, false, false, false)

  datatype Parser = Parser(flags: Flags, at: string, value: string, index: int)

  /** The user callback's arguments: timestamp, value, index and the token
      type (1 for a string, 2 for a number). */
  datatype Callback = Callback(at: string, value: string, index: int, kind: int)

  /** What the JSON parser reports. */
  datatype Token = Key(text: string) | Scalar(text: string, kind: int)

  /** `readStreamValue` starts with state and index 0; the text buffers
      start with whatever the stack held, which no callback can observe. */
  function Start(at: string, value: string): Parser {
    Parser(Clear, at, value, 0)
  }

  /** The byte at position `i` of a key token: past the key's text comes
      the closing quote of the JSON string. */
  function ByteAt(key: string, i: nat): char {
    if i < |key| then key[i] else '"'
  }

  /** `strncmp(token, word, |word|) == 0`, for a word without quotes. */
  predicate HasPrefix(key: string, word: string) {
    forall i :: 0 <= i < |word| ==> ByteAt(key, i) == word[i]
  }

  /** `on_stream_key_found`. */
  function OnKey(p: Parser, key: string): Parser {
    if HasPrefix(key, "timestamp") then p.(flags := p.flags.(waitingAt := true))
    else if HasPrefix(key, "value") && ByteAt(key, 5) != 's' then p.(flags := p.flags.(waitingValue := true))
    else p
  }

  /** `TEST_IS_AT` and `TEST_IS_VALUE`: waiting, not yet captured. */
  predicate IsAt(f: Flags) {
    f.waitingAt && !f.gotAt
  }

  predicate IsValue(f: Flags) {
    f.waitingValue && !f.gotValue
  }

  /** The `strncpy` into a buffer of `STREAM_BUF_LEN` characters. */
  function Truncate(text: string): (r: string)
    ensures |r| == Min(|text|, STREAM_BUF_LEN) <= STREAM_BUF_LEN
    ensures r == text[..|r|]
  {
    text[..Min(|text|, STREAM_BUF_LEN)]
  }

  function Min(a: int, b: int): int {
    if a < b then a else b
  }

  /** `on_stream_value_found`: capture the token as the timestamp if one is
      awaited, else as the value if one is awaited; once both are
      captured, report them, advance the index and clear the flags. */
  function OnScalar(p: Parser, text: string, kind: int): (Parser, Option<Callback>) {
    var q :=
      if IsAt(p.flags) then p.(at := Truncate(text), flags := p.flags.(gotAt := true))
      else if IsValue(p.flags) then p.(value := Truncate(text), flags := p.flags.(gotValue := true))
      else p;
    if q.flags.gotAt && q.flags.gotValue then
      (q.(flags := Clear, index := q.index + 1), Some(Callback(q.at, q.value, q.index, kind)))
    else (q, None)
  }

  function Step(p: Parser, t: Token): (Parser, Option<Callback>) {
    match t
    case Key(text) => (OnKey(p, text), None)
    case Scalar(text, kind) => OnScalar(p, text, kind)
  }

  /** The state between tokens: nothing is captured without being awaited,
      the two are never both captured (the callback has consumed them),
      and the buffers hold at most `STREAM_BUF_LEN` characters. */
  predicate Valid(p: Parser) {
    (p.flags.gotAt ==> p.flags.waitingAt)
    && (p.flags.gotValue ==> p.flags.waitingValue)
    && !(p.flags.gotAt && p.flags.gotValue)
    && |p.at| <= STREAM_BUF_LEN && |p.value| <= STREAM_BUF_LEN
  }

  /** A key only ever raises a waiting flag: `timestamp...` the timestamp's,
      `value` followed by anything but `s` the value's, so `values` (the
      array around the points) raises neither. */
  lemma {:induction false} KeyRaisesWaitingOnly(p: Parser, key: string)
    ensures var r := OnKey(p, key);
            && r.at == p.at && r.value == p.value && r.index == p.index
            && r.flags.gotAt == p.flags.gotAt && r.flags.gotValue == p.flags.gotValue
            && (r.flags.waitingAt <==> p.flags.waitingAt || HasPrefix(key, "timestamp"))
            && (r.flags.waitingValue <==> p.flags.waitingValue || (!HasPrefix(key, "timestamp") && HasPrefix(key, "value") && ByteAt(key, 5) != 's'))
    ensures OnKey(p, "values") == p
    ensures OnKey(p, "value").flags.waitingValue && OnKey(p, "timestamp").flags.waitingAt
  {
    assert ByteAt("values", 5) == 's';
    assert !HasPrefix("values", "timestamp") by { assert ByteAt("values", 0) != 't'; }
    assert !HasPrefix("value", "timestamp") by { assert ByteAt("value", 0) != 't'; }
    assert HasPrefix("value", "value");
    assert HasPrefix("timestamp", "timestamp");
  }

  /** The callback fires exactly when the token completes the pair; then it
      carries the index, which moves on by one, and the flags clear.
      Otherwise the index stays. A captured text is the token's first
      `STREAM_BUF_LEN` characters. */
  lemma {:induction false} ScalarFiresOnPair(p: Parser, text: string, kind: int)
    requires Valid(p)
    ensures var (r, cb) := OnScalar(p, text, kind);
            && (cb.Some? <==> (IsAt(p.flags) && p.flags.gotValue) || (IsValue(p.flags) && p.flags.gotAt))
            && (cb.Some? ==> r.flags == Clear && r.index == p.index + 1 && cb.value.index == p.index && cb.value.kind == kind)
            && (cb.None? ==> r.index == p.index)
            && (IsAt(p.flags) ==> r.at == Truncate(text) && (cb.Some? ==> cb.value.at == r.at && cb.value.value == p.value))
            && (!IsAt(p.flags) && IsValue(p.flags) ==> r.value == Truncate(text) && (cb.Some? ==> cb.value.value == r.value && cb.value.at == p.at))
            && (!IsAt(p.flags) && !IsValue(p.flags) ==> r == p && cb.None?)
            && Valid(r)
  {
  }

  /** Runs the handlers over a token sequence; the final state and the
      callbacks made, in order. */
  function Run(p: Parser, tokens: seq<Token>): (Parser, seq<Callback>)
    decreases |tokens|
  {
    if |tokens| == 0 then (p, [])
    else
      var (q, cb) := Step(p, tokens[0]);
      var (r, cbs) := Run(q, tokens[1..]);
      (r, (if cb.Some? then [cb.value] else []) + cbs)
  }

  /** The callbacks are numbered consecutively from the starting index, and
      the state stays valid. */
  lemma {:induction false} RunNumbersCallbacks(p: Parser, tokens: seq<Token>)
    requires Valid(p)
    ensures var (r, cbs) := Run(p, tokens);
            && Valid(r)
            && r.index == p.index + |cbs|
            && forall i :: 0 <= i < |cbs| ==> cbs[i].index == p.index + i
    decreases |tokens|
  {
    if |tokens| > 0 {
      var (q, cb) := Step(p, tokens[0]);
      match tokens[0] {
        case Key(text) => KeyRaisesWaitingOnly(p, text);
        case Scalar(text, kind) => ScalarFiresOnPair(p, text, kind);
      }
      RunNumbersCallbacks(q, tokens[1..]);
      var (r, rest) := Run(q, tokens[1..]);
      if cb.Some? {
        var all := [cb.value] + rest;
        assert forall i :: 1 <= i < |all| ==> all[i] == rest[i - 1];
      }
    }
  }

  /** One data point as the server writes it: `{"timestamp": at, "value": v}`. */
  datatype Point = Point(at: string, value: string, kind: int)

  function PointTokens(pt: Point): seq<Token> {
    [Key("timestamp"), Scalar(pt.at, 1), Key("value"), Scalar(pt.value, pt.kind)]
  }

  function PointsTokens(pts: seq<Point>): seq<Token>
    decreases |pts|
  {
    if |pts| == 0 then [] else PointTokens(pts[0]) + PointsTokens(pts[1..])
  }

  /** The callbacks the points should produce: each point's truncated
      timestamp and value, numbered from `index`. */
  function Expected(pts: seq<Point>, index: int): (r: seq<Callback>)
    ensures |r| == |pts|
    decreases |pts|
  {
    if |pts| == 0 then []
    else [Callback(Truncate(pts[0].at), Truncate(pts[0].value), index, pts[0].kind)] + Expected(pts[1..], index + 1)
  }

  /** Four tokens of one point from a cleared state: one callback. */
  lemma {:induction false} OnePoint(p: Parser, pt: Point)
    requires p.flags == Clear
    ensures Run(p, PointTokens(pt)).0 == p.(flags := Clear, index := p.index + 1, at := Truncate(pt.at), value := Truncate(pt.value))
    ensures Run(p, PointTokens(pt)).1 == [Callback(Truncate(pt.at), Truncate(pt.value), p.index, pt.kind)]
  {
    KeyRaisesWaitingOnly(p, "timestamp");
    var p1 := OnKey(p, "timestamp");
    var p2 := OnScalar(p1, pt.at, 1).0;
    assert OnScalar(p1, pt.at, 1).1 == None;
    KeyRaisesWaitingOnly(p2, "value");
    var p3 := OnKey(p2, "value");
    var (p4, cb) := OnScalar(p3, pt.value, pt.kind);
    assert cb == Some(Callback(Truncate(pt.at), Truncate(pt.value), p.index, pt.kind));
    var ts := PointTokens(pt);
    assert ts[1..][1..][1..] == [Scalar(pt.value, pt.kind)];
    assert ts[1..][1..] == [Key("value"), Scalar(pt.value, pt.kind)];
    assert ts[1..] == [Scalar(pt.at, 1), Key("value"), Scalar(pt.value, pt.kind)];
    assert Run(p3, [Scalar(pt.value, pt.kind)]).1 == [cb.value] + [];
    assert Run(p2, ts[1..][1..]).1 == [] + [cb.value];
    assert Run(p1, ts[1..]).1 == [] + [cb.value];
    assert Run(p, ts).1 == [] + [cb.value];
  }

  /** Running over a concatenation is running over each part in turn. */
  lemma {:induction false} RunAppend(p: Parser, a: seq<Token>, b: seq<Token>)
    ensures Run(p, a + b).0 == Run(Run(p, a).0, b).0
    ensures Run(p, a + b).1 == Run(p, a).1 + Run(Run(p, a).0, b).1
    decreases |a|
  {
    if |a| == 0 {
      assert a + b == b;
    } else {
      assert (a + b)[1..] == a[1..] + b;
      var (q, cb) := Step(p, a[0]);
      RunAppend(q, a[1..], b);
      var pre := if cb.Some? then [cb.value] else [];
      var mid := Run(q, a[1..]).1;
      var post := Run(Run(q, a[1..]).0, b).1;
      assert pre + (mid + post) == (pre + mid) + post;
    }
  }

  /** A well-formed response produces exactly one callback per point, with
      the point's timestamp and value cut to the buffer size, in order and
      numbered from the starting index. */
  lemma {:induction false} PointsProduceCallbacks(p: Parser, pts: seq<Point>)
    requires p.flags == Clear
    ensures Run(p, PointsTokens(pts)).0.flags == Clear
    ensures Run(p, PointsTokens(pts)).0.index == p.index + |pts|
    ensures Run(p, PointsTokens(pts)).1 == Expected(pts, p.index)
    decreases |pts|
  {
    if |pts| > 0 {
      var head := PointTokens(pts[0]);
      OnePoint(p, pts[0]);
      RunAppend(p, head, PointsTokens(pts[1..]));
      var q := Run(p, head).0;
      PointsProduceCallbacks(q, pts[1..]);
    }
  }

  /** A member whose key is neither `timestamp...` nor `value...` and
      whose value is a scalar leaves a cleared state alone. */
  lemma {:induction false} OtherMemberIgnored(p: Parser, key: string, text: string, kind: int)
    requires p.flags == Clear
    requires !HasPrefix(key, "timestamp") && !HasPrefix(key, "value")
    ensures Run(p, [Key(key), Scalar(text, kind)]) == (p, [])
  {
    var ts := [Key(key), Scalar(text, kind)];
    assert ts[1..] == [Scalar(text, kind)];
    assert OnKey(p, key) == p;
    assert OnScalar(p, text, kind) == (p, None);
    assert [Scalar(text, kind)][1..] == [];
    assert Run(p, [Scalar(text, kind)]).1 == [] + [];
    assert Run(p, [Scalar(text, kind)]).0 == p;
    assert Run(p, ts).1 == [] + [];
  }

  /** The key test is a prefix test: a key such as `valueAt` raises the
      value's flag as `value` does, and only a following `s` is excluded. */
  lemma {:induction false} KeyTestIsPrefix(p: Parser)
    ensures OnKey(p, "valueAt").flags.waitingValue
    ensures OnKey(p, "timestamps").flags.waitingAt
    ensures !OnKey(Start("", ""), "valuesAt").flags.waitingValue
  {
    assert HasPrefix("valueAt", "value");
    assert !HasPrefix("valueAt", "timestamp") by { assert ByteAt("valueAt", 0) != 't'; }
    assert HasPrefix("timestamps", "timestamp");
    assert ByteAt("valuesAt", 5) == 's';
    assert !HasPrefix("valuesAt", "timestamp") by { assert ByteAt("valuesAt", 0) != 't'; }
  }
}
