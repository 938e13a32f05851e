/** Reading the server's HTTP response. The client reads the response one
    character at a time; everything the server sends before the connection
    closes is modelled as one character sequence `input`, and running out of
    it is the disconnection the polling loops report. */
module M2xWait {
  import opened Common
  import opened M2xStatus
  import M2xTime

  /** `tolower` in the C locale. */
  function ToLower(c: char): (r: char)
    ensures 'A' <= c <= 'Z' ==> r as int == c as int + 32
    ensures !('A' <= c <= 'Z') ==> r == c
  {
    if 'A' <= c <= 'Z' then (c as int + 32) as char else c
  }

  /** When a pattern character accepts an input character: `*` accepts any,
      otherwise equality, of the lower-case forms when matching ignores
      case. */
  predicate CharMatches(p: char, c: char, caseInsensitive: bool) {
    p == '*' || (if caseInsensitive then ToLower(c) == ToLower(p) else c == p)
  }

  /** The outcome of `waitForString`: the pattern was completed after
      reading `pos` characters, or the input ran out first. */
  datatype Wait = Found(pos: nat) | Disconnected

  /** The matcher from the state (`currentIndex` = `idx`, `pos` characters
      read): a match advances the index, a mismatch sets it back to 0
      without looking at the same character again. */
  function Scan(p: string, input: string, ci: bool, idx: nat, pos: nat): Wait
    requires idx < |p| && pos <= |input|
    decreases |input| - pos
  {
    if pos == |input| then Disconnected
    else if CharMatches(p[idx], input[pos], ci) then
      if idx + 1 == |p| then Found(pos + 1) else Scan(p, input, ci, idx + 1, pos + 1)
    else Scan(p, input, ci, 0, pos + 1)
  }

  /** `waitForString`: whenever it succeeds, the characters just read
      match the pattern. */
  function WaitForString(p: string, input: string, ci: bool): (r: Wait)
    ensures |p| == 0 ==> r == Found(0)
    ensures r.Found? ==> MatchEndsAt(p, input, ci, r.pos)
  {
    if |p| == 0 then Found(0)
    else
      ScanSound(p, input, ci, 0, 0);
      Scan(p, input, ci, 0, 0)
  }

  /** The window of `|p|` characters ending at `end` matches `p`. */
  predicate MatchEndsAt(p: string, input: string, ci: bool, end: int) {
    |p| <= end <= |input| && forall k :: 0 <= k < |p| ==> CharMatches(p[k], input[end - |p| + k], ci)
  }

  lemma {:induction false} ScanSound(p: string, input: string, ci: bool, idx: nat, pos: nat)
    requires idx < |p| && idx <= pos <= |input|
    requires forall k :: 0 <= k < idx ==> CharMatches(p[k], input[pos - idx + k], ci)
    ensures Scan(p, input, ci, idx, pos).Found? ==> MatchEndsAt(p, input, ci, Scan(p, input, ci, idx, pos).pos)
    decreases |input| - pos
  {
    if pos < |input| {
      if CharMatches(p[idx], input[pos], ci) {
        if idx + 1 < |p| {
          ScanSound(p, input, ci, idx + 1, pos + 1);
        }
      } else {
        ScanSound(p, input, ci, 0, pos + 1);
      }
    }
  }

  lemma {:induction false} ScanRun(p: string, input: string, ci: bool, idx: nat, start: nat)
    requires idx < |p| && start + |p| <= |input| + idx
    requires forall k :: idx <= k < |p| ==> CharMatches(p[k], input[start + k - idx], ci)
    ensures Scan(p, input, ci, idx, start) == Found(start + |p| - idx)
    decreases |p| - idx
  {
    if idx + 1 < |p| {
      ScanRun(p, input, ci, idx + 1, start + 1);
    }
  }

  /** A response that begins with a match of the pattern is matched there. */
  lemma {:induction false} MatchAtStartFound(p: string, input: string, ci: bool)
    requires MatchEndsAt(p, input, ci, |p|)
    ensures WaitForString(p, input, ci) == Found(|p|)
  {
    if |p| > 0 {
      ScanRun(p, input, ci, 0, 0);
    }
  }

  /** Because a mismatch does not retry the current character, an occurrence
      that overlaps a failed partial match is missed: `aab` is never found in
      `aaab`. */
  lemma {:induction false} OverlapMissed()
    ensures MatchEndsAt("aab", "aaab", false, 4)
    ensures WaitForString("aab", "aaab", false) == Disconnected
  {
    assert Scan("aab", "aaab", false, 0, 3) == Disconnected;
    assert Scan("aab", "aaab", false, 2, 2) == Scan("aab", "aaab", false, 0, 3);
  }

  function LowerAll(s: string): (r: string)
    ensures |r| == |s| && forall i :: 0 <= i < |s| ==> r[i] == ToLower(s[i])
  {
    seq(|s|, i requires 0 <= i < |s| => ToLower(s[i]))
  }

  lemma {:induction false} ScanIgnoresCase(p: string, input: string, idx: nat, pos: nat)
    requires idx < |p| && pos <= |input|
    ensures Scan(p, input, true, idx, pos) == Scan(p, LowerAll(input), true, idx, pos)
    decreases |input| - pos
  {
    if pos < |input| {
      assert ToLower(ToLower(input[pos])) == ToLower(input[pos]);
      ScanIgnoresCase(p, input, 0, pos + 1);
      if idx + 1 < |p| {
        ScanIgnoresCase(p, input, idx + 1, pos + 1);
      }
    }
  }

  /** Matching that ignores case gives the same outcome on a response and
      on its lower-case form. */
  lemma {:induction false} WaitIgnoresCase(p: string, input: string)
    ensures WaitForString(p, input, true) == WaitForString(p, LowerAll(input), true)
  {
    if |p| > 0 {
      ScanIgnoresCase(p, input, 0, 0);
    }
  }

  // ---------------------------------------------------------------------
  // The digit loops.

  /** `result = result * 10 + (c - '0')` over the characters, left to
      right, each read into a plain (signed) `char`; no character is checked
      to be a digit. */
  function Accumulate(acc: int, s: string): int
    decreases |s|
  {
    if |s| == 0 then acc else Accumulate(acc * 10 + (DigitValue(s[0])), s[1..])
  }

  /** The loop computes the decimal value, read from the last digit. */
  lemma {:induction false} AccumulateIsDecimal(acc: int, s: string)
    ensures Accumulate(acc, s) == acc * M2xTime.Pow10(|s|) + M2xTime.DecimalValue(s)
    decreases |s|
  {
    if |s| > 0 {
      var d := DigitValue(s[0]);
      var p := M2xTime.Pow10(|s| - 1);
      var rest := M2xTime.DecimalValue(s[1..]);
      assert Accumulate(acc, s) == Accumulate(acc * 10 + d, s[1..]);
      AccumulateIsDecimal(acc * 10 + d, s[1..]);
      DecimalCons(s);
      assert M2xTime.Pow10(|s|) == 10 * p;
      Distribute(acc, d, p, rest);
    }
  }

  /** The decimal value of a string with its first digit split off. */
  lemma {:induction false} DecimalCons(s: string)
    requires |s| > 0
    ensures M2xTime.DecimalValue(s)
         == DigitValue(s[0]) * M2xTime.Pow10(|s| - 1) + M2xTime.DecimalValue(s[1..])
    decreases |s|
  {
    if |s| > 1 {
      var init := s[..|s| - 1];
      var d0, dl := DigitValue(s[0]), DigitValue(s[|s| - 1]);
      var p := M2xTime.Pow10(|s| - 2);
      var mid := M2xTime.DecimalValue(init[1..]);
      DecimalCons(init);
      assert init[0] == s[0];
      assert M2xTime.DecimalValue(init) == d0 * p + mid;
      assert init[1..] == s[1..][..|s[1..]| - 1];
      assert s[1..][|s[1..]| - 1] == s[|s| - 1];
      assert M2xTime.DecimalValue(s[1..]) == mid * 10 + dl;
      assert M2xTime.DecimalValue(s) == M2xTime.DecimalValue(init) * 10 + dl;
      assert M2xTime.Pow10(|s| - 1) == 10 * p;
      Regroup(d0, p, mid, dl);
    } else {
      assert s[1..] == [];
      assert s[..0] == [];
      assert M2xTime.DecimalValue(s) == M2xTime.DecimalValue(s[..0]) * 10 + DigitValue(s[0]);
    }
  }

  lemma Distribute(a: int, d: int, p: int, r: int)
    ensures (a * 10 + d) * p + r == a * (10 * p) + (d * p + r)
  {
  }

  lemma Regroup(a: int, p: int, m: int, l: int)
    ensures (a * p + m) * 10 + l == a * (10 * p) + (m * 10 + l)
  {
  }

  const STATUS_PREFIX: string := "HTTP/*.* "

  /** `readStatusCode`: the three characters after `HTTP/x.y ` read as a
      number, or `E_DISCONNECTED` when the response ends first. */
  function ReadStatusCode(input: string, ci: bool): (r: int)
    ensures WaitForString(STATUS_PREFIX, input, ci).Disconnected? ==> r == E_DISCONNECTED
    ensures WaitForString(STATUS_PREFIX, input, ci).Found? ==>
              var n := WaitForString(STATUS_PREFIX, input, ci).pos;
              r == if n + 3 <= |input| then M2xTime.DecimalValue(input[n..n + 3]) else E_DISCONNECTED
  {
    match WaitForString(STATUS_PREFIX, input, ci)
    case Disconnected => E_DISCONNECTED
    case Found(n) =>
      if n + 3 <= |input| then
        AccumulateIsDecimal(0, input[n..n + 3]);
        Accumulate(0, input[n..n + 3])
      else E_DISCONNECTED
  }

  /** A status line the server writes as `HTTP/1.1 ` and three digits is
      read back as the status it carries. */
  lemma {:induction false} StatusLineReadsBack(version: string, code: nat, rest: string, ci: bool)
    requires |version| == 3 && version[1] == '.'
    requires 100 <= code < 1000
    ensures ReadStatusCode("HTTP/" + version + " " + M2xTime.Digits(code, 3) + rest, ci) == code
  {
    var line := "HTTP/" + version + " " + M2xTime.Digits(code, 3) + rest;
    assert MatchEndsAt(STATUS_PREFIX, line, ci, 9) by {
      forall k | 0 <= k < 9
        ensures CharMatches(STATUS_PREFIX[k], line[k], ci)
      {
        if k != 5 && k != 7 {
          assert STATUS_PREFIX[k] == line[k];
        }
      }
    }
    MatchAtStartFound(STATUS_PREFIX, line, ci);
    assert line[9..12] == M2xTime.Digits(code, 3);
    AccumulateIsDecimal(0, line[9..12]);
    assert M2xTime.Pow10(3) == 1000;
    M2xTime.DigitsValue(code, 3);
  }

  /** A byte of 0x80 or above among the three status characters counts as
      a negative `char`: `HTTP/1.1 2\u00E90` (0xE9 is -23) reads as
      (2 * 10 + (-23 - 48)) * 10 + 0 = -510. */
  lemma {:induction false} HighByteReadSigned(ci: bool)
    ensures ReadStatusCode("HTTP/1.1 " + ['2', 0xE9 as char, '0'] + " ", ci) == -510
  {
    var line := "HTTP/1.1 " + ['2', 0xE9 as char, '0'] + " ";
    assert MatchEndsAt(STATUS_PREFIX, line, ci, 9) by {
      forall k | 0 <= k < 9
        ensures CharMatches(STATUS_PREFIX[k], line[k], ci)
      {
        if k != 5 && k != 7 {
          assert STATUS_PREFIX[k] == line[k];
        }
      }
    }
    MatchAtStartFound(STATUS_PREFIX, line, ci);
    var code := line[9..12];
    assert code == ['2', 0xE9 as char, '0'];
    assert code[..2] == ['2', 0xE9 as char];
    assert code[..2][..1] == ['2'];
    assert code[..2][..1][..0] == [];
    assert DigitValue(0xE9 as char) == -71;
    assert M2xTime.DecimalValue(code[..2][..1]) == 2;
    assert M2xTime.DecimalValue(code[..2]) == -51;
  }

  /** Three digits read as a value from 0 to 999. */
  lemma {:induction false} StatusCodeRange(input: string, ci: bool)
    requires WaitForString(STATUS_PREFIX, input, ci).Found?
    requires var n := WaitForString(STATUS_PREFIX, input, ci).pos;
             n + 3 <= |input| && forall k :: n <= k < n + 3 ==> '0' <= input[k] <= '9'
    ensures 0 <= ReadStatusCode(input, ci) <= 999
  {
    var n := WaitForString(STATUS_PREFIX, input, ci).pos;
    var s := input[n..n + 3];
    var d0, d1, d2 := DigitValue(s[0]), DigitValue(s[1]), DigitValue(s[2]);
    assert s[1..][1..][1..] == [];
    assert Accumulate(d0 * 10 + d1, s[1..][1..]) == (d0 * 10 + d1) * 10 + d2;
    assert Accumulate(d0, s[1..]) == (d0 * 10 + d1) * 10 + d2;
    assert Accumulate(0, s) == (d0 * 10 + d1) * 10 + d2;
  }

  const LENGTH_PREFIX: string := "Content-Length: "

  /** The outcome of `readContentLength`. */
  function ContentLengthOf(digits: string): (r: int)
    ensures r == if M2xTime.DecimalValue(digits) == 0 then E_INVALID else M2xTime.DecimalValue(digits)
  {
    AccumulateIsDecimal(0, digits);
    var v := Accumulate(0, digits);
    if v == 0 then E_INVALID else v
  }

  /** `readContentLength`: after `Content-Length: `, digits up to the first
      CR or LF; a value of 0 is `E_INVALID`, and a response that ends before
      the line does is `E_DISCONNECTED`. */
  method ReadContentLength(input: string, ci: bool) returns (r: int)
    ensures WaitForString(LENGTH_PREFIX, input, ci).Disconnected? ==> r == E_DISCONNECTED
    ensures WaitForString(LENGTH_PREFIX, input, ci).Found? ==>
              r == LengthLine(input[WaitForString(LENGTH_PREFIX, input, ci).pos..])
  {
    var w := WaitForString(LENGTH_PREFIX, input, ci);
    if w.Disconnected? {
      return E_DISCONNECTED;
    }
    var i := w.pos;
    var ret := 0;
    while i < |input|
      invariant w.pos <= i <= |input|
      invariant forall k :: w.pos <= k < i ==> !IsEol(input[k])
      invariant ret == Accumulate(0, input[w.pos..i])
    {
      var c := input[i];
      if IsEol(c) {
        FirstEolAt(input[w.pos..], i - w.pos);
        assert input[w.pos..][..i - w.pos] == input[w.pos..i];
        return if ret == 0 then E_INVALID else ret;
      }
      AccumulateSnoc(0, input[w.pos..i], c);
      assert input[w.pos..i + 1] == input[w.pos..i] + [c];
      ret := ret * 10 + (DigitValue(c));
      i := i + 1;
    }
    return E_DISCONNECTED;
  }

  /** What follows `Content-Length: ` read as a length: the digits before
      the first CR or LF, or `E_DISCONNECTED` when there is no line end. */
  function LengthLine(rest: string): int {
    if exists k :: 0 <= k < |rest| && IsEol(rest[k]) then ContentLengthOf(rest[..FirstEol(rest)])
    else E_DISCONNECTED
  }

  predicate IsEol(c: char) {
    c == '\r' || c == '\n'
  }

  /** The position of the first CR or LF. */
  function FirstEol(s: string): (k: nat)
    requires exists k :: 0 <= k < |s| && IsEol(s[k])
    ensures k < |s| && IsEol(s[k]) && forall j :: 0 <= j < k ==> !IsEol(s[j])
    decreases |s|
  {
    if IsEol(s[0]) then 0
    else
      var k :| 0 <= k < |s| && IsEol(s[k]);
      assert IsEol(s[1..][k - 1]);
      1 + FirstEol(s[1..])
  }

  lemma {:induction false} FirstEolAt(s: string, k: nat)
    requires k < |s| && IsEol(s[k]) && forall j :: 0 <= j < k ==> !IsEol(s[j])
    ensures FirstEol(s) == k
  {
  }

  lemma {:induction false} AccumulateSnoc(acc: int, s: string, c: char)
    ensures Accumulate(acc, s + [c]) == Accumulate(acc, s) * 10 + (DigitValue(c))
    decreases |s|
  {
    if |s| == 0 {
      assert s + [c] == [c];
    } else {
      assert (s + [c])[1..] == s[1..] + [c];
      AccumulateSnoc(acc * 10 + (DigitValue(s[0])), s[1..], c);
    }
  }

  /** A `Content-Length` line at the start of the response is read back as
      the length it carries, and a length of 0 is refused. */
  lemma {:induction false} ContentLengthReadsBack(len: nat, width: nat, rest: string, ci: bool)
    requires len < M2xTime.Pow10(width)
    ensures var input := LENGTH_PREFIX + M2xTime.Digits(len, width) + "\r\n" + rest;
            WaitForString(LENGTH_PREFIX, input, ci) == Found(|LENGTH_PREFIX|)
            && LengthLine(input[|LENGTH_PREFIX|..]) == if len == 0 then E_INVALID else len
  {
    var digits := M2xTime.Digits(len, width);
    var input := LENGTH_PREFIX + digits + "\r\n" + rest;
    assert MatchEndsAt(LENGTH_PREFIX, input, ci, |LENGTH_PREFIX|) by {
      forall k | 0 <= k < |LENGTH_PREFIX|
        ensures CharMatches(LENGTH_PREFIX[k], input[k], ci)
      {
        assert input[k] == LENGTH_PREFIX[k];
      }
    }
    MatchAtStartFound(LENGTH_PREFIX, input, ci);
    assert input[|LENGTH_PREFIX|..] == digits + "\r\n" + rest;
    LengthLineReadsBack(len, width, rest);
  }

  /** The digits of a length, then a line end: read as the length. */
  lemma {:induction false} LengthLineReadsBack(len: nat, width: nat, rest: string)
    requires len < M2xTime.Pow10(width)
    ensures LengthLine(M2xTime.Digits(len, width) + "\r\n" + rest) == if len == 0 then E_INVALID else len
  {
    var digits := M2xTime.Digits(len, width);
    var tail := digits + "\r\n" + rest;
    assert IsEol(tail[width]);
    FirstEolAt(tail, width);
    assert tail[..width] == digits;
    AccumulateIsDecimal(0, digits);
    M2xTime.DigitsValue(len, width);
  }

  /** `skipHttpHeader`: the blank line that ends the header. */
  function SkipHttpHeader(input: string, ci: bool): (r: Wait)
    ensures r.Found? ==> 3 <= r.pos <= |input| && input[r.pos - 3..r.pos] == "\n\r\n"
  {
    var r := WaitForString("\n\r\n", input, ci);
    if r.Found? then
      assert forall k :: 0 <= k < 3 ==> input[r.pos - 3..r.pos][k] == "\n\r\n"[k];
      r
    else r
  }

  /** `getTimestamp32`: on status 200 the `length` characters the server
      returned are read as a number. */
  method GetTimestamp32(status: int, buffer: string, length: nat) returns (r: int, ts: Option<int>)
    requires length <= |buffer|
    ensures r == status
    ensures status != 200 ==> ts == None
    ensures status == 200 ==> ts == Some(M2xTime.DecimalValue(buffer[..length]))
  {
    r := status;
    if status != 200 {
      return r, None;
    }
    var result := 0;
    var i := 0;
    while i < length
      invariant 0 <= i <= length
      invariant result == M2xTime.DecimalValue(buffer[..i])
    {
      assert buffer[..i + 1][..i] == buffer[..i];
      result := result * 10 + (DigitValue(buffer[i]));
      i := i + 1;
    }
    ts := Some(result);
  }
}
