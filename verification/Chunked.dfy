/**
 * Chunked transfer coding (RFC 9112, section 7.1): the writer, and the reader over a stream that
 * arrives in fragments of any size.
 */
module Chunked {
  import opened Wire
  import opened Text

  const CR: byte := 0x0D
  const LF: byte := 0x0A
  const CRLF: seq<byte> := [CR, LF]
  const USIZE_LIMIT: nat := 0x1_0000_0000_0000_0000

  /** What one `read` into a buffer of 4096 bytes delivers; end of stream is the end of the list. */
  type Fragment = s: seq<byte> | 0 < |s| <= 4096 witness [0]

  // ---- Searching -------------------------------------------------------------------------------

  predicate CrlfAt(b: seq<byte>, i: nat) {
    i + 2 <= |b| && b[i] == CR && b[i + 1] == LF
  }

  predicate BlankAt(b: seq<byte>, i: nat) {
    CrlfAt(b, i) && CrlfAt(b, i + 2)
  }

  /** First position of CR LF. */
  function FindCrlf(b: seq<byte>): (r: Option<nat>)
    ensures r.Some? ==> CrlfAt(b, r.value) && forall j :: 0 <= j < r.value ==> !CrlfAt(b, j)
    ensures r.None? ==> forall j: nat :: !CrlfAt(b, j)
  {
    FindCrlfFrom(b, 0)
  }

  function FindCrlfFrom(b: seq<byte>, i: nat): (r: Option<nat>)
    requires i <= |b|
    ensures r.Some? ==> i <= r.value && CrlfAt(b, r.value) && forall j :: i <= j < r.value ==> !CrlfAt(b, j)
    ensures r.None? ==> forall j: nat :: i <= j ==> !CrlfAt(b, j)
    decreases |b| - i
  {
    if i + 2 > |b| then None else if CrlfAt(b, i) then Some(i) else FindCrlfFrom(b, i + 1)
  }

  /** First position of CR LF CR LF. */
  function FindBlank(b: seq<byte>, i: nat): (r: Option<nat>)
    requires i <= |b|
    ensures r.Some? ==> i <= r.value && BlankAt(b, r.value) && forall j :: i <= j < r.value ==> !BlankAt(b, j)
    ensures r.None? ==> forall j: nat :: i <= j ==> !BlankAt(b, j)
    decreases |b| - i
  {
    if i + 4 > |b| then None else if BlankAt(b, i) then Some(i) else FindBlank(b, i + 1)
  }

  // ---- Sizes -----------------------------------------------------------------------------------

  function HexDigit(n: nat): byte
    requires n < 16
  {
    if n < 10 then 0x30 + n else 0x61 + n - 10
  }

  /** `format!("{:x}")` */
  function Hex(n: nat): (s: seq<byte>)
    ensures |s| > 0
  {
    if n < 16 then [HexDigit(n)] else Hex(n / 16) + [HexDigit(n % 16)]
  }

  function DigitValue(b: byte): Option<nat> {
    if 0x30 <= b <= 0x39 then Some(b - 0x30)
    else if 0x61 <= b <= 0x66 then Some(b - 0x61 + 10)
    else if 0x41 <= b <= 0x46 then Some(b - 0x41 + 10)
    else None
  }

  function HexValue(s: seq<byte>): Option<nat> {
    if s == [] then Some(0)
    else
      var front, d := HexValue(s[..|s| - 1]), DigitValue(s[|s| - 1]);
      if front.None? || d.None? then None else Some(16 * front.value + d.value)
  }

  /** `usize::from_str_radix(s, 16)`: an optional plus sign, at least one digit, no overflow. */
  function ParseHex(s: seq<byte>): Option<nat> {
    var digits := if s != [] && s[0] == 0x2B then s[1..] else s;
    if digits == [] then None
    else
      var v := HexValue(digits);
      if v.None? || v.value >= USIZE_LIMIT then None else v
  }

  /** Length of the white-space character at the front, zero if there is none. */
  function SpaceAtFront(s: Text): (n: nat)
    ensures n <= |s|
  {
    if |s| >= 1 && (0x09 <= s[0] <= 0x0D || s[0] == 0x20) then 1
    else if |s| >= 2 && s[0] == 0xC2 && (s[1] == 0x85 || s[1] == 0xA0) then 2
    else if |s| >= 3 && WideSpace(s[0], s[1], s[2]) then 3
    else 0
  }

  function SpaceAtBack(s: Text): (n: nat)
    ensures n <= |s|
  {
    var k := |s|;
    if k >= 1 && (0x09 <= s[k - 1] <= 0x0D || s[k - 1] == 0x20) then 1
    else if k >= 2 && s[k - 2] == 0xC2 && (s[k - 1] == 0x85 || s[k - 1] == 0xA0) then 2
    else if k >= 3 && WideSpace(s[k - 3], s[k - 2], s[k - 1]) then 3
    else 0
  }

  /** The three-byte characters with the Unicode property White_Space. */
  predicate WideSpace(a: byte, b: byte, c: byte) {
    || (a == 0xE1 && b == 0x9A && c == 0x80)
    || (a == 0xE2 && b == 0x80 && (0x80 <= c <= 0x8A || c == 0xA8 || c == 0xA9 || c == 0xAF))
    || (a == 0xE2 && b == 0x81 && c == 0x9F)
    || (a == 0xE3 && b == 0x80 && c == 0x80)
  }

  function Trim(s: Text): Text
    decreases |s|
  {
    if SpaceAtFront(s) > 0 then Trim(s[SpaceAtFront(s)..])
    else if SpaceAtBack(s) > 0 then Trim(s[..|s| - SpaceAtBack(s)])
    else s
  }

  /** `split(';').next()` */
  function BeforeSemicolon(s: Text): Text {
    if s == [] || s[0] == 0x3B then [] else [s[0]] + BeforeSemicolon(s[1..])
  }

  /** The size in a chunk line; extensions are ignored. */
  function ParseSize(line: seq<byte>): Option<nat> {
    if !IsUtf8(line) then None else ParseHex(Trim(BeforeSemicolon(line)))
  }

  predicate AllHex(s: seq<byte>) {
    forall i :: 0 <= i < |s| ==> 0x30 <= s[i] <= 0x39 || 0x61 <= s[i] <= 0x66
  }

  lemma {:induction false} HexRoundTrip(n: nat)
    ensures HexValue(Hex(n)) == Some(n) && AllHex(Hex(n))
    decreases n
  {
    var s := Hex(n);
    if n < 16 {
      assert s[..0] == [];
      assert HexValue([]) == Some(0);
    } else {
      HexRoundTrip(n / 16);
      assert s[..|s| - 1] == Hex(n / 16);
    }
  }

  lemma {:induction false} HexIsPlain(s: seq<byte>)
    requires AllHex(s)
    ensures BeforeSemicolon(s) == s && IsUtf8(s)
    decreases |s|
  {
    if s != [] {
      HexIsPlain(s[1..]);
      assert CharLength(s) == 1;
      assert [s[0]] + s[1..] == s;
    }
  }

  /** The reader understands every size the writer writes. */
  lemma {:induction false} SizeRoundTrip(n: nat)
    requires n < USIZE_LIMIT
    ensures ParseSize(Hex(n)) == Some(n)
  {
    hide IsUtf8, BeforeSemicolon, Trim, Hex, AllHex, HexValue;
    HexRoundTrip(n);
    HexIsPlain(Hex(n));
    HexIsTrimmed(Hex(n));
  }

  lemma {:induction false} HexIsTrimmed(s: seq<byte>)
    requires AllHex(s) && s != []
    ensures Trim(s) == s && s[0] != 0x2B
  {
    assert SpaceAtFront(s) == 0 && SpaceAtBack(s) == 0;
  }

  // ---- Writing ---------------------------------------------------------------------------------

  /** `write_chunk` */
  function EncodeChunk(data: seq<byte>): seq<byte> {
    Hex(|data|) + CRLF + data + CRLF
  }

  function EncodeChunks(chunks: seq<seq<byte>>): seq<byte> {
    if chunks == [] then [] else EncodeChunk(chunks[0]) + EncodeChunks(chunks[1..])
  }

  /** `write_last_chunk` */
  const LAST_CHUNK: seq<byte> := [0x30] + CRLF + CRLF

  function Flat(pieces: seq<seq<byte>>): seq<byte> {
    if pieces == [] then [] else pieces[0] + Flat(pieces[1..])
  }

  // ---- Reading, on values ----------------------------------------------------------------------

  /** `Panicked` is a slice that reaches beyond the buffer. */
  datatype Outcome =
    | Done(body: seq<byte>, leftover: seq<byte>, unread: seq<Fragment>)
    | Truncated
    | BadSize
    | Panicked

  /** `size + 2` in a word. */
  function Need(size: nat): nat {
    (size + 2) % USIZE_LIMIT
  }

  /** Read until the buffer contains CR LF or the stream ends. */
  function FillLine(buf: seq<byte>, frags: seq<Fragment>): (r: (seq<byte>, seq<Fragment>))
    ensures r.0 + Flat(r.1) == buf + Flat(frags)
    ensures FindCrlf(r.0).Some? || r.1 == []
    decreases |frags|
  {
    if FindCrlf(buf).Some? || frags == [] then (buf, frags)
    else
      assert buf + frags[0] + Flat(frags[1..]) == buf + Flat(frags);
      FillLine(buf + frags[0], frags[1..])
  }

  /** Read until the buffer holds `n` bytes or the stream ends. */
  function FillTo(buf: seq<byte>, frags: seq<Fragment>, n: nat): (r: (seq<byte>, seq<Fragment>))
    ensures r.0 + Flat(r.1) == buf + Flat(frags)
    ensures |r.0| >= n || r.1 == []
    decreases |frags|
  {
    if |buf| >= n || frags == [] then (buf, frags)
    else
      assert buf + frags[0] + Flat(frags[1..]) == buf + Flat(frags);
      FillTo(buf + frags[0], frags[1..], n)
  }

  /** Read until the buffer contains an empty line or the stream ends. */
  function FillBlank(buf: seq<byte>, frags: seq<Fragment>): (r: (seq<byte>, seq<Fragment>))
    ensures r.0 + Flat(r.1) == buf + Flat(frags)
    ensures FindBlank(r.0, 0).Some? || r.1 == []
    decreases |frags|
  {
    if FindBlank(buf, 0).Some? || frags == [] then (buf, frags)
    else
      assert buf + frags[0] + Flat(frags[1..]) == buf + Flat(frags);
      FillBlank(buf + frags[0], frags[1..])
  }

  /** What follows the zero-size line: the final CR LF if it is already there, else a search for an empty line. */
  function Finish(buf: seq<byte>, frags: seq<Fragment>, body: seq<byte>): Outcome {
    if CrlfAt(buf, 0) then Done(body, buf[2..], frags)
    else
      var (b, f) := FillBlank(buf, frags);
      var p := FindBlank(b, 0);
      if p.Some? then Done(body, b[p.value + 4..], f) else Done(body, [], f)
  }

  /** `read_chunked_body`, from any point of its outer loop. */
  function ReadFrom(buf: seq<byte>, frags: seq<Fragment>, body: seq<byte>): Outcome
    decreases |buf + Flat(frags)|
  {
    var (b, f) := FillLine(buf, frags);
    var k := FindCrlf(b);
    if k.None? then Truncated
    else
      var size := ParseSize(b[..k.value]);
      if size.None? then BadSize
      else
        var rest := b[k.value + 2..];
        if size.value == 0 then Finish(rest, f, body)
        else
          var (b1, f1) := FillTo(rest, f, Need(size.value));
          if |b1| < Need(size.value) then Truncated
          else if |b1| < size.value then Panicked
          else
            assert |b + Flat(f)| == k.value + 2 + |rest + Flat(f)|;
            assert |b1[Need(size.value)..] + Flat(f1)| <= |b1 + Flat(f1)|;
            ReadFrom(b1[Need(size.value)..], f1, body + b1[..size.value])
  }

  // ---- Reading, as the program does --------------------------------------------------------------

  class Stream {
    var pending: seq<Fragment>

    constructor (pending: seq<Fragment>)
      ensures this.pending == pending
    {
      this.pending := pending;
    }

    /** One `read`: the next fragment, or nothing at the end of the stream. */
    method Read() returns (bytes: seq<byte>)
      modifies this
      ensures if old(pending) == [] then bytes == [] && pending == []
              else bytes == old(pending)[0] && pending == old(pending)[1..]
    {
      if pending == [] {
        return [];
      }
      bytes := pending[0];
      pending := pending[1..];
    }
  }

  method FinishLoop(stream: Stream, rest: seq<byte>, body: seq<byte>) returns (r: Outcome)
    modifies stream
    ensures r == Finish(rest, old(stream.pending), body)
    ensures r.Done? && stream.pending == r.unread
  {
    var buf := rest;
    if CrlfAt(buf, 0) {
      return Done(body, buf[2..], stream.pending);
    }
    while FindBlank(buf, 0).None?
      invariant FillBlank(buf, stream.pending) == FillBlank(rest, old(stream.pending))
      decreases |stream.pending|
    {
      var bytes := stream.Read();
      if bytes == [] {
        break;
      }
      buf := buf + bytes;
    }
    var pos := FindBlank(buf, 0);
    if pos.Some? {
      return Done(body, buf[pos.value + 4..], stream.pending);
    }
    return Done(body, [], stream.pending);
  }

  /** The loops of `read_chunked_body`. */
  method ReadChunkedBody(stream: Stream, prefix: seq<byte>) returns (r: Outcome)
    modifies stream
    ensures r == ReadFrom(prefix, old(stream.pending), [])
    ensures r.Done? ==> stream.pending == r.unread
  {
    hide Finish, ParseSize, FindCrlf, Need;
    var buf := prefix;
    var body: seq<byte> := [];
    ghost var whole := ReadFrom(prefix, stream.pending, []);
    while true
      invariant ReadFrom(buf, stream.pending, body) == whole
      decreases |buf + Flat(stream.pending)|
    {
      ghost var start, frags := buf, stream.pending;
      while FindCrlf(buf).None?
        invariant FillLine(buf, stream.pending) == FillLine(start, frags)
        decreases |stream.pending|
      {
        var bytes := stream.Read();
        if bytes == [] {
          return Truncated;
        }
        buf := buf + bytes;
      }
      var lineEnd := FindCrlf(buf).value;
      var size := ParseSize(buf[..lineEnd]);
      if size.None? {
        return BadSize;
      }
      buf := buf[lineEnd + 2..];
      if size.value == 0 {
        r := FinishLoop(stream, buf, body);
        return;
      }
      ghost var line, left := buf, stream.pending;
      var need := Need(size.value);
      while |buf| < need
        invariant FillTo(buf, stream.pending, need) == FillTo(line, left, need)
        decreases |stream.pending|
      {
        var bytes := stream.Read();
        if bytes == [] {
          return Truncated;
        }
        buf := buf + bytes;
      }
      if |buf| < size.value {
        return Panicked;
      }
      body := body + buf[..size.value];
      buf := buf[need..];
    }
  }

  // ---- Round trip ----------------------------------------------------------------------------------

  /** Some read, the bytes already buffered counting as the first, ends after exactly `p` bytes. */
  predicate Boundary(n: nat, frags: seq<Fragment>, p: nat)
    decreases |frags|
  {
    n == p || (frags != [] && Boundary(n + |frags[0]|, frags[1..], p))
  }

  /** Reading up to `n` never crosses a boundary at or behind `n`. */
  lemma {:induction false} FillKeepsBoundary(buf: seq<byte>, frags: seq<Fragment>, n: nat, p: nat)
    requires n <= p
    ensures var (b, f) := FillTo(buf, frags, n);
            |b| >= |buf| && (Boundary(|buf|, frags, p) <==> Boundary(|b|, f, p))
    decreases |frags|
  {
    if !(|buf| >= n || frags == []) {
      FillKeepsBoundary(buf + frags[0], frags[1..], n, p);
    }
  }

  lemma {:induction false} BoundaryShift(n: nat, frags: seq<Fragment>, p: nat, c: nat)
    requires c <= n && c <= p
    ensures Boundary(n, frags, p) <==> Boundary(n - c, frags, p - c)
    decreases |frags|
  {
    if frags != [] {
      BoundaryShift(n + |frags[0]|, frags[1..], p, c);
    }
  }

  lemma {:induction false} BoundaryPast(n: nat, frags: seq<Fragment>, p: nat)
    requires p < n
    ensures !Boundary(n, frags, p)
    decreases |frags|
  {
    if frags != [] {
      BoundaryPast(n + |frags[0]|, frags[1..], p);
    }
  }

  /** A prefix of `line CR LF ...` contains CR LF exactly when it reaches the end of the line. */
  lemma {:induction false} LineComplete(b: seq<byte>, more: seq<byte>, line: seq<byte>, rest: seq<byte>)
    requires b + more == line + CRLF + rest && CR !in line
    ensures FindCrlf(b).Some? <==> |b| >= |line| + 2
    ensures FindCrlf(b).Some? ==> FindCrlf(b).value == |line| && b[..|line|] == line
    ensures |b| >= |line| + 2 ==> b[|line| + 2..] + more == rest
  {
    hide FindCrlf;
    var s := line + CRLF + rest;
    assert forall i :: 0 <= i < |b| ==> b[i] == s[i] by {
      forall i | 0 <= i < |b| ensures b[i] == s[i] {
        assert (b + more)[i] == b[i];
      }
    }
    forall i | 0 <= i < |line| ensures i < |b| ==> b[i] != CR {
      assert s[i] == line[i];
    }
    if |b| >= |line| + 2 {
      assert CrlfAt(b, |line|);
      assert b[|line| + 2..] + more == s[|line| + 2..];
    }
  }

  lemma {:induction false} FillLineIsFillTo(b: seq<byte>, frags: seq<Fragment>, line: seq<byte>, rest: seq<byte>)
    requires b + Flat(frags) == line + CRLF + rest && CR !in line
    ensures FillLine(b, frags) == FillTo(b, frags, |line| + 2)
    decreases |frags|
  {
    hide FindCrlf;
    LineComplete(b, Flat(frags), line, rest);
    if |b| < |line| + 2 && frags != [] {
      assert b + frags[0] + Flat(frags[1..]) == b + Flat(frags);
      FillLineIsFillTo(b + frags[0], frags[1..], line, rest);
    }
  }

  /** One size line: the line is found, and the boundaries behind it are the same, counted from its end. */
  lemma {:induction false} ReadLine(buf: seq<byte>, frags: seq<Fragment>, line: seq<byte>, rest: seq<byte>, p: nat)
    requires buf + Flat(frags) == line + CRLF + rest && CR !in line && p >= |line| + 2
    ensures var (b, f) := FillLine(buf, frags);
            && FindCrlf(b) == Some(|line|) && b[..|line|] == line
            && |b| >= |line| + 2 && b[|line| + 2..] + Flat(f) == rest
            && (Boundary(|buf|, frags, p) <==> Boundary(|b| - |line| - 2, f, p - |line| - 2))
  {
    hide FindCrlf, Boundary;
    var (b, f) := FillLine(buf, frags);
    FillLineIsFillTo(buf, frags, line, rest);
    assert |b| >= |line| + 2 by {
      if f == [] {
        assert |b + Flat(f)| == |line + CRLF + rest|;
      }
    }
    LineComplete(b, Flat(f), line, rest);
    FillKeepsBoundary(buf, frags, |line| + 2, p);
    BoundaryShift(|b|, f, p, |line| + 2);
  }

  /** One chunk's data and its CR LF. */
  lemma {:induction false} ReadData(buf: seq<byte>, frags: seq<Fragment>, data: seq<byte>, rest: seq<byte>, p: nat)
    requires buf + Flat(frags) == data + CRLF + rest && p >= |data| + 2
    ensures var (b, f) := FillTo(buf, frags, |data| + 2);
            && |b| >= |data| + 2 && b[..|data|] == data && b[|data| + 2..] + Flat(f) == rest
            && (Boundary(|buf|, frags, p) <==> Boundary(|b| - |data| - 2, f, p - |data| - 2))
  {
    hide Boundary;
    var (b, f) := FillTo(buf, frags, |data| + 2);
    var s := data + CRLF + rest;
    assert b + Flat(f) == s;
    assert |b| >= |data| + 2 by {
      if f == [] {
        assert |b + Flat(f)| == |s|;
      }
    }
    assert b[..|data|] == (b + Flat(f))[..|data|] == s[..|data|];
    assert b[|data| + 2..] + Flat(f) == (b + Flat(f))[|data| + 2..] == s[|data| + 2..];
    FillKeepsBoundary(buf, frags, |data| + 2, p);
    BoundaryShift(|b|, f, p, |data| + 2);
  }

  lemma {:induction false} HexHasNoCr(n: nat)
    ensures CR !in Hex(n)
  {
    HexRoundTrip(n);
  }

  /** The end of the body, from the point where the zero-size line has been consumed. */
  lemma {:induction false} FinishExactly(buf: seq<byte>, frags: seq<Fragment>, body: seq<byte>, rest: seq<byte>)
    requires buf + Flat(frags) == CRLF + rest
    ensures var r := Finish(buf, frags, body);
            && r.Done? && r.body == body
            && (r.leftover + Flat(r.unread) == rest <==>
                  (!Boundary(|buf|, frags, 0) && !Boundary(|buf|, frags, 1)) || rest == [])
  {
    hide FindBlank;
    var s := CRLF + rest;
    if |buf| >= 2 {
      BoundaryPast(|buf|, frags, 0);
      BoundaryPast(|buf|, frags, 1);
      assert buf[0] == s[0] && buf[1] == s[1];
      assert buf[2..] + Flat(frags) == s[2..];
    } else {
      assert Boundary(|buf|, frags, 0) || Boundary(|buf|, frags, 1) by {
        assert Boundary(|buf|, frags, |buf|);
      }
      var (b, f) := FillBlank(buf, frags);
      assert |b + Flat(f)| == |s|;
      var p := FindBlank(b, 0);
      if p.Some? {
        assert |b[p.value + 4..] + Flat(f)| < |rest|;
      } else {
        assert f == [];
      }
    }
  }

  /** Chunks that are not empty and whose size plus two fits a word; every slice of bytes is shorter. */
  ghost predicate Writable(chunks: seq<seq<byte>>) {
    forall i :: 0 <= i < |chunks| ==> 0 < |chunks[i]| < USIZE_LIMIT - 2
  }

  lemma {:induction false} ZeroLine()
    ensures Hex(0) == [0x30] && LAST_CHUNK == Hex(0) + CRLF + CRLF
  {
  }

  /** Unfolding the reader at a line whose size is known. */
  lemma {:induction false} ReadStep(buf: seq<byte>, frags: seq<Fragment>, body: seq<byte>, line: seq<byte>, size: nat)
    requires FindCrlf(FillLine(buf, frags).0) == Some(|line|) && FillLine(buf, frags).0[..|line|] == line
    requires ParseSize(line) == Some(size)
    ensures var (b, f) := FillLine(buf, frags);
            var rest := b[|line| + 2..];
            ReadFrom(buf, frags, body) ==
            if size == 0 then Finish(rest, f, body)
            else
              var (b1, f1) := FillTo(rest, f, Need(size));
              if |b1| < Need(size) then Truncated
              else if |b1| < size then Panicked
              else ReadFrom(b1[Need(size)..], f1, body + b1[..size])
  {
    hide Finish, ParseSize, FindCrlf, Need;
  }

  /** What the reader owes: the whole body, and the following bytes exactly when the terminator was not cut. */
  ghost predicate Delivers(r: Outcome, body: seq<byte>, rest: seq<byte>, n: nat, frags: seq<Fragment>, end: nat) {
    && r.Done? && r.body == body
    && (r.leftover + Flat(r.unread) == rest <==>
          (!Boundary(n, frags, end) && !Boundary(n, frags, end + 1)) || rest == [])
  }

  /**
   * A size the stream does not hold.  The reader reports a truncated body, except for the two
   * sizes whose sum with two does not fit a word: there the sum is 0 or 1, and once that many
   * bytes are there the slice reaches beyond the buffer.
   */
  lemma {:induction false} MissingDataExactly(
    buf: seq<byte>, frags: seq<Fragment>, body: seq<byte>, line: seq<byte>, size: nat)
    requires FindCrlf(FillLine(buf, frags).0) == Some(|line|) && FillLine(buf, frags).0[..|line|] == line
    requires ParseSize(line) == Some(size) && size > 0
    requires |buf + Flat(frags)| - |line| - 2 < size
    ensures ReadFrom(buf, frags, body)
            == if size + 2 >= USIZE_LIMIT && |buf + Flat(frags)| - |line| - 2 >= size + 2 - USIZE_LIMIT then Panicked
               else Truncated
  {
    hide ReadFrom, FindCrlf, FillLine, FillTo, ParseSize, Need;
    SizeInWord(line);
    NeedInWord(size);
    ReadStep(buf, frags, body, line, size);
    var (b, f) := FillLine(buf, frags);
    var rest := b[|line| + 2..];
    assert |rest + Flat(f)| == |buf + Flat(frags)| - |line| - 2;
    var (b1, f1) := FillTo(rest, f, Need(size));
    assert |b1| <= |b1 + Flat(f1)| && (f1 == [] ==> |b1| == |b1 + Flat(f1)|);
  }

  lemma {:induction false} NeedInWord(size: nat)
    requires size < USIZE_LIMIT
    ensures Need(size) == if size + 2 < USIZE_LIMIT then size + 2 else size + 2 - USIZE_LIMIT
  {
  }

  function Power16(k: nat): (r: nat)
    ensures r >= 1
  {
    if k == 0 then 1 else 16 * Power16(k - 1)
  }

  function Fs(k: nat): (s: seq<byte>)
    ensures |s| == k
  {
    seq(k, _ => 0x66)
  }

  /** A row of digits f is the largest number with so many digits. */
  lemma {:induction false} HexOfFs(k: nat)
    requires k > 0
    ensures Hex(Power16(k) - 1) == Fs(k)
    decreases k
  {
    if k == 1 {
      assert Power16(0) == 1 && Hex(15) == [0x66];
    } else {
      var n := Power16(k) - 1;
      HexOfFs(k - 1);
      assert n == 16 * (Power16(k - 1) - 1) + 15;
      assert n / 16 == Power16(k - 1) - 1 && n % 16 == 15;
      assert Fs(k - 1) + [0x66] == Fs(k);
      assert n >= 16 by {
        assert Power16(k - 1) == 16 * Power16(k - 2);
      }
    }
  }

  lemma {:induction false} WordIs16Digits()
    ensures Power16(16) == USIZE_LIMIT
  {
    assert Power16(4) == 0x1_0000;
    assert Power16(8) == 0x1_0000 * 0x1_0000;
    assert Power16(12) == 0x1_0000 * 0x1_0000 * 0x1_0000;
  }

  /** Concrete case: after the size line `ffffffffffffffff` one byte is enough. */
  lemma {:induction false} LargestSizePanics(next: byte)
    ensures ReadFrom(Fs(16) + CRLF + [next], [], []) == Panicked
  {
    hide Hex, ReadFrom, ParseSize, FindCrlf, FillLine;
    var line, buf, size := Fs(16), Fs(16) + CRLF + [next], USIZE_LIMIT - 1;
    WordIs16Digits();
    HexOfFs(16);
    SizeRoundTrip(size);
    HexHasNoCr(size);
    var none: seq<Fragment> := [];
    assert Flat(none) == [] && buf + Flat(none) == line + CRLF + [next];
    ReadLine(buf, none, line, [next], |line| + 2);
    MissingDataExactly(buf, none, [], line, size);
  }

  lemma {:induction false} SizeInWord(line: seq<byte>)
    ensures ParseSize(line).Some? ==> ParseSize(line).value < USIZE_LIMIT
  {
  }

  /** A following request that is lost: the terminator arrives cut before its last CR LF. */
  lemma {:induction false} FollowingRequestLost(next: byte)
    requires next != CR
    ensures var r := ReadFrom([0x30, CR, LF], [[CR, LF, next]], []);
            r == Done([], [], [])
  {
    var frags: seq<Fragment> := [[CR, LF, next]];
    var prefix := [0x30, CR, LF];
    assert Flat(frags) == [CR, LF, next] + Flat(frags[1..]);
    assert prefix + Flat(frags) == Hex(0) + CRLF + [CR, LF, next];
    HexHasNoCr(0);
    SizeRoundTrip(0);
    ReadLine(prefix, frags, Hex(0), [CR, LF, next], 3);
    ReadStep(prefix, frags, [], Hex(0), 0);
    assert FindCrlf(prefix) == Some(1) by {
      assert CrlfAt(prefix, 1) && !CrlfAt(prefix, 0);
    }
    assert FillLine(prefix, frags) == (prefix, frags);
    assert prefix[3..] == [];
    assert FindBlank([], 0).None?;
    var all := [] + frags[0];
    assert all == [CR, LF, next];
    assert FillBlank([], frags) == FillBlank(all, frags[1..]);
    assert FindBlank(all, 0).None?;
  }
}
