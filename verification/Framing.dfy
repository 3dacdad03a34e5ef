/**
 * Chunked bodies as other programs write them (RFC 9112, section 7.1): sizes in either case with
 * blanks around them, chunk extensions, and a trailer section behind the last chunk.
 */
module Framing {
  import opened Wire
  import opened Text
  import opened Chunked

  // ---- Size lines ----------------------------------------------------------------------------

  const SEMICOLON: byte := 0x3B

  predicate Blank(s: seq<byte>) {
    forall i :: 0 <= i < |s| ==> s[i] == 0x20 || s[i] == 0x09
  }

  /** Hexadecimal digits in either case. */
  predicate Digits(s: seq<byte>) {
    s != [] && forall i :: 0 <= i < |s| ==> DigitValue(s[i]).Some?
  }

  predicate Ascii(s: seq<byte>) {
    forall i :: 0 <= i < |s| ==> s[i] < 0x80 && s[i] != SEMICOLON
  }

  lemma {:induction false} AsciiInFront(s: seq<byte>, rest: seq<byte>)
    requires forall i :: 0 <= i < |s| ==> s[i] < 0x80
    ensures IsUtf8(s + rest) <==> IsUtf8(rest)
    decreases |s|
  {
    if s == [] {
      assert s + rest == rest;
    } else {
      var all := s + rest;
      assert CharLength(all) == 1 && all[1..] == s[1..] + rest;
      AsciiInFront(s[1..], rest);
    }
  }

  lemma {:induction false} UpToSemicolon(s: seq<byte>, rest: seq<byte>)
    requires Ascii(s)
    ensures BeforeSemicolon(s + [SEMICOLON] + rest) == s && BeforeSemicolon(s) == s
    decreases |s|
  {
    if s != [] {
      var all := s + [SEMICOLON] + rest;
      assert all[0] == s[0] && all[1..] == s[1..] + [SEMICOLON] + rest;
      UpToSemicolon(s[1..], rest);
      assert s == [s[0]] + s[1..];
    }
  }

  lemma {:induction false} TrimBack(digits: seq<byte>, after: seq<byte>)
    requires Digits(digits) && Blank(after)
    ensures Trim(digits + after) == digits
    decreases |after|
  {
    var s := digits + after;
    assert s[0] == digits[0];
    assert SpaceAtFront(s) == 0;
    if after == [] {
      assert s == digits;
      assert SpaceAtBack(s) == 0;
    } else {
      var less := after[..|after| - 1];
      assert s[|s| - 1] == after[|after| - 1];
      assert s[..|s| - 1] == digits + less;
      TrimBack(digits, less);
    }
  }

  lemma {:induction false} TrimBoth(before: seq<byte>, digits: seq<byte>, after: seq<byte>)
    requires Blank(before) && Digits(digits) && Blank(after)
    ensures Trim(before + digits + after) == digits
    decreases |before|
  {
    if before == [] {
      assert before + digits + after == digits + after;
      TrimBack(digits, after);
    } else {
      var s := before + digits + after;
      assert s[0] == before[0] && s[1..] == before[1..] + digits + after;
      TrimBoth(before[1..], digits, after);
    }
  }

  lemma {:induction false} DigitsParse(digits: seq<byte>)
    requires Digits(digits)
    ensures HexValue(digits).Some?
    ensures ParseHex(digits) == if HexValue(digits).value < USIZE_LIMIT then HexValue(digits) else None
  {
    HasValue(digits);
    assert digits[0] != 0x2B;
  }

  lemma {:induction false} HasValue(s: seq<byte>)
    requires forall i :: 0 <= i < |s| ==> DigitValue(s[i]).Some?
    ensures HexValue(s).Some?
    decreases |s|
  {
    if s != [] {
      HasValue(s[..|s| - 1]);
    }
  }

  /** A size line: blanks around the digits and an extension behind them change nothing. */
  lemma {:induction false} SizeLine(before: seq<byte>, digits: seq<byte>, after: seq<byte>, extension: seq<byte>)
    requires Blank(before) && Digits(digits) && Blank(after) && IsUtf8(extension)
    ensures HexValue(digits).Some?
    ensures var size := if HexValue(digits).value < USIZE_LIMIT then HexValue(digits) else None;
            && ParseSize(before + digits + after) == size
            && ParseSize(before + digits + after + [SEMICOLON] + extension) == size
  {
    hide Trim, BeforeSemicolon, IsUtf8, ParseHex, HexValue;
    var s := before + digits + after;
    assert Ascii(s);
    UpToSemicolon(s, extension);
    AsciiInFront(s, []);
    assert s + [] == s && IsUtf8([]) by { EmptyIsUtf8(); }
    AsciiInFront(s + [SEMICOLON], extension);
    TrimBoth(before, digits, after);
    DigitsParse(digits);
  }

  lemma {:induction false} EmptyIsUtf8()
    ensures IsUtf8([])
  {
  }

  function UpperDigit(b: byte): byte {
    if 0x61 <= b <= 0x66 then b - 0x20 else b
  }

  function UpperDigits(s: seq<byte>): (r: seq<byte>)
    ensures |r| == |s| && forall i :: 0 <= i < |r| ==> r[i] == UpperDigit(s[i])
  {
    seq(|s|, i requires 0 <= i < |s| => UpperDigit(s[i]))
  }

  lemma {:induction false} EitherCase(s: seq<byte>)
    ensures HexValue(UpperDigits(s)) == HexValue(s)
    decreases |s|
  {
    if s != [] {
      var front := s[..|s| - 1];
      EitherCase(front);
      assert UpperDigits(s)[..|s| - 1] == UpperDigits(front);
    }
  }

  /** Every size is read with an extension, in lower and in upper case. */
  lemma {:induction false} SizeWithExtension(n: nat, extension: seq<byte>)
    requires n < USIZE_LIMIT && IsUtf8(extension)
    ensures ParseSize(Hex(n) + [SEMICOLON] + extension) == Some(n)
    ensures ParseSize(UpperDigits(Hex(n)) + [SEMICOLON] + extension) == Some(n)
  {
    hide Hex, HexValue, ParseSize, IsUtf8;
    var digits := Hex(n);
    HexRoundTrip(n);
    EitherCase(digits);
    assert [] + digits + [] == digits && [] + UpperDigits(digits) + [] == UpperDigits(digits);
    SizeLine([], digits, [], extension);
    SizeLine([], UpperDigits(digits), [], extension);
  }

  /** The characters beside blanks that count as white space, in front and behind. */
  lemma {:induction false} OtherSpaces(c: byte, rest: seq<byte>)
    ensures 0x09 <= c <= 0x0D || c == 0x20 ==> SpaceAtFront([c] + rest) == 1 && SpaceAtBack(rest + [c]) == 1
    ensures c == 0x85 || c == 0xA0 ==> SpaceAtFront([0xC2, c] + rest) == 2 && SpaceAtBack(rest + [0xC2, c]) == 2
    ensures 0x80 <= c <= 0x8A || c == 0xA8 || c == 0xA9 || c == 0xAF ==>
              SpaceAtFront([0xE2, 0x80, c] + rest) == 3 && SpaceAtBack(rest + [0xE2, 0x80, c]) == 3
    ensures SpaceAtFront([0xE1, 0x9A, 0x80] + rest) == 3 && SpaceAtBack(rest + [0xE1, 0x9A, 0x80]) == 3
    ensures SpaceAtFront([0xE2, 0x81, 0x9F] + rest) == 3 && SpaceAtBack(rest + [0xE2, 0x81, 0x9F]) == 3
    ensures SpaceAtFront([0xE3, 0x80, 0x80] + rest) == 3 && SpaceAtBack(rest + [0xE3, 0x80, 0x80]) == 3
  {
  }

  /** A plus sign in front of the digits is allowed. */
  lemma {:induction false} PlusSign(digits: seq<byte>)
    requires Digits(digits)
    ensures ParseHex([0x2B] + digits) == ParseHex(digits)
  {
    assert ([0x2B] + digits)[1..] == digits;
  }

  /** No size: nothing there, or something that is no digit. */
  lemma {:induction false} NoSize(s: seq<byte>, i: nat)
    requires i < |s| && DigitValue(s[i]).None?
    requires forall j :: 0 <= j < |s| ==> 0x21 <= s[j] < 0x7F && s[j] != SEMICOLON
    requires s[0] != 0x2B
    ensures ParseSize(s) == None && ParseSize([]) == None
  {
    hide IsUtf8, BeforeSemicolon;
    UpToSemicolon(s, []);
    UpToSemicolon([], []);
    assert SpaceAtFront(s) == 0 && SpaceAtBack(s) == 0;
    NoValue(s, i);
  }

  lemma {:induction false} NoValue(s: seq<byte>, i: nat)
    requires i < |s| && DigitValue(s[i]).None?
    ensures HexValue(s).None?
    decreases |s|
  {
    if i < |s| - 1 {
      NoValue(s[..|s| - 1], i);
    }
  }

  // ---- Bodies --------------------------------------------------------------------------------

  /** A chunk under a size line of any form. */
  datatype Piece = Piece(line: seq<byte>, data: seq<byte>)

  function EncodePiece(piece: Piece): seq<byte> {
    piece.line + CRLF + piece.data + CRLF
  }

  function EncodePieces(pieces: seq<Piece>): seq<byte> {
    if pieces == [] then [] else EncodePiece(pieces[0]) + EncodePieces(pieces[1..])
  }

  function Body(pieces: seq<Piece>): seq<byte> {
    if pieces == [] then [] else pieces[0].data + Body(pieces[1..])
  }

  predicate SizeIs(line: seq<byte>, n: nat) {
    CR !in line && ParseSize(line) == Some(n)
  }

  ghost predicate WellFramed(pieces: seq<Piece>) {
    forall i :: 0 <= i < |pieces| ==> 0 < |pieces[i].data| < USIZE_LIMIT - 2 && SizeIs(pieces[i].line, |pieces[i].data|)
  }

  /** A line that is no size ends the body with an error, and so does a stream that ends before its line. */
  lemma {:induction false} BadLine(
    buf: seq<byte>, frags: seq<Fragment>, body: seq<byte>, line: seq<byte>, rest: seq<byte>)
    requires CR !in line
    ensures buf + Flat(frags) == line + CRLF + rest && ParseSize(line).None? ==> ReadFrom(buf, frags, body) == BadSize
    ensures buf + Flat(frags) == line ==> ReadFrom(buf, frags, body) == Truncated
  {
    hide ParseSize, FillTo, Boundary, Finish;
    if buf + Flat(frags) == line + CRLF + rest && ParseSize(line).None? {
      hide FillLine, FindCrlf;
      ReadLine(buf, frags, line, rest, |line| + 2);
    } else if buf + Flat(frags) == line {
      var (b, f) := FillLine(buf, frags);
      hide FillLine;
      forall i: nat ensures !CrlfAt(b, i) {
        if i + 2 <= |b| {
          assert (b + Flat(f))[i] == b[i];
        }
      }
    }
  }

  /** One chunk: the reader goes on behind it, with the boundaries counted from there. */
  lemma {:induction false} PieceStep(
    buf: seq<byte>, frags: seq<Fragment>, body: seq<byte>, piece: Piece, more: seq<byte>, p: nat)
    returns (buf': seq<byte>, frags': seq<Fragment>)
    requires 0 < |piece.data| < USIZE_LIMIT - 2 && SizeIs(piece.line, |piece.data|)
    requires buf + Flat(frags) == EncodePiece(piece) + more && p >= |EncodePiece(piece)|
    ensures buf' + Flat(frags') == more
    ensures ReadFrom(buf, frags, body) == ReadFrom(buf', frags', body + piece.data)
    ensures Boundary(|buf|, frags, p) <==> Boundary(|buf'|, frags', p - |EncodePiece(piece)|)
    ensures Boundary(|buf|, frags, p + 1) <==> Boundary(|buf'|, frags', p + 1 - |EncodePiece(piece)|)
  {
    hide ReadFrom, FillLine, FillTo, ParseSize, FindCrlf, Finish, Boundary;
    var line, data := piece.line, piece.data;
    var tail := data + CRLF + more;
    assert buf + Flat(frags) == line + CRLF + tail;
    ReadLine(buf, frags, line, tail, p);
    ReadLine(buf, frags, line, tail, p + 1);
    ReadStep(buf, frags, body, line, |data|);
    var (b, f) := FillLine(buf, frags);
    var q := p - |line| - 2;
    ReadData(b[|line| + 2..], f, data, more, q);
    ReadData(b[|line| + 2..], f, data, more, q + 1);
    var (b1, f1) := FillTo(b[|line| + 2..], f, |data| + 2);
    buf', frags' := b1[|data| + 2..], f1;
  }

  /** All chunks: the reader arrives at what follows them with the whole body. */
  lemma {:induction false} PiecesRead(
    pieces: seq<Piece>, more: seq<byte>, buf: seq<byte>, frags: seq<Fragment>, body: seq<byte>, p: nat)
    returns (buf': seq<byte>, frags': seq<Fragment>)
    requires WellFramed(pieces) && buf + Flat(frags) == EncodePieces(pieces) + more && p >= |EncodePieces(pieces)|
    ensures buf' + Flat(frags') == more
    ensures ReadFrom(buf, frags, body) == ReadFrom(buf', frags', body + Body(pieces))
    ensures Boundary(|buf|, frags, p) <==> Boundary(|buf'|, frags', p - |EncodePieces(pieces)|)
    ensures Boundary(|buf|, frags, p + 1) <==> Boundary(|buf'|, frags', p + 1 - |EncodePieces(pieces)|)
    decreases |pieces|
  {
    hide ReadFrom, EncodePiece, Boundary, SizeIs;
    if pieces == [] {
      buf', frags' := buf, frags;
      assert [] + more == more && body + Body(pieces) == body;
    } else {
      var first, rest := pieces[0], pieces[1..];
      assert EncodePiece(first) + EncodePieces(rest) + more == EncodePiece(first) + (EncodePieces(rest) + more);
      var b, f := PieceStep(buf, frags, body, first, EncodePieces(rest) + more, p);
      buf', frags' := PiecesRead(rest, more, b, f, body + first.data, p - |EncodePiece(first)|);
      Associate(body, first.data, Body(rest));
    }
  }

  /**
   * Framing with lines of any form and no trailer: the body is the data of all chunks; what follows
   * survives exactly when no read ends right before or inside the last CR LF, or nothing follows.
   */
  lemma {:induction false} AnyFraming(
    pieces: seq<Piece>, last: seq<byte>, rest: seq<byte>, buf: seq<byte>, frags: seq<Fragment>, body: seq<byte>)
    requires WellFramed(pieces) && SizeIs(last, 0)
    requires buf + Flat(frags) == EncodePieces(pieces) + (last + CRLF + (CRLF + rest))
    ensures Delivers(ReadFrom(buf, frags, body), body + Body(pieces), rest, |buf|, frags,
                     |EncodePieces(pieces)| + |last| + 2)
  {
    hide ReadFrom, EncodePieces, Body, Boundary, FillLine, FindCrlf, Finish, ParseSize, WellFramed;
    var n := |last| + 2;
    var b, f := PiecesRead(pieces, last + CRLF + (CRLF + rest), buf, frags, body, |EncodePieces(pieces)| + n);
    ReadLine(b, f, last, CRLF + rest, n);
    ReadLine(b, f, last, CRLF + rest, n + 1);
    ReadStep(b, f, body + Body(pieces), last, 0);
    var (b1, f1) := FillLine(b, f);
    FinishExactly(b1[n..], f1, body + Body(pieces), rest);
  }

  /** What this program writes, as pieces. */
  function Written(chunks: seq<seq<byte>>): seq<Piece> {
    if chunks == [] then [] else [Piece(Hex(|chunks[0]|), chunks[0])] + Written(chunks[1..])
  }

  lemma {:induction false} WrittenWell(chunks: seq<seq<byte>>)
    requires Writable(chunks)
    ensures WellFramed(Written(chunks))
    ensures EncodePieces(Written(chunks)) == EncodeChunks(chunks) && Body(Written(chunks)) == Flat(chunks)
    decreases |chunks|
  {
    hide Hex, ParseSize;
    if chunks != [] {
      var rest := chunks[1..];
      WrittenWell(rest);
      HexHasNoCr(|chunks[0]|);
      SizeRoundTrip(|chunks[0]|);
      assert Written(chunks)[1..] == Written(rest);
      var all := Written(chunks);
      forall i | 0 <= i < |all| ensures 0 < |all[i].data| < USIZE_LIMIT - 2 && SizeIs(all[i].line, |all[i].data|) {
        if i > 0 {
          assert all[i] == Written(rest)[i - 1];
        }
      }
    }
  }

  /**
   * Chunked framing.  For every list of non-empty chunks, every following byte string and every
   * fragmentation the reader returns the concatenated chunks.  Its leftover followed by what it
   * did not read is the following string exactly when no read ends right before or inside the
   * terminator's last CR LF, or nothing follows.
   */
  lemma {:induction false} FramingRoundTrip(
    chunks: seq<seq<byte>>, rest: seq<byte>, buf: seq<byte>, frags: seq<Fragment>, body: seq<byte>)
    requires Writable(chunks) && buf + Flat(frags) == EncodeChunks(chunks) + LAST_CHUNK + rest
    ensures Delivers(ReadFrom(buf, frags, body), body + Flat(chunks), rest, |buf|, frags, |EncodeChunks(chunks)| + 3)
  {
    hide Hex, ReadFrom, EncodeChunks, EncodePieces, Body, Written, WellFramed, Writable, Delivers, ParseSize;
    WrittenWell(chunks);
    ZeroLine();
    HexHasNoCr(0);
    SizeRoundTrip(0);
    assert LAST_CHUNK + rest == [0x30] + CRLF + (CRLF + rest);
    Associate(EncodeChunks(chunks), LAST_CHUNK, rest);
    AnyFraming(Written(chunks), [0x30], rest, buf, frags, body);
  }

  /** A trailer section: it does not begin with an empty line, and the first empty line ends it. */
  ghost predicate Trailer(t: seq<byte>) {
    && !CrlfAt(t + CRLF, 0) && t != []
    && forall j :: 0 <= j < |t| ==> !BlankAt(t + CRLF + CRLF, j)
  }

  /** Behind the zero-size line the reader takes the trailer and leaves exactly what follows it. */
  lemma {:induction false} TrailerSkipped(
    buf: seq<byte>, frags: seq<Fragment>, body: seq<byte>, t: seq<byte>, rest: seq<byte>)
    requires Trailer(t) && buf + Flat(frags) == t + CRLF + CRLF + rest
    ensures var r := Finish(buf, frags, body); r.Done? && r.body == body && r.leftover + Flat(r.unread) == rest
  {
    hide FindBlank;
    var all := t + CRLF + CRLF + rest;
    assert BlankAt(all, |t|);
    assert !CrlfAt(buf, 0) by {
      if |buf| >= 2 {
        assert buf[0] == all[0] && buf[1] == all[1];
        assert (t + CRLF)[0] == all[0] && (t + CRLF)[1] == all[1];
      }
    }
    var (b, f) := FillBlank(buf, frags);
    var p := FindBlank(b, 0);
    forall i | 0 <= i < |b| ensures b[i] == all[i] {
      assert (b + Flat(f))[i] == b[i];
    }
    if f == [] {
      assert b == all;
    }
    FirstBlank(b, t, rest, p.value);
    assert b[|t| + 4..] + Flat(f) == (b + Flat(f))[|t| + 4..] == rest;
  }

  lemma {:induction false} FirstBlank(b: seq<byte>, t: seq<byte>, rest: seq<byte>, p: nat)
    requires Trailer(t) && BlankAt(b, p) && forall j :: 0 <= j < p ==> !BlankAt(b, j)
    requires |b| <= |t + CRLF + CRLF + rest| && forall i :: 0 <= i < |b| ==> b[i] == (t + CRLF + CRLF + rest)[i]
    ensures p == |t|
  {
    var head := t + CRLF + CRLF;
    if p < |t| {
      assert BlankAt(head, p);
    } else if p > |t| {
      assert BlankAt(b, |t|);
    }
  }

  /** Framing with a trailer: body and what follows survive under every fragmentation. */
  lemma {:induction false} TrailerFraming(
    pieces: seq<Piece>, last: seq<byte>, t: seq<byte>, rest: seq<byte>, buf: seq<byte>, frags: seq<Fragment>,
    body: seq<byte>)
    requires WellFramed(pieces) && SizeIs(last, 0) && Trailer(t)
    requires buf + Flat(frags) == EncodePieces(pieces) + (last + CRLF + (t + CRLF + CRLF + rest))
    ensures var r := ReadFrom(buf, frags, body);
            r.Done? && r.body == body + Body(pieces) && r.leftover + Flat(r.unread) == rest
  {
    hide ReadFrom, EncodePieces, Body, Boundary, FillLine, FindCrlf, Finish, ParseSize, WellFramed, Trailer;
    var n, tail := |last| + 2, t + CRLF + CRLF + rest;
    var b, f := PiecesRead(pieces, last + CRLF + tail, buf, frags, body, |EncodePieces(pieces)| + n);
    ReadLine(b, f, last, tail, n);
    ReadStep(b, f, body + Body(pieces), last, 0);
    var (b1, f1) := FillLine(b, f);
    TrailerSkipped(b1[n..], f1, body + Body(pieces), t, rest);
  }
}
