/**
 * Domain names on the wire (RFC 1035, sections 3.1 and 4.1.4).  Names are their UTF-8 bytes.
 * Decoding follows compression pointers under a set of targets already taken; the main result
 * is that this set rejects nothing but true cycles.
 */
module DnsName {
  import opened Wire
  import opened Text

  // ---- Decoding ----------------------------------------------------------------------------

  /** The 14-bit target of the pointer at `offset`. */
  function Target(msg: seq<byte>, offset: nat): (p: nat)
    requires offset + 1 < |msg|
    ensures p < 0x4000
  {
    GetU16(msg, offset) % 0x4000
  }

  predicate IsTarget(p: nat) {
    p < 0x4000
  }

  function AllTargets(): set<nat> {
    set p: nat | p < 0x4000 && IsTarget(p)
  }

  function LabelAt(msg: seq<byte>, offset: nat): Text
    requires offset < |msg| && offset + 1 + msg[offset] <= |msg|
  {
    msg[offset + 1..offset + 1 + msg[offset]]
  }

  /** What one more label in front does to the rest of a decoding. */
  function AddLabel(l: Text, rest: Option<(seq<Text>, nat)>): Option<(seq<Text>, nat)> {
    if rest.None? then None else Some(([Lower(l)] + rest.value.0, rest.value.1))
  }

  /** A pointer fixes where the name ends, whatever it leads to. */
  function EndAt(end: nat, rest: Option<(seq<Text>, nat)>): Option<(seq<Text>, nat)> {
    if rest.None? then None else Some((rest.value.0, end))
  }

  /** Labels and end of the name at `offset`, refusing pointers to `visited`. */
  function DecodeFrom(msg: seq<byte>, offset: nat, visited: set<nat>): Option<(seq<Text>, nat)>
    decreases AllTargets() - visited, |msg| - offset
  {
    if offset >= |msg| then None
    else if msg[offset] == 0 then Some(([], offset + 1))
    else if msg[offset] >= 0xC0 then
      if offset + 1 >= |msg| || Target(msg, offset) in visited then None
      else
        var p := Target(msg, offset);
        assert p in AllTargets() - visited;
        EndAt(offset + 2, DecodeFrom(msg, p, visited + {p}))
    else if offset + 1 + msg[offset] > |msg| || !IsUtf8(LabelAt(msg, offset)) then None
    else AddLabel(LabelAt(msg, offset), DecodeFrom(msg, offset + 1 + msg[offset], visited))
  }

  /** `decode_name` */
  function DecodeName(msg: seq<byte>, start: nat): Option<(Text, nat)> {
    var r := DecodeFrom(msg, start, {});
    if r.None? then None else Some((Render(r.value.0), r.value.1))
  }

  /** What remains to be decoded, put behind what the loop has collected. */
  function Resume(
    labels: seq<Text>, jumped: bool, jumpEnd: nat, rest: Option<(seq<Text>, nat)>): Option<(seq<Text>, nat)> {
    if rest.None? then None else Some((labels + rest.value.0, if jumped then jumpEnd else rest.value.1))
  }

  lemma {:induction false} ResumeLabel(
    labels: seq<Text>, jumped: bool, jumpEnd: nat, l: Text, rest: Option<(seq<Text>, nat)>)
    ensures Resume(labels, jumped, jumpEnd, AddLabel(l, rest)) == Resume(labels + [Lower(l)], jumped, jumpEnd, rest)
  {
    if rest.Some? {
      assert labels + ([Lower(l)] + rest.value.0) == labels + [Lower(l)] + rest.value.0;
    }
  }

  /** The loop of `decode_name` with its mutable cursor, visited set and label list. */
  method DecodeNameLoop(msg: seq<byte>, start: nat) returns (r: Option<(Text, nat)>)
    ensures r == DecodeName(msg, start)
  {
    hide AddLabel, Lower, IsUtf8, Render;
    var labels: seq<Text> := [];
    var offset: nat := start;
    var jumped := false;
    var jumpEnd: nat := start;
    var visited: set<nat> := {};
    ghost var whole := DecodeFrom(msg, start, {});
    assert whole.Some? ==> [] + whole.value.0 == whole.value.0;
    while true
      invariant whole == Resume(labels, jumped, jumpEnd, DecodeFrom(msg, offset, visited))
      decreases AllTargets() - visited, |msg| - offset
    {
      if offset >= |msg| {
        return None;
      }
      var len := msg[offset];
      if len == 0 {
        offset := offset + 1;
        break;
      }
      if len >= 0xC0 {
        if offset + 1 >= |msg| {
          return None;
        }
        var ptr := Target(msg, offset);
        if ptr in visited {
          return None;
        }
        assert ptr in AllTargets() - visited;
        visited := visited + {ptr};
        if !jumped {
          jumpEnd := offset + 2;
          jumped := true;
        }
        offset := ptr;
        continue;
      }
      if offset + 1 + len > |msg| {
        return None;
      }
      if !IsUtf8(LabelAt(msg, offset)) {
        return None;
      }
      ResumeLabel(labels, jumped, jumpEnd, LabelAt(msg, offset), DecodeFrom(msg, offset + 1 + len, visited));
      labels := labels + [Lower(LabelAt(msg, offset))];
      offset := offset + 1 + len;
    }
    assert labels + [] == labels;
    r := Some((Render(labels), if jumped then jumpEnd else offset));
  }

  // ---- The expansion of the standard ---------------------------------------------------------

  /** Two one bits mark a pointer, the other fourteen are an offset in the message. */
  function PointsTo(high: byte, low: byte): nat
    requires high >= 0xC0
  {
    var h: int, l: int := high, low;
    0x100 * (h - 0xC0) + l
  }

  /**
   * The label-and-pointer expansion without any bookkeeping: from `offset` it ends after
   * exactly `n` labels, pointers and the final zero, and has collected `labels`.
   */
  ghost predicate Expands(msg: seq<byte>, offset: nat, labels: seq<Text>, n: nat)
    decreases n
  {
    && n > 0 && offset < |msg|
    && var len := msg[offset];
       if len == 0 then labels == [] && n == 1
       else if len >= 0xC0 then
         offset + 1 < |msg| && Expands(msg, PointsTo(len, msg[offset + 1]), labels, n - 1)
       else
         && offset + 1 + len <= |msg| && labels != []
         && IsUtf8(msg[offset + 1..offset + 1 + len]) && labels[0] == Lower(msg[offset + 1..offset + 1 + len])
         && Expands(msg, offset + 1 + len, labels[1..], n - 1)
  }

  lemma {:induction false} TargetValue(msg: seq<byte>, offset: nat)
    requires offset + 1 < |msg| && msg[offset] >= 0xC0
    ensures Target(msg, offset) == PointsTo(msg[offset], msg[offset + 1])
  {
  }

  lemma {:induction false} ExpansionUnique(msg: seq<byte>, offset: nat, a: seq<Text>, n: nat, b: seq<Text>, m: nat)
    requires Expands(msg, offset, a, n) && Expands(msg, offset, b, m)
    ensures a == b && n == m
    decreases n
  {
    hide Lower, IsUtf8;
    if msg[offset] == 0 {
    } else if msg[offset] >= 0xC0 {
      ExpansionUnique(msg, PointsTo(msg[offset], msg[offset + 1]), a, n - 1, b, m - 1);
    } else {
      ExpansionUnique(msg, offset + 1 + msg[offset], a[1..], n - 1, b[1..], m - 1);
      assert a == [a[0]] + a[1..] && b == [b[0]] + b[1..];
    }
  }

  lemma {:induction false} DecodeSound(msg: seq<byte>, offset: nat, visited: set<nat>) returns (n: nat)
    requires DecodeFrom(msg, offset, visited).Some?
    ensures Expands(msg, offset, DecodeFrom(msg, offset, visited).value.0, n)
    decreases AllTargets() - visited, |msg| - offset
  {
    hide Lower, IsUtf8;
    if msg[offset] == 0 {
      n := 1;
    } else if msg[offset] >= 0xC0 {
      var p := Target(msg, offset);
      TargetValue(msg, offset);
      assert p in AllTargets() - visited;
      n := DecodeSound(msg, p, visited + {p});
      n := n + 1;
    } else {
      n := DecodeSound(msg, offset + 1 + msg[offset], visited);
      var labels := DecodeFrom(msg, offset, visited).value.0;
      assert labels[1..] == DecodeFrom(msg, offset + 1 + msg[offset], visited).value.0;
      n := n + 1;
    }
  }

  /** The expansion from `p` takes at least `n` steps, if it is finite. */
  ghost predicate DeepAt(msg: seq<byte>, p: nat, n: nat) {
    exists labels, m: nat :: m >= n && Expands(msg, p, labels, m)
  }

  /**
   * A finite expansion is never refused: every target visited so far has a longer expansion than
   * what is left, so the next target cannot be one of them.
   */
  lemma {:induction false} DecodeComplete(msg: seq<byte>, offset: nat, visited: set<nat>, labels: seq<Text>, n: nat)
    requires Expands(msg, offset, labels, n)
    requires forall p :: p in visited ==> DeepAt(msg, p, n)
    ensures DecodeFrom(msg, offset, visited).Some? && DecodeFrom(msg, offset, visited).value.0 == labels
    decreases n
  {
    hide Lower, IsUtf8;
    if msg[offset] == 0 {
    } else if msg[offset] >= 0xC0 {
      var p := Target(msg, offset);
      TargetValue(msg, offset);
      if p in visited {
        var ls, m: nat :| m >= n && Expands(msg, p, ls, m);
        ExpansionUnique(msg, p, labels, n - 1, ls, m);
        assert false;
      }
      assert DeepAt(msg, p, n - 1);
      forall q | q in visited + {p} ensures DeepAt(msg, q, n - 1) {
        if q != p {
          var ls, m: nat :| m >= n && Expands(msg, q, ls, m);
        }
      }
      DecodeComplete(msg, p, visited + {p}, labels, n - 1);
    } else {
      forall q | q in visited ensures DeepAt(msg, q, n - 1) {
        var ls, m: nat :| m >= n && Expands(msg, q, ls, m);
      }
      DecodeComplete(msg, offset + 1 + msg[offset], visited, labels[1..], n - 1);
      assert labels == [labels[0]] + labels[1..];
    }
  }

  /** Where a name ends in place: after its zero byte or after its first pointer. */
  ghost predicate EndsAt(msg: seq<byte>, offset: nat, end: nat)
    decreases |msg| - offset
  {
    && offset < |msg|
    && if msg[offset] == 0 then end == offset + 1
       else if msg[offset] >= 0xC0 then end == offset + 2
       else offset + 1 + msg[offset] <= |msg| && EndsAt(msg, offset + 1 + msg[offset], end)
  }

  lemma {:induction false} DecodeEnd(msg: seq<byte>, offset: nat, visited: set<nat>)
    requires DecodeFrom(msg, offset, visited).Some?
    ensures EndsAt(msg, offset, DecodeFrom(msg, offset, visited).value.1)
    ensures DecodeFrom(msg, offset, visited).value.1 <= |msg|
    decreases |msg| - offset
  {
    hide Lower, IsUtf8;
    if msg[offset] != 0 && msg[offset] < 0xC0 {
      DecodeEnd(msg, offset + 1 + msg[offset], visited);
    }
  }

  /**
   * Exact loop detection.  For every byte string and every offset a name comes back exactly
   * when the unbounded expansion is finite, and then it is that expansion, ending where the
   * name ends in place.
   */
  lemma {:induction false} ExactLoopDetection(msg: seq<byte>, start: nat)
    ensures DecodeName(msg, start).Some? <==> exists labels, n: nat :: Expands(msg, start, labels, n)
    ensures forall labels, n: nat :: Expands(msg, start, labels, n) ==>
              && DecodeName(msg, start).Some?
              && DecodeName(msg, start).value.0 == Render(labels)
              && EndsAt(msg, start, DecodeName(msg, start).value.1)
  {
    hide DecodeFrom, Expands, EndsAt;
    if DecodeName(msg, start).Some? {
      var n := DecodeSound(msg, start, {});
    }
    forall labels, n: nat | Expands(msg, start, labels, n)
      ensures DecodeName(msg, start).Some? && DecodeName(msg, start).value.0 == Render(labels)
      ensures EndsAt(msg, start, DecodeName(msg, start).value.1)
    {
      DecodeComplete(msg, start, {}, labels, n);
      DecodeEnd(msg, start, {});
    }
  }

  lemma {:induction false} EndUnique(msg: seq<byte>, at: nat, a: nat, b: nat)
    requires EndsAt(msg, at, a) && EndsAt(msg, at, b)
    ensures a == b
    decreases |msg| - at
  {
    if 0 < msg[at] < 0xC0 {
      EndUnique(msg, at + 1 + msg[at], a, b);
    }
  }

  /** A name stands at `at` and ends before `end`: the text of its finite expansion. */
  ghost predicate NameAt(msg: seq<byte>, at: nat, name: Text, end: nat) {
    EndsAt(msg, at, end) && exists labels, n: nat :: Expands(msg, at, labels, n) && name == Render(labels)
  }

  /** Decoding a name finds exactly the name that stands there. */
  lemma {:induction false} NameExactly(msg: seq<byte>, at: nat, name: Text, end: nat)
    ensures DecodeName(msg, at) == Some((name, end)) <==> NameAt(msg, at, name, end)
  {
    hide DecodeName, Expands, EndsAt, Render;
    ExactLoopDetection(msg, at);
    if DecodeName(msg, at).Some? {
      var labels, n: nat :| Expands(msg, at, labels, n);
      if NameAt(msg, at, name, end) {
        EndUnique(msg, at, end, DecodeName(msg, at).value.1);
      }
    }
  }

  /** A pointer to itself is a cycle, and is refused. */
  lemma {:induction false} SelfPointerRefused(msg: seq<byte>)
    requires |msg| >= 2 && msg[0] == 0xC0 && msg[1] == 0
    ensures DecodeName(msg, 0) == None
  {
    assert Target(msg, 0) == 0;
    assert DecodeFrom(msg, 0, {0}) == None;
    assert {} + {0} == {0};
  }

  // ---- Encoding ----------------------------------------------------------------------------

  /** One label on the wire; its length byte is truncated to eight bits. */
  function EncodeLabel(l: Text): seq<byte> {
    [|l| % 0x100] + l
  }

  function EncodeLabels(ls: seq<Text>): (w: seq<byte>)
    ensures |w| > 0
  {
    if ls == [] then [0] else EncodeLabel(ls[0]) + EncodeLabels(ls[1..])
  }

  /** `encode_name` */
  function EncodeName(name: Text): (w: seq<byte>)
    ensures |w| > 0
  {
    EncodeLabels(Parts(name))
  }

  function EncodeAll(ls: seq<Text>): seq<byte> {
    if ls == [] then [] else EncodeAll(ls[..|ls| - 1]) + EncodeLabel(ls[|ls| - 1])
  }

  lemma {:induction false} EncodeLabelsAppend(a: seq<Text>, b: seq<Text>)
    ensures EncodeLabels(a + b) == EncodeAll(a) + EncodeLabels(b)
    decreases |a|
  {
    hide EncodeLabel;
    if a == [] {
      assert a + b == b;
    } else {
      var front, last := a[..|a| - 1], a[|a| - 1];
      EncodeLabelsAppend(front, [last] + b);
      assert front + ([last] + b) == a + b;
      assert ([last] + b)[1..] == b;
    }
  }

  /** The loop of `encode_name`: skip empty pieces, push a length and the bytes, finish with a zero. */
  method EncodeNameLoop(name: Text) returns (buf: seq<byte>)
    ensures buf == EncodeName(name)
  {
    hide EncodeLabel, EncodeLabels;
    var pieces := Split(TrimDots(name));
    buf := [];
    ghost var done: seq<Text> := [];
    for i := 0 to |pieces|
      invariant done == NonEmpty(pieces[..i]) && buf == EncodeAll(done)
    {
      assert pieces[..i + 1] == pieces[..i] + [pieces[i]];
      NonEmptyAppend(pieces[..i], [pieces[i]]);
      if pieces[i] == [] {
        assert NonEmpty([pieces[i]]) == [];
        continue;
      }
      assert NonEmpty([pieces[i]]) == [pieces[i]];
      ghost var longer := done + [pieces[i]];
      assert longer[..|longer| - 1] == done;
      buf := buf + EncodeLabel(pieces[i]);
      done := longer;
    }
    assert pieces[..|pieces|] == pieces;
    EncodeLabelsAppend(done, []);
    assert done + [] == done;
    EncodeNothing();
    buf := buf + [0];
  }

  lemma {:induction false} EncodeNothing()
    ensures EncodeLabels([]) == [0]
  {
  }

  // ---- Round trip ----------------------------------------------------------------------------

  /** A label that survives the trip: its length byte is not a pointer, its bytes are text. */
  predicate Encodable(l: Text) {
    0 < |l| < 0xC0 && IsUtf8(l)
  }

  predicate NameFits(name: Text) {
    forall i :: 0 <= i < |Parts(name)| ==> Encodable(Parts(name)[i])
  }

  /** Encoded labels decode in place, at any offset and whatever surrounds them, without following a pointer. */
  lemma {:induction false} LabelsRoundTrip(pre: seq<byte>, ls: seq<Text>, post: seq<byte>, visited: set<nat>)
    requires forall i :: 0 <= i < |ls| ==> Encodable(ls[i])
    ensures DecodeFrom(pre + EncodeLabels(ls) + post, |pre|, visited)
            == Some((LowerAll(ls), |pre| + |EncodeLabels(ls)|))
    decreases |ls|
  {
    hide Lower, IsUtf8, DecodeFrom;
    var msg := pre + EncodeLabels(ls) + post;
    if ls == [] {
      assert msg[|pre|] == 0;
      assert LowerAll(ls) == [];
      DecodeEmpty(msg, |pre|, visited);
    } else {
      var w := EncodeLabel(ls[0]);
      assert msg == (pre + w) + EncodeLabels(ls[1..]) + post;
      LabelsRoundTrip(pre + w, ls[1..], post, visited);
      OneLabel(pre, ls[0], EncodeLabels(ls[1..]) + post);
      assert msg == pre + w + (EncodeLabels(ls[1..]) + post);
      DecodeOne(msg, |pre|, visited);
      assert LowerAll(ls) == [Lower(ls[0])] + LowerAll(ls[1..]);
    }
  }

  lemma {:induction false} DecodeEmpty(msg: seq<byte>, offset: nat, visited: set<nat>)
    requires offset < |msg| && msg[offset] == 0
    ensures DecodeFrom(msg, offset, visited) == Some(([], offset + 1))
  {
  }

  lemma {:induction false} DecodeOne(msg: seq<byte>, offset: nat, visited: set<nat>)
    requires offset < |msg| && 0 < msg[offset] < 0xC0 && offset + 1 + msg[offset] <= |msg|
    requires IsUtf8(LabelAt(msg, offset))
    ensures DecodeFrom(msg, offset, visited)
            == AddLabel(LabelAt(msg, offset), DecodeFrom(msg, offset + 1 + msg[offset], visited))
  {
    hide IsUtf8, AddLabel;
  }

  lemma {:induction false} OneLabel(pre: seq<byte>, l: Text, post: seq<byte>)
    requires Encodable(l)
    ensures var msg := pre + EncodeLabel(l) + post;
            && msg[|pre|] == |l| && |EncodeLabel(l)| == 1 + |l|
            && LabelAt(msg, |pre|) == l
  {
  }

  /**
   * Name round trip: a name whose labels have 1 to 191 bytes of text decodes, at any offset, to
   * its normal form, ending right behind its encoding.  No pointer is followed: it holds under
   * any set of refused targets.
   */
  lemma {:induction false} NameRoundTrip(pre: seq<byte>, name: Text, post: seq<byte>)
    requires NameFits(name)
    ensures DecodeName(pre + EncodeName(name) + post, |pre|) == Some((Normal(name), |pre| + |EncodeName(name)|))
    ensures DecodeFrom(pre + EncodeName(name) + post, |pre|, AllTargets()).Some?
  {
    hide DecodeFrom, EncodeLabels;
    LabelsRoundTrip(pre, Parts(name), post, {});
    LabelsRoundTrip(pre, Parts(name), post, AllTargets());
  }

  // ---- Decoded names ---------------------------------------------------------------------------

  /** A label as the decoder hands it out. */
  predicate DecodedLabel(l: Text) {
    0 < |l| < 0xC0 && IsUtf8(l) && Lower(l) == l
  }

  lemma {:induction false} DecodedLabels(msg: seq<byte>, offset: nat, visited: set<nat>)
    requires DecodeFrom(msg, offset, visited).Some?
    ensures forall l :: l in DecodeFrom(msg, offset, visited).value.0 ==> DecodedLabel(l)
    decreases AllTargets() - visited, |msg| - offset
  {
    hide IsUtf8, Lower;
    if msg[offset] == 0 {
    } else if msg[offset] >= 0xC0 {
      var p := Target(msg, offset);
      assert p in AllTargets() - visited;
      DecodedLabels(msg, p, visited + {p});
    } else {
      DecodedLabels(msg, offset + 1 + msg[offset], visited);
      var l := LabelAt(msg, offset);
      LowerKeepsUtf8(l);
      LowerIdempotent(l);
      assert DecodedLabel(Lower(l));
    }
  }

  /** The pieces of a decoded label are decoded labels or empty: cutting at dots keeps text, case and length. */
  lemma {:induction false} PiecesDecoded(l: Text)
    requires |l| < 0xC0 && IsUtf8(l) && Lower(l) == l
    ensures forall p :: p in Split(l) ==> p == [] || DecodedLabel(p)
    decreases |l|
  {
    hide IsUtf8, Lower, Split;
    if DOT in l {
      var i :| 0 <= i < |l| && l[i] == DOT;
      CutAtDot(l, i);
      LowerSlices(l, i);
      PiecesDecoded(l[..i]);
      PiecesDecoded(l[i + 1..]);
      assert l == l[..i] + [DOT] + l[i + 1..];
      SplitAround(l[..i], l[i + 1..]);
    } else {
      SplitDotFree(l);
    }
  }

  lemma {:induction false} LowerSlices(l: Text, i: nat)
    requires i < |l| && Lower(l) == l
    ensures Lower(l[..i]) == l[..i] && Lower(l[i + 1..]) == l[i + 1..]
  {
    forall k | 0 <= k < |l| ensures LowerByte(l[k]) == l[k] {
      assert Lower(l)[k] == l[k];
    }
  }

  lemma {:induction false} DottedPieces(ls: seq<Text>)
    requires forall l :: l in ls ==> DecodedLabel(l)
    ensures forall p :: p in Split(Dotted(ls)) ==> p == [] || DecodedLabel(p)
    decreases |ls|
  {
    hide DecodedLabel;
    if ls == [] {
      assert Split(Dotted(ls)) == [[]];
    } else {
      DottedPieces(ls[1..]);
      FirstPieces(ls[0]);
      SplitAround(ls[0], Dotted(ls[1..]));
    }
  }

  lemma {:induction false} FirstPieces(l: Text)
    requires DecodedLabel(l)
    ensures forall p :: p in Split(l) ==> p == [] || DecodedLabel(p)
  {
    PiecesDecoded(l);
  }

  /** Every name the decoder returns can be encoded again, and consists of lower-case labels. */
  lemma {:induction false} DecodedNameFits(msg: seq<byte>, start: nat)
    requires DecodeName(msg, start).Some?
    ensures NameFits(DecodeName(msg, start).value.0)
    ensures Lower(DecodeName(msg, start).value.0) == DecodeName(msg, start).value.0
  {
    hide DecodeFrom;
    var ls := DecodeFrom(msg, start, {}).value.0;
    var name := Render(ls);
    DecodedLabels(msg, start, {});
    PartsIgnoreTrim(name);
    NonEmptyMembers(Split(name));
    if ls == [] {
      assert name == [] + [DOT] + [];
      SplitAround([], []);
    } else {
      DottedPieces(ls);
      LowerDotted(ls);
      assert LowerAll(ls) == ls by {
        forall i | 0 <= i < |ls| ensures LowerAll(ls)[i] == ls[i] {
          assert ls[i] in ls;
        }
      }
    }
    forall i | 0 <= i < |Parts(name)| ensures Encodable(Parts(name)[i]) {
      var p := Parts(name)[i];
      assert p in NonEmpty(Split(name));
      assert DecodedLabel(p);
    }
  }
}
