/** The Internet checksum: the two loops, what they compute, and what the result detects. */
module Checksum {
  import opened Wire

  /** The 16-bit words of a buffer, an odd last byte padded with a zero low byte. */
  function Words(d: seq<byte>): seq<u16> {
    if |d| == 0 then []
    else if |d| == 1 then [0x100 * (d[0] as int)]
    else [GetU16(d, 0)] + Words(d[2..])
  }

  function Sum(ws: seq<u16>): nat {
    if ws == [] then 0 else ws[0] + Sum(ws[1..])
  }

  function WordSum(d: seq<byte>): nat {
    Sum(Words(d))
  }

  /** Carries added back until 16 bits remain. */
  function Fold(s: nat): (r: u16)
    ensures r == 0 <==> s == 0
  {
    if s < 0x1_0000 then s else Fold(s % 0x1_0000 + s / 0x1_0000)
  }

  /** The one's complement of the one's complement sum. */
  function ChecksumOf(d: seq<byte>): u16 {
    0xFFFF - Fold(WordSum(d))
  }

  /** Largest buffer whose word sum fits the 32-bit accumulator: 65537 words. */
  const MAX_SUMMED: nat := 2 * 65537

  lemma {:induction false} WordSumStep(d: seq<byte>)
    requires |d| >= 2
    ensures WordSum(d) == GetU16(d, 0) + WordSum(d[2..])
  {
    assert Words(d)[1..] == Words(d[2..]);
  }

  lemma {:induction false} WordSumShort(d: seq<byte>)
    requires |d| <= 1
    ensures WordSum(d) == if d == [] then 0 else 0x100 * (d[0] as int)
  {
    if d != [] {
      var ws := Words(d);
      assert ws[1..] == [] && Sum(ws[1..]) == 0;
    }
  }

  lemma {:induction false} WordSumBound(d: seq<byte>)
    ensures WordSum(d) <= 0xFFFF * ((|d| + 1) / 2)
    decreases |d|
  {
    if |d| >= 2 {
      WordSumStep(d);
      WordSumBound(d[2..]);
      assert (|d| + 1) / 2 == (|d[2..]| + 1) / 2 + 1;
    } else {
      WordSumShort(d);
    }
  }

  /** The second loop: carries are added back until none is left. */
  method FoldCarries(total: u32) returns (sum: u16)
    ensures sum == Fold(total)
  {
    var rest: u32 := total;
    while rest / 0x1_0000 != 0
      invariant Fold(rest) == Fold(total)
      decreases rest
    {
      rest := rest % 0x1_0000 + rest / 0x1_0000;
    }
    sum := rest;
  }

  /** One more word still fits the accumulator while the whole sum does. */
  lemma {:induction false} WordFits(sum: nat, word: nat, rest: nat, total: nat)
    requires sum + (word + rest) == total < 0x1_0000_0000
    ensures Wrap(sum + word) == sum + word
  {
    WrapSmall(sum + word);
  }

  /**
   * `checksum`: the accumulator is 32 bits wide.  Up to 65537 words it cannot overflow, and then
   * the two loops compute the folded complement of the mathematical sum.
   */
  method Compute(data: seq<byte>) returns (cs: u16)
    ensures |data| <= MAX_SUMMED ==> cs == ChecksumOf(data)
  {
    hide WordSum, Wrap, GetU16, Fold;
    ghost var fits := |data| <= MAX_SUMMED;
    ghost var total := WordSum(data);
    WordSumBound(data);
    var sum: u32 := 0;
    var i := 0;
    assert data[0..] == data;
    while i + 1 < |data|
      invariant 0 <= i <= |data|
      invariant fits ==> sum + WordSum(data[i..]) == total
    {
      WordSumStep(data[i..]);
      assert data[i..][2..] == data[i + 2..];
      WordHere(data, i);
      if fits {
        WordFits(sum, GetU16(data, i), WordSum(data[i + 2..]), total);
      }
      sum := Wrap(sum + GetU16(data, i));
      i := i + 2;
    }
    WordSumShort(data[i..]);
    if i < |data| {
      if fits {
        WordFits(sum, 0x100 * (data[i] as int), 0, total);
      }
      sum := Wrap(sum + 0x100 * (data[i] as int));
    }
    assert fits ==> sum == total;
    var folded := FoldCarries(sum);
    cs := 0xFFFF - folded;
  }

  lemma {:induction false} WordHere(data: seq<byte>, i: nat)
    requires i + 2 <= |data|
    ensures GetU16(data[i..], 0) == GetU16(data, i)
  {
  }

  /** The bound is tight: one more word of all ones overflows the accumulator. */
  lemma {:induction false} AccumulatorBoundTight(ws: seq<u16>)
    requires |ws| == 65538 && forall i :: 0 <= i < |ws| ==> ws[i] == 0xFFFF
    ensures Sum(ws) > 0xFFFF_FFFF
  {
    SumOfEqual(ws, 0xFFFF);
  }

  lemma {:induction false} SumOfEqual(ws: seq<u16>, w: u16)
    requires forall i :: 0 <= i < |ws| ==> ws[i] == w
    ensures Sum(ws) == |ws| * w
    decreases |ws|
  {
    if ws != [] {
      SumOfEqual(ws[1..], w);
    }
  }

  // ---- Residues ------------------------------------------------------------------------

  /** Folding keeps the residue modulo 65535. */
  lemma {:induction false} FoldResidue(s: nat)
    ensures Fold(s) % 0xFFFF == s % 0xFFFF
    decreases s
  {
    if s >= 0x1_0000 {
      var next := s % 0x1_0000 + s / 0x1_0000;
      FoldResidue(next);
      SameResidue(s, next, s / 0x1_0000);
    }
  }

  lemma {:induction false} SameResidue(a: int, b: int, k: int)
    requires a == b + k * 0xFFFF
    ensures a % 0xFFFF == b % 0xFFFF
  {
    assert a == a / 0xFFFF * 0xFFFF + a % 0xFFFF;
    assert b == (a / 0xFFFF - k) * 0xFFFF + a % 0xFFFF;
  }

  /** A buffer validates exactly when its sum is positive and a multiple of 65535. */
  lemma {:induction false} ValidatesExactly(d: seq<byte>)
    ensures ChecksumOf(d) == 0 <==> WordSum(d) > 0 && WordSum(d) % 0xFFFF == 0
  {
    FoldResidue(WordSum(d));
  }

  // ---- Composition -----------------------------------------------------------------------

  lemma {:induction false} WordsAppend(a: seq<byte>, b: seq<byte>)
    requires |a| % 2 == 0
    ensures Words(a + b) == Words(a) + Words(b)
    decreases |a|
  {
    if a == [] {
      assert a + b == b;
    } else {
      WordsAppend(a[2..], b);
      assert (a + b)[2..] == a[2..] + b;
    }
  }

  lemma {:induction false} SumAppend(a: seq<u16>, b: seq<u16>)
    ensures Sum(a + b) == Sum(a) + Sum(b)
    decreases |a|
  {
    if a == [] {
      assert a + b == b;
    } else {
      SumAppend(a[1..], b);
      assert (a + b)[1..] == a[1..] + b;
    }
  }

  lemma {:induction false} WordSumAppend(a: seq<byte>, b: seq<byte>)
    requires |a| % 2 == 0
    ensures WordSum(a + b) == WordSum(a) + WordSum(b)
  {
    WordsAppend(a, b);
    SumAppend(Words(a), Words(b));
  }

  lemma {:induction false} WordSumOfWord(w: u16)
    ensures WordSum(PutU16(w)) == w
  {
    WordSumStep(PutU16(w));
  }

  /** The sum of a buffer around one aligned word. */
  lemma {:induction false} WordSumAround(pre: seq<byte>, w: u16, post: seq<byte>)
    requires |pre| % 2 == 0
    ensures WordSum(pre + PutU16(w) + post) == WordSum(pre) + w + WordSum(post)
  {
    hide WordSum, PutU16;
    WordSumAppend(pre + PutU16(w), post);
    WordSumAppend(pre, PutU16(w));
    WordSumOfWord(w);
  }

  /** Self-validation: storing the checksum of a buffer in its zeroed, aligned field makes it validate. */
  lemma {:induction false} SelfValidates(pre: seq<byte>, post: seq<byte>, cs: u16)
    requires |pre| % 2 == 0 && cs == ChecksumOf(pre + PutU16(0) + post)
    ensures ChecksumOf(pre + PutU16(cs) + post) == 0
  {
    hide WordSum, PutU16, Fold;
    var s := WordSum(pre) + WordSum(post);
    WordSumAround(pre, 0, post);
    WordSumAround(pre, cs, post);
    ComplementCloses(s, cs);
    ValidatesExactly(pre + PutU16(cs) + post);
  }

  /** A sum and the complement of its fold are a positive multiple of 65535 together. */
  lemma {:induction false} ComplementCloses(s: nat, cs: u16)
    requires cs == 0xFFFF - Fold(s)
    ensures s + cs > 0 && (s + cs) % 0xFFFF == 0
  {
    hide Fold;
    FoldResidue(s);
    SameResidue(s + cs, 0, s / 0xFFFF + (s % 0xFFFF + cs) / 0xFFFF);
  }

  /** Changing one aligned word goes unnoticed exactly when the word keeps its residue modulo 65535. */
  lemma {:induction false} WordChangeDetected(pre: seq<byte>, w: u16, w': u16, post: seq<byte>)
    requires |pre| % 2 == 0 && WordSum(pre) + WordSum(post) > 0
    requires ChecksumOf(pre + PutU16(w) + post) == 0
    ensures ChecksumOf(pre + PutU16(w') + post) == 0 <==> w % 0xFFFF == w' % 0xFFFF
  {
    hide WordSum, PutU16, ChecksumOf;
    WordSumAround(pre, w, post);
    WordSumAround(pre, w', post);
    ValidatesExactly(pre + PutU16(w) + post);
    ValidatesExactly(pre + PutU16(w') + post);
    ResidueShift(WordSum(pre) + WordSum(post), w, w');
  }

  lemma {:induction false} ResidueShift(s: nat, w: nat, w': nat)
    requires (s + w) % 0xFFFF == 0
    ensures (s + w') % 0xFFFF == 0 <==> w % 0xFFFF == w' % 0xFFFF
  {
    if w % 0xFFFF == w' % 0xFFFF {
      SameResidue(s + w', s + w, w' / 0xFFFF - w / 0xFFFF);
    }
    if (s + w') % 0xFFFF == 0 {
      SameResidue(w', w, (s + w') / 0xFFFF - (s + w) / 0xFFFF);
    }
  }

  /** The padded odd last byte: every change of it is noticed. */
  lemma {:induction false} LastByteChangeDetected(pre: seq<byte>, b: byte, b': byte)
    requires |pre| % 2 == 0 && b != b'
    requires ChecksumOf(pre + [b]) == 0
    ensures ChecksumOf(pre + [b']) != 0
  {
    hide WordSum, ChecksumOf;
    WordSumShort([b]);
    WordSumShort([b']);
    WordSumAppend(pre, [b]);
    WordSumAppend(pre, [b']);
    ValidatesExactly(pre + [b]);
    ValidatesExactly(pre + [b']);
    ResidueShift(WordSum(pre), 0x100 * (b as int), 0x100 * (b' as int));
    ByteResidues(b, b');
  }

  /** Different last bytes have different residues. */
  lemma {:induction false} ByteResidues(b: byte, b': byte)
    requires b != b'
    ensures 0x100 * (b as int) % 0xFFFF != 0x100 * (b' as int) % 0xFFFF
  {
  }

  lemma {:induction false} SumRemove(ws: seq<u16>, i: nat)
    requires i < |ws|
    ensures Sum(ws) == ws[i] + Sum(ws[..i] + ws[i + 1..])
  {
    SumAppend(ws[..i], ws[i..]);
    SumAppend(ws[..i], ws[i + 1..]);
    assert ws == ws[..i] + ws[i..];
    assert ws[i..][1..] == ws[i + 1..];
  }

  lemma {:induction false} RemoveAt(ws: seq<u16>, i: nat)
    requires i < |ws|
    ensures multiset(ws) == multiset(ws[..i] + ws[i + 1..]) + multiset{ws[i]}
  {
    assert ws == ws[..i] + [ws[i]] + ws[i + 1..];
  }

  /** The words other than one occurrence of the first. */
  lemma {:induction false} SameRest(a: seq<u16>, b: seq<u16>, i: nat)
    requires multiset(a) == multiset(b) && a != [] && i < |b| && b[i] == a[0]
    ensures multiset(a[1..]) == multiset(b[..i] + b[i + 1..])
  {
    assert a[..0] + a[1..] == a[1..];
    RemoveAt(b, i);
    RemoveAt(a, 0);
    Cancel(multiset(a[1..]), multiset(b[..i] + b[i + 1..]), a[0]);
  }

  lemma {:induction false} Cancel(m: multiset<u16>, n: multiset<u16>, w: u16)
    requires m + multiset{w} == n + multiset{w}
    ensures m == n
  {
    forall v ensures m[v] == n[v] {
      assert (m + multiset{w})[v] == (n + multiset{w})[v];
    }
  }

  lemma {:induction false} Occurs(w: u16, b: seq<u16>) returns (i: nat)
    requires w in multiset(b)
    ensures i < |b| && b[i] == w
  {
    i :| 0 <= i < |b| && b[i] == w;
  }

  /** The sum depends on which words there are, not on their order. */
  lemma {:induction false} SumIgnoresOrder(a: seq<u16>, b: seq<u16>)
    requires multiset(a) == multiset(b)
    ensures Sum(a) == Sum(b)
    decreases |a|
  {
    if a == [] {
      assert |multiset(b)| == |multiset(a)| == 0;
    } else {
      hide Sum;
      assert a[0] in multiset(a);
      var i := Occurs(a[0], b);
      SameRest(a, b, i);
      SumIgnoresOrder(a[1..], b[..i] + b[i + 1..]);
      SumRemove(b, i);
      SumRemove(a, 0);
      assert a[..0] + a[1..] == a[1..];
    }
  }

  /** Reordering aligned words never changes the checksum. */
  lemma {:induction false} ReorderingUndetected(a: seq<byte>, b: seq<byte>)
    requires multiset(Words(a)) == multiset(Words(b))
    ensures ChecksumOf(a) == ChecksumOf(b)
  {
    SumIgnoresOrder(Words(a), Words(b));
  }

  /** The worked example of RFC 1071, section 3. */
  lemma {:induction false} WorkedExample()
    ensures ChecksumOf([0x00, 0x01, 0xF2, 0x03, 0xF4, 0xF5, 0xF6, 0xF7]) == 0x220D
  {
    hide WordSum;
    var d1 := [0xF6, 0xF7];
    var d2 := [0xF4, 0xF5] + d1;
    var d3 := [0xF2, 0x03] + d2;
    WordSumShort([]);
    assert d1 == [0xF6, 0xF7] + [];
    FirstWord(0xF6, 0xF7, []);
    FirstWord(0xF4, 0xF5, d1);
    FirstWord(0xF2, 0x03, d2);
    FirstWord(0x00, 0x01, d3);
    assert [0x00, 0x01, 0xF2, 0x03, 0xF4, 0xF5, 0xF6, 0xF7] == [0x00, 0x01] + d3;
    assert Fold(0x2DDF0) == Fold(0xDDF2) == 0xDDF2;
  }

  lemma {:induction false} FirstWord(high: byte, low: byte, rest: seq<byte>)
    ensures WordSum([high, low] + rest) == 0x100 * (high as int) + (low as int) + WordSum(rest)
  {
    hide WordSum;
    var d := [high, low] + rest;
    WordSumStep(d);
    assert d[2..] == rest;
  }
}
