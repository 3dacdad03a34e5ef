/** Text as its UTF-8 bytes: validity, ASCII case folding and splitting at dots. */
module Text {
  import opened Wire

  type Text = seq<byte>

  const DOT: byte := 0x2E

  predicate Continuation(b: byte) {
    0x80 <= b < 0xC0
  }

  /** Length of the character at the front of `s`, zero when it is not well formed. */
  function CharLength(s: Text): (n: nat)
    requires s != []
    ensures n <= 4 && n <= |s|
  {
    if s[0] < 0x80 then 1
    else if |s| >= 2 && 0xC2 <= s[0] < 0xE0 && Continuation(s[1]) then 2
    else if |s| >= 3 && 0xE0 <= s[0] < 0xF0 && Continuation(s[1]) && Continuation(s[2])
            && (s[0] == 0xE0 ==> s[1] >= 0xA0) && (s[0] == 0xED ==> s[1] < 0xA0) then 3
    else if |s| >= 4 && 0xF0 <= s[0] < 0xF5 && Continuation(s[1]) && Continuation(s[2]) && Continuation(s[3])
            && (s[0] == 0xF0 ==> s[1] >= 0x90) && (s[0] == 0xF4 ==> s[1] < 0x90) then 4
    else 0
  }

  /** What `str::from_utf8` accepts. */
  predicate IsUtf8(s: Text) {
    s == [] || (CharLength(s) > 0 && IsUtf8(s[CharLength(s)..]))
  }

  /** What is text and what is not: overlong forms, surrogates and numbers beyond the last character are not. */
  lemma {:induction false} Utf8Examples()
    ensures IsUtf8([0x61]) && IsUtf8([0xC3, 0xA9]) && IsUtf8([0xE2, 0x82, 0xAC]) && IsUtf8([0xF0, 0x9F, 0x98, 0x80])
    ensures !IsUtf8([0x80]) && !IsUtf8([0xC0, 0x80]) && !IsUtf8([0xC3]) && !IsUtf8([0xE0, 0x80, 0x80])
    ensures !IsUtf8([0xED, 0xA0, 0x80]) && !IsUtf8([0xF4, 0x90, 0x80, 0x80]) && !IsUtf8([0xF5, 0x80, 0x80, 0x80])
  {
  }

  function LowerByte(b: byte): byte {
    if 0x41 <= b <= 0x5A then b + 0x20 else b
  }

  /** `to_ascii_lowercase` */
  function Lower(s: Text): (r: Text)
    ensures |r| == |s|
  {
    seq(|s|, i requires 0 <= i < |s| => LowerByte(s[i]))
  }

  lemma {:induction false} LowerKeepsUtf8(s: Text)
    requires IsUtf8(s)
    ensures IsUtf8(Lower(s))
    decreases |s|
  {
    if s != [] {
      var n := CharLength(s);
      LowerKeepsUtf8(s[n..]);
      assert Lower(s)[n..] == Lower(s[n..]);
      assert CharLength(Lower(s)) == n;
    }
  }

  lemma {:induction false} LowerIdempotent(s: Text)
    ensures Lower(Lower(s)) == Lower(s)
  {
  }

  /** Cutting valid text at a dot leaves two valid texts: no character contains the byte of a dot. */
  lemma {:induction false} CutAtDot(s: Text, i: nat)
    requires IsUtf8(s) && i < |s| && s[i] == DOT
    ensures IsUtf8(s[..i]) && IsUtf8(s[i + 1..])
    decreases |s|
  {
    var n := CharLength(s);
    if i > 0 {
      assert n <= i;
      var rest := s[n..];
      assert rest[i - n] == s[i];
      CutAtDot(rest, i - n);
      CutFront(s, n, i);
    } else {
      assert s[1..] == s[n..];
    }
  }

  lemma {:induction false} CutFront(s: Text, n: nat, i: nat)
    requires 0 < n <= i < |s| && n == CharLength(s)
    ensures CharLength(s[..i]) == n && s[..i][n..] == s[n..][..i - n] && s[i + 1..] == s[n..][i - n + 1..]
  {
  }

  // ---- Splitting -------------------------------------------------------------------------

  /** One more byte in front of the first piece. */
  function Prepend(b: byte, pieces: seq<Text>): (r: seq<Text>)
    requires |pieces| > 0
    ensures |r| > 0
  {
    [[b] + pieces[0]] + pieces[1..]
  }

  lemma {:induction false} PrependAppend(b: byte, front: seq<Text>, back: seq<Text>)
    requires |front| > 0
    ensures Prepend(b, front + back) == Prepend(b, front) + back
  {
    assert (front + back)[1..] == front[1..] + back;
  }

  lemma {:induction false} PrependDotted(b: byte, pieces: seq<Text>)
    requires |pieces| > 0
    ensures Dotted(Prepend(b, pieces)) == [b] + Dotted(pieces)
  {
    assert Prepend(b, pieces)[1..] == pieces[1..];
    assert [b] + (pieces[0] + [DOT] + Dotted(pieces[1..])) == ([b] + pieces[0]) + [DOT] + Dotted(pieces[1..]);
  }

  /** `split('.')`: every piece between dots, empty ones included. */
  function Split(s: Text): (r: seq<Text>)
    ensures |r| > 0
  {
    if s == [] then [[]]
    else if s[0] == DOT then [[]] + Split(s[1..])
    else Prepend(s[0], Split(s[1..]))
  }

  function NonEmpty(pieces: seq<Text>): seq<Text> {
    if pieces == [] then []
    else (if pieces[0] == [] then [] else [pieces[0]]) + NonEmpty(pieces[1..])
  }

  /** `trim_end_matches('.')` */
  function TrimDots(s: Text): Text {
    if s != [] && s[|s| - 1] == DOT then TrimDots(s[..|s| - 1]) else s
  }

  /** The labels a name is encoded with: its non-empty pieces. */
  function Parts(name: Text): seq<Text> {
    NonEmpty(Split(TrimDots(name)))
  }

  /** Every piece followed by a dot. */
  function Dotted(pieces: seq<Text>): Text {
    if pieces == [] then [] else pieces[0] + [DOT] + Dotted(pieces[1..])
  }

  /** The text of a list of labels; the root is a single dot. */
  function Render(labels: seq<Text>): Text {
    if labels == [] then [DOT] else Dotted(labels)
  }

  lemma {:induction false} SplitAround(a: Text, b: Text)
    ensures Split(a + [DOT] + b) == Split(a) + Split(b)
    decreases |a|
  {
    hide Prepend;
    var s := a + [DOT] + b;
    if a == [] {
      assert s[1..] == b;
    } else {
      SplitAround(a[1..], b);
      assert s[0] == a[0] && s[1..] == a[1..] + [DOT] + b;
      PrependAppend(a[0], Split(a[1..]), Split(b));
      assert [[]] + (Split(a[1..]) + Split(b)) == [[]] + Split(a[1..]) + Split(b);
    }
  }

  lemma {:induction false} SplitDotFree(a: Text)
    requires DOT !in a
    ensures Split(a) == [a]
    decreases |a|
  {
    if a != [] {
      SplitDotFree(a[1..]);
      assert [a[0]] + a[1..] == a;
    }
  }

  lemma {:induction false} NonEmptyAppend(a: seq<Text>, b: seq<Text>)
    ensures NonEmpty(a + b) == NonEmpty(a) + NonEmpty(b)
    decreases |a|
  {
    if a == [] {
      assert a + b == b;
    } else {
      NonEmptyAppend(a[1..], b);
      assert (a + b)[0] == a[0] && (a + b)[1..] == a[1..] + b;
      var first := if a[0] == [] then [] else [a[0]];
      assert first + (NonEmpty(a[1..]) + NonEmpty(b)) == first + NonEmpty(a[1..]) + NonEmpty(b);
    }
  }

  /** Trailing dots do not matter to the labels. */
  lemma {:induction false} PartsIgnoreTrim(s: Text)
    ensures Parts(s) == NonEmpty(Split(s))
    decreases |s|
  {
    if s != [] && s[|s| - 1] == DOT {
      var t := s[..|s| - 1];
      PartsIgnoreTrim(t);
      SplitAround(t, []);
      assert s == t + [DOT] + [];
      NonEmptyAppend(Split(t), [[]]);
      assert NonEmpty([[]]) == [];
      assert TrimDots(s) == TrimDots(t);
    }
  }

  /** A proper label: not empty, no dot. */
  predicate Label(l: Text) {
    l != [] && DOT !in l
  }

  predicate Labels(ls: seq<Text>) {
    forall i :: 0 <= i < |ls| ==> Label(ls[i])
  }

  lemma {:induction false} PartsOfDotted(ls: seq<Text>)
    requires Labels(ls)
    ensures NonEmpty(Split(Dotted(ls))) == ls
    decreases |ls|
  {
    if ls == [] {
      assert NonEmpty([[]]) == [];
    } else {
      hide Split, NonEmpty, Labels, Dotted;
      var first, rest := ls[0], ls[1..];
      LabelsRest(ls);
      DottedFirst(ls);
      PartsOfDotted(rest);
      SplitAround(first, Dotted(rest));
      SplitDotFree(first);
      NonEmptyFirst(first, Split(Dotted(rest)));
    }
  }

  lemma {:induction false} DottedFirst(ls: seq<Text>)
    requires ls != []
    ensures Dotted(ls) == ls[0] + [DOT] + Dotted(ls[1..]) && ls == [ls[0]] + ls[1..]
  {
  }

  lemma {:induction false} LabelsRest(ls: seq<Text>)
    requires Labels(ls) && ls != []
    ensures Label(ls[0]) && Labels(ls[1..])
  {
  }

  lemma {:induction false} NonEmptyFirst(l: Text, pieces: seq<Text>)
    requires l != []
    ensures NonEmpty([l] + pieces) == [l] + NonEmpty(pieces)
  {
    assert ([l] + pieces)[1..] == pieces;
  }

  lemma {:induction false} SplitPieces(s: Text)
    ensures forall i :: 0 <= i < |Split(s)| ==> DOT !in Split(s)[i]
    decreases |s|
  {
    if s != [] {
      SplitPieces(s[1..]);
    }
  }

  lemma {:induction false} NonEmptyMembers(pieces: seq<Text>)
    ensures forall p :: p in NonEmpty(pieces) ==> p in pieces && p != []
    decreases |pieces|
  {
    if pieces != [] {
      NonEmptyMembers(pieces[1..]);
    }
  }

  /** The parts of any text are proper labels. */
  lemma {:induction false} PartsAreLabels(s: Text)
    ensures Labels(Parts(s))
  {
    SplitPieces(TrimDots(s));
    NonEmptyMembers(Split(TrimDots(s)));
    forall i | 0 <= i < |Parts(s)| ensures Label(Parts(s)[i]) {
      assert Parts(s)[i] in NonEmpty(Split(TrimDots(s)));
    }
  }

  /** Joining what `Split` cut gives the text back, with one more dot. */
  lemma {:induction false} DottedSplit(s: Text)
    ensures Dotted(Split(s)) == s + [DOT]
    decreases |s|
  {
    hide Prepend;
    if s == [] {
      assert Dotted([[]]) == [] + [DOT] + Dotted([[]][1..]);
    } else {
      DottedSplit(s[1..]);
      assert [s[0]] + (s[1..] + [DOT]) == s + [DOT];
      if s[0] == DOT {
        assert Split(s)[1..] == Split(s[1..]);
      } else {
        PrependDotted(s[0], Split(s[1..]));
      }
    }
  }

  // ---- Canonical names ---------------------------------------------------------------------

  /** The root, or text that ends in a dot, does not start with one and has no two in a row. */
  predicate Canonical(n: Text) {
    || n == [DOT]
    || (&& |n| >= 2 && n[0] != DOT && n[|n| - 1] == DOT
        && forall i :: 0 <= i < |n| - 1 ==> !(n[i] == DOT && n[i + 1] == DOT))
  }

  /** Folded to lower case, with empty labels dropped and exactly one dot after each label. */
  function Normal(n: Text): Text {
    Render(LowerAll(Parts(n)))
  }

  function LowerAll(ls: seq<Text>): (r: seq<Text>)
    ensures |r| == |ls| && forall i :: 0 <= i < |ls| ==> r[i] == Lower(ls[i])
  {
    seq(|ls|, i requires 0 <= i < |ls| => Lower(ls[i]))
  }

  lemma {:induction false} LowerLabel(l: Text)
    requires Label(l)
    ensures Label(Lower(l))
  {
  }

  lemma {:induction false} LowerDotted(ls: seq<Text>)
    ensures Lower(Dotted(ls)) == Dotted(LowerAll(ls))
    decreases |ls|
  {
    if ls != [] {
      LowerDotted(ls[1..]);
      assert LowerAll(ls)[1..] == LowerAll(ls[1..]);
      var d := Dotted(ls);
      assert d == ls[0] + [DOT] + Dotted(ls[1..]);
      assert Lower(d) == Lower(ls[0]) + [DOT] + Lower(Dotted(ls[1..]));
    }
  }

  lemma {:induction false} DottedCanonical(ls: seq<Text>)
    requires Labels(ls) && ls != []
    ensures Canonical(Dotted(ls)) && |Dotted(ls)| >= 2
    decreases |ls|
  {
    var d := Dotted(ls);
    if |ls| == 1 {
      assert d == ls[0] + [DOT];
    } else {
      var rest := Dotted(ls[1..]);
      DottedCanonical(ls[1..]);
      assert d == ls[0] + [DOT] + rest;
      forall i | 0 <= i < |d| - 1 ensures !(d[i] == DOT && d[i + 1] == DOT) {
        if i >= |ls[0]| + 1 {
          assert d[i] == rest[i - |ls[0]| - 1] && d[i + 1] == rest[i - |ls[0]|];
        } else if i < |ls[0]| {
          assert d[i] in ls[0];
        }
      }
    }
  }

  /** In canonical text no piece before the final dot is empty. */
  lemma {:induction false} CanonicalPieces(s: Text)
    requires s != [] && s[0] != DOT && s[|s| - 1] != DOT
    requires forall i :: 0 <= i < |s| - 1 ==> !(s[i] == DOT && s[i + 1] == DOT)
    ensures NonEmpty(Split(s)) == Split(s)
    decreases |s|
  {
    if DOT in s {
      var i :| 0 <= i < |s| && s[i] == DOT;
      var a, b := s[..i], s[i + 1..];
      CanonicalPieces(a);
      CanonicalPieces(b);
      assert s == a + [DOT] + b;
      SplitAround(a, b);
      NonEmptyAppend(Split(a), Split(b));
    } else {
      SplitDotFree(s);
    }
  }

  /** A name is its own normal form exactly when it is canonical and in lower case. */
  lemma {:induction false} NormalExactly(n: Text)
    ensures Normal(n) == n <==> Canonical(n) && Lower(n) == n
  {
    if Normal(n) == n {
      NormalIsCanonical(n);
    }
    if Canonical(n) && Lower(n) == n {
      CanonicalIsNormal(n);
    }
  }

  lemma {:induction false} LowerLabels(ls: seq<Text>)
    requires Labels(ls)
    ensures Labels(LowerAll(ls))
  {
    forall i | 0 <= i < |ls| ensures Label(LowerAll(ls)[i]) {
      LowerLabel(ls[i]);
    }
  }

  lemma {:induction false} LowerAllIdempotent(ls: seq<Text>)
    ensures LowerAll(LowerAll(ls)) == LowerAll(ls)
  {
    forall i | 0 <= i < |ls| ensures LowerAll(LowerAll(ls))[i] == LowerAll(ls)[i] {
      LowerIdempotent(ls[i]);
    }
  }

  lemma {:induction false} NormalIsCanonical(n: Text)
    ensures Canonical(Normal(n)) && Lower(Normal(n)) == Normal(n)
  {
    var ls := Parts(n);
    PartsAreLabels(n);
    LowerLabels(ls);
    if ls == [] {
      assert LowerAll(ls) == [];
      assert Normal(n) == [DOT];
    } else {
      DottedCanonical(LowerAll(ls));
      LowerDotted(LowerAll(ls));
      LowerAllIdempotent(ls);
    }
  }

  lemma {:induction false} CanonicalIsNormal(n: Text)
    requires Canonical(n) && Lower(n) == n
    ensures Normal(n) == n
  {
    PartsIgnoreTrim(n);
    if n == [DOT] {
      SplitAround([], []);
      assert n == [] + [DOT] + [];
      assert Split(n) == [[], []];
      assert NonEmpty([[], []]) == [];
      assert LowerAll([]) == [];
    } else {
      var s := n[..|n| - 1];
      assert s[|s| - 1] == n[|n| - 2];
      CanonicalPieces(s);
      DottedSplit(s);
      assert n == s + [DOT] + [];
      SplitAround(s, []);
      NonEmptyAppend(Split(s), [[]]);
      assert NonEmpty([[]]) == [];
      assert Parts(n) == Split(s);
      LowerDotted(Split(s));
    }
  }
}
