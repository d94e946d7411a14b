/**
 UTF-8 text as the editor walks it (clients/editor.c): bytes without the
 terminating 0, positions counted in bytes.
 */
module Utf8 {

  type Byte = b: int | 0 < b < 0x100 witness 1
  type Text = seq<Byte>

  datatype Position = At(p: nat) | Nowhere

  /** A continuation byte: its two top bits are 10. */
  predicate Continues(b: Byte) {
    0x80 <= b < 0xC0
  }

  // ------------------------------------------------------- section 4 of RFC 3629

  /** How many bytes a character with this first byte has; 0 if none has it. */
  function Width(b: Byte): nat {
    if b < 0x80 then 1
    else if 0xC2 <= b < 0xE0 then 2
    else if 0xE0 <= b < 0xF0 then 3
    else if 0xF0 <= b < 0xF5 then 4
    else 0
  }

  predicate Character(c: Text) {
    && 0 < |c| == Width(c[0])
    && (forall i | 1 <= i < |c| :: Continues(c[i]))
    && (c[0] == 0xE0 ==> c[1] >= 0xA0)
    && (c[0] == 0xED ==> c[1] <= 0x9F)
    && (c[0] == 0xF0 ==> c[1] >= 0x90)
    && (c[0] == 0xF4 ==> c[1] <= 0x8F)
  }

  predicate WellFormed(s: Text) {
    s == [] || (var w := Width(s[0]); 0 < w <= |s| && Character(s[..w]) && WellFormed(s[w..]))
  }

  /** A place between characters. */
  predicate Boundary(s: Text, i: int) {
    0 <= i <= |s| && (i == |s| || !Continues(s[i]))
  }

  lemma {:induction false} WellFormedConcatenation(s: Text, t: Text)
    requires WellFormed(s) && WellFormed(t)
    ensures WellFormed(s + t)
  {
    if s == [] {
      assert s + t == t;
    } else {
      var w := Width(s[0]);
      WellFormedConcatenation(s[w..], t);
      SumParts(s, t, w);
    }
  }

  lemma SumParts(s: Text, t: Text, w: nat)
    requires 0 < w <= |s|
    ensures (s + t)[0] == s[0] && (s + t)[..w] == s[..w] && (s + t)[w..] == s[w..] + t
  {
  }

  /** The first character, and where it ends. */
  lemma FirstCharacter(s: Text)
    requires WellFormed(s) && s != []
    ensures var w := Width(s[0]);
      && 0 < w <= |s| && Character(s[..w]) && WellFormed(s[w..]) && !Continues(s[0])
      && (forall k | 1 <= k < w :: Continues(s[k])) && Boundary(s, w)
  {
    var w := Width(s[0]);
    forall k | 1 <= k < w ensures Continues(s[k]) {
      assert Continues(s[..w][k]);
    }
    if w < |s| {
      assert s[w..][0] == s[w];
    }
  }

  lemma PrefixParts(s: Text, w: nat, i: nat)
    requires w <= i <= |s|
    ensures s[..i][..w] == s[..w] && s[..i][w..] == s[w..i]
    ensures s[w..][..i - w] == s[w..i] && s[w..][i - w..] == s[i..]
  {
  }

  lemma {:induction false} WellFormedSplit(s: Text, i: int)
    requires WellFormed(s) && Boundary(s, i)
    ensures WellFormed(s[..i]) && WellFormed(s[i..])
  {
    if i == 0 {
      assert s[0..] == s;
    } else {
      var w := Width(s[0]);
      FirstCharacter(s);
      WellFormedSplit(s[w..], i - w);
      PrefixParts(s, w, i);
    }
  }

  /** Between characters is exactly where both parts are well-formed. */
  lemma BoundaryIff(s: Text, i: int)
    requires WellFormed(s) && 0 <= i <= |s|
    ensures Boundary(s, i) <==> WellFormed(s[..i]) && WellFormed(s[i..])
  {
    if Boundary(s, i) {
      WellFormedSplit(s, i);
    }
  }

  // ------------------------------------------------------------- walking the text

  /** The first place from p on that does not continue a character. */
  function EndChar(s: Text, p: nat): (q: nat)
    requires p <= |s|
    ensures p <= q <= |s| && (forall k | p <= k < q :: Continues(s[k])) && Boundary(s, q)
    decreases |s| - p
  {
    if p < |s| && Continues(s[p]) then EndChar(s, p + 1) else p
  }

  /** The last place before p that does not continue a character. */
  function PrevChar(s: Text, p: nat): (q: Position)
    requires p <= |s|
    ensures q.At? ==> q.p < p && Boundary(s, q.p) && forall k | q.p < k < p :: Continues(s[k])
    ensures q.Nowhere? ==> forall k | 0 <= k < p :: Continues(s[k])
  {
    if p == 0 then Nowhere else if !Continues(s[p - 1]) then At(p - 1) else PrevChar(s, p - 1)
  }

  function NextChar(s: Text, p: nat): (q: Position)
    requires p <= |s|
    ensures q.At? <==> p < |s|
    ensures q.At? ==> p < q.p <= |s| && Boundary(s, q.p)
  {
    if p < |s| then At(EndChar(s, p + 1)) else Nowhere
  }

  method FindEndChar(s: Text, p: nat) returns (q: nat)
    requires p <= |s|
    ensures q == EndChar(s, p)
  {
    q := p;
    while q < |s| && Continues(s[q])
      invariant p <= q <= |s| && EndChar(s, q) == EndChar(s, p)
    {
      q := q + 1;
    }
  }

  method FindPrevChar(s: Text, p: nat) returns (q: Position)
    requires p <= |s|
    ensures q == PrevChar(s, p)
  {
    var i: int := p - 1;
    while i >= 0
      invariant -1 <= i < p && PrevChar(s, i + 1) == PrevChar(s, p)
    {
      if !Continues(s[i]) {
        return At(i);
      }
      i := i - 1;
    }
    return Nowhere;
  }

  method FindNextChar(s: Text, p: nat) returns (q: Position)
    requires p <= |s|
    ensures q == NextChar(s, p)
  {
    if p < |s| {
      var e := FindEndChar(s, p + 1);
      return At(e);
    }
    return Nowhere;
  }

  /** One step forward passes exactly one character. */
  lemma NextPassesCharacter(s: Text, i: nat)
    requires WellFormed(s) && Boundary(s, i) && i < |s|
    ensures NextChar(s, i).At? && Character(s[i..NextChar(s, i).p])
  {
    WellFormedSplit(s, i);
    var w := FirstWidth(s[i..]);
    NextInTail(s, i, w);
  }

  lemma NextInTail(s: Text, i: nat, w: nat)
    requires i < |s| && EndChar(s[i..], 1) == w
    ensures NextChar(s, i) == At(i + w) && s[i..i + w] == s[i..][..w]
  {
    EndCharInTail(s, i, 1);
  }

  lemma FirstWidth(s: Text) returns (w: nat)
    requires WellFormed(s) && s != []
    ensures EndChar(s, 1) == w <= |s| && Character(s[..w])
  {
    w := Width(s[0]);
    FirstCharacter(s);
    EndCharIs(s, 1, w);
  }

  lemma {:induction false} EndCharInTail(s: Text, i: nat, p: nat)
    requires i + p <= |s|
    ensures EndChar(s, i + p) == i + EndChar(s[i..], p)
    decreases |s| - p
  {
    if i + p < |s| && Continues(s[i + p]) {
      EndCharInTail(s, i, p + 1);
    }
  }

  lemma EndCharIs(s: Text, p: nat, q: nat)
    requires p <= q <= |s| && Boundary(s, q) && forall k | p <= k < q :: Continues(s[k])
    ensures EndChar(s, p) == q
  {
  }

  lemma PrevCharIs(s: Text, p: nat, q: nat)
    requires q < p <= |s| && !Continues(s[q]) && forall k | q < k < p :: Continues(s[k])
    ensures PrevChar(s, p) == At(q)
  {
  }

  /** ... and one step back undoes it. */
  lemma NextThenPrev(s: Text, i: nat)
    requires Boundary(s, i) && i < |s|
    ensures NextChar(s, i).At? && PrevChar(s, NextChar(s, i).p) == At(i)
  {
    PrevCharIs(s, NextChar(s, i).p, i);
  }

  /** One step back from any place but the start is undone by one step forward. */
  lemma PrevThenNext(s: Text, j: nat)
    requires WellFormed(s) && Boundary(s, j) && 0 < j
    ensures PrevChar(s, j).At? && Boundary(s, PrevChar(s, j).p)
    ensures NextChar(s, PrevChar(s, j).p) == At(j)
  {
    FirstCharacter(s);
    EndCharIs(s, PrevChar(s, j).p + 1, j);
  }

  lemma BoundaryInSuffix(a: Text, b: Text, k: int)
    requires 0 <= k <= |b|
    ensures Boundary(a + b, |a| + k) <==> Boundary(b, k)
  {
    if k < |b| {
      assert (a + b)[|a| + k] == b[k];
    }
  }

  /** Text with the bytes from i to j replaced by t. */
  function Spliced(s: Text, i: nat, j: nat, t: Text): Text
    requires i <= j <= |s|
  {
    s[..i] + t + s[j..]
  }

  lemma SpliceWellFormed(s: Text, i: nat, j: nat, t: Text)
    requires WellFormed(s) && WellFormed(t)
    requires i <= j && Boundary(s, i) && Boundary(s, j)
    ensures WellFormed(Spliced(s, i, j, t))
  {
    WellFormedSplit(s, i);
    WellFormedSplit(s, j);
    WellFormedConcatenation(s[..i], t);
    WellFormedConcatenation(s[..i] + t, s[j..]);
  }

  lemma BoundaryInTail(s: Text, j: nat, k: nat)
    requires j <= k <= |s|
    ensures Boundary(s[j..], k - j) <==> Boundary(s, k)
  {
  }

  /** A place before or after the change stays between characters. */
  lemma SpliceBefore(s: Text, i: nat, j: nat, t: Text, k: nat)
    requires WellFormed(t)
    requires k <= i <= j && Boundary(s, j) && Boundary(s, k)
    ensures Boundary(Spliced(s, i, j, t), k)
  {
    var r := Spliced(s, i, j, t);
    if k < i {
      assert r[k] == s[k];
    } else if t != [] {
      FirstCharacter(t);
      assert r[k] == t[0];
    } else if j < |s| {
      assert r[k] == s[j];
    }
  }

  lemma SpliceAfter(s: Text, i: nat, j: nat, t: Text, k: nat)
    requires i <= j <= k && Boundary(s, k)
    ensures Boundary(Spliced(s, i, j, t), i + |t| + (k - j))
  {
    BoundaryInTail(s, j, k);
    BoundaryInSuffix(s[..i] + t, s[j..], k - j);
  }

  // -------------------------------------------------------------- cutting bytes out

  lemma {:induction false} PrefixBoundary(s: Text, i: nat)
    requires i <= |s| && WellFormed(s) && WellFormed(s[..i])
    ensures Boundary(s, i)
  {
    if 0 < i {
      FirstCharacter(s);
      FirstCharacter(s[..i]);
      var w := Width(s[0]);
      assert s[..i][w..] == s[w..][..i - w];
      PrefixBoundary(s[w..], i - w);
      BoundaryInTail(s, w, i);
    } else if s != [] {
      FirstCharacter(s);
    }
  }

  lemma OneCharacter(c: Text)
    requires Character(c)
    ensures WellFormed(c)
  {
    assert c[..|c|] == c;
  }

  /** Text that only continues its first byte is one character. */
  lemma SingleCharacter(c: Text)
    requires WellFormed(c) && c != [] && forall k | 1 <= k < |c| :: Continues(c[k])
    ensures Character(c)
  {
    FirstCharacter(c);
    assert c[..|c|] == c;
  }

  /** The places i and j are inside characters, and the first part of the one with
      the last part of the other is a character again. */
  predicate Joins(s: Text, i: nat, j: nat)
    requires i <= j <= |s|
  {
    && !Boundary(s, i) && !Boundary(s, j)
    && PrevChar(s, i).At?
    && Character(s[PrevChar(s, i).p..i] + s[j..EndChar(s, j)])
  }

  /** Bytes cut out from between characters to inside one leave a stray rest. */
  lemma CutFromBoundary(s: Text, i: nat, j: nat)
    requires WellFormed(s) && i <= j <= |s| && Boundary(s, i) && !Boundary(s, j)
    ensures !WellFormed(Spliced(s, i, j, []))
  {
    var r := Spliced(s, i, j, []);
    assert r[..i] == s[..i] && r[i] == s[j];
    WellFormedSplit(s, i);
    if WellFormed(r) {
      PrefixBoundary(r, i);
    }
  }

  lemma CutToBoundary(s: Text, i: nat, j: nat)
    requires WellFormed(s) && i <= j <= |s| && !Boundary(s, i) && Boundary(s, j)
    ensures !WellFormed(Spliced(s, i, j, []))
  {
    var r := Spliced(s, i, j, []);
    if WellFormed(r) {
      SpliceAfter(s, i, j, [], j);
      WellFormedSplit(r, i);
      assert r[..i] == s[..i];
      PrefixBoundary(s, i);
    }
  }

  lemma JoinParts(a: Text, m: Text, b: Text)
    requires WellFormed(a) && WellFormed(m) && WellFormed(b)
    ensures WellFormed(a + m + b)
  {
    WellFormedConcatenation(a, m);
    WellFormedConcatenation(a + m, b);
  }

  lemma FirstParts(a: Text, b: Text)
    requires WellFormed(a + b) && Boundary(a + b, |a|)
    ensures WellFormed(a) && WellFormed(b)
  {
    WellFormedSplit(a + b, |a|);
    assert (a + b)[..|a|] == a && (a + b)[|a|..] == b;
  }

  /** Well-formed text behind a place makes it a boundary. */
  lemma BoundaryBefore(a: Text, b: Text)
    requires WellFormed(b)
    ensures Boundary(a + b, |a|)
  {
    if b != [] {
      FirstCharacter(b);
      assert (a + b)[|a|] == b[0];
    }
  }

  lemma MiddlePart(a: Text, m: Text, b: Text)
    requires WellFormed(a + m + b) && WellFormed(b) && m != [] && !Continues(m[0])
    ensures WellFormed(m)
  {
    BoundaryBefore(a + m, b);
    FirstParts(a + m, b);
    assert (a + m)[|a|] == m[0];
    FirstParts(a, m);
  }

  lemma CutInside(s: Text, i: nat, j: nat)
    requires WellFormed(s) && i <= j <= |s| && !Boundary(s, i) && !Boundary(s, j)
    ensures WellFormed(Spliced(s, i, j, [])) <==> Joins(s, i, j)
  {
    var p := Enclosing(s, i);
    CutMiddle(s, p, i, j, EndChar(s, j));
  }

  lemma CutMiddle(s: Text, p: nat, i: nat, j: nat, q: nat)
    requires WellFormed(s) && p < i <= j <= q <= |s| && Boundary(s, p) && Boundary(s, q)
    requires forall k | p < k < i :: Continues(s[k])
    requires forall k | j <= k < q :: Continues(s[k])
    ensures WellFormed(Spliced(s, i, j, [])) <==> Character(s[p..i] + s[j..q])
  {
    var a, m, b := s[..p], s[p..i] + s[j..q], s[q..];
    SplicedParts(s, p, i, j, q);
    WellFormedSplit(s, p);
    WellFormedSplit(s, q);
    MiddleContinues(s, p, i, j, q);
    JoinedMiddle(a, m, b);
  }

  lemma SplicedParts(s: Text, p: nat, i: nat, j: nat, q: nat)
    requires p <= i <= j <= q <= |s|
    ensures Spliced(s, i, j, []) == s[..p] + (s[p..i] + s[j..q]) + s[q..]
  {
    assert s[..i] == s[..p] + s[p..i] && s[j..] == s[j..q] + s[q..];
  }

  lemma MiddleContinues(s: Text, p: nat, i: nat, j: nat, q: nat)
    requires p < i <= j <= q <= |s| && Boundary(s, p)
    requires forall k | p < k < i :: Continues(s[k])
    requires forall k | j <= k < q :: Continues(s[k])
    ensures var m := s[p..i] + s[j..q]; !Continues(m[0]) && forall k | 1 <= k < |m| :: Continues(m[k])
  {
    var m := s[p..i] + s[j..q];
    forall k | 1 <= k < |m| ensures Continues(m[k]) {
      assert m[k] == if p + k < i then s[p + k] else s[j + (p + k - i)];
    }
  }

  lemma JoinedMiddle(a: Text, m: Text, b: Text)
    requires WellFormed(a) && WellFormed(b) && m != [] && !Continues(m[0])
    requires forall k | 1 <= k < |m| :: Continues(m[k])
    ensures WellFormed(a + m + b) <==> Character(m)
  {
    if Character(m) {
      OneCharacter(m);
      JoinParts(a, m, b);
    }
    if WellFormed(a + m + b) {
      MiddlePart(a, m, b);
      SingleCharacter(m);
    }
  }

  /** The start of the character a place is inside of. */
  lemma Enclosing(s: Text, i: nat) returns (p: nat)
    requires WellFormed(s) && i <= |s| && !Boundary(s, i)
    ensures PrevChar(s, i) == At(p)
  {
    FirstCharacter(s);
    p := PrevChar(s, i).p;
  }

  /** Cutting bytes out leaves well-formed text exactly when they are whole characters,
      or two characters that are cut through join. */
  lemma CutIff(s: Text, i: nat, j: nat)
    requires WellFormed(s) && i <= j <= |s|
    ensures WellFormed(Spliced(s, i, j, [])) <==> (Boundary(s, i) && Boundary(s, j)) || Joins(s, i, j)
  {
    if Boundary(s, i) && Boundary(s, j) {
      SpliceWellFormed(s, i, j, []);
    } else if Boundary(s, i) {
      CutFromBoundary(s, i, j);
    } else if Boundary(s, j) {
      CutToBoundary(s, i, j);
    } else {
      CutInside(s, i, j);
    }
  }

  /** Well-formed text put in between leaves well-formed text with a boundary behind it
      exactly when there was one. */
  lemma PutInIff(s: Text, i: nat, t: Text)
    requires WellFormed(t) && i <= |s|
    ensures WellFormed(Spliced(s, i, i, t)) && Boundary(Spliced(s, i, i, t), i + |t|)
      <==> WellFormed(s) && Boundary(s, i)
  {
    var r := Spliced(s, i, i, t);
    if WellFormed(s) && Boundary(s, i) {
      SpliceWellFormed(s, i, i, t);
      SpliceAfter(s, i, i, t, i);
    }
    if WellFormed(r) && Boundary(r, i + |t|) {
      TakenOut(s, i, t);
    }
  }

  lemma TakenOut(s: Text, i: nat, t: Text)
    requires WellFormed(t) && i <= |s|
    requires WellFormed(Spliced(s, i, i, t)) && Boundary(Spliced(s, i, i, t), i + |t|)
    ensures WellFormed(s) && Boundary(s, i)
  {
    var a, b := s[..i], s[i..];
    OuterParts(a, t, b);
    WellFormedConcatenation(a, b);
    BoundaryBefore(a, b);
    assert a + b == s;
  }

  lemma OuterParts(a: Text, t: Text, b: Text)
    requires WellFormed(t) && WellFormed(a + t + b) && Boundary(a + t + b, |a| + |t|)
    ensures WellFormed(a) && WellFormed(b)
  {
    FirstParts(a + t, b);
    BoundaryBefore(a, t);
    FirstParts(a, t);
  }
}
