/** What the cyclic redundancy check is worth: the loop computes a polynomial
    remainder, a message is valid exactly when the generator divides it, and no
    short burst of errors goes unnoticed. */
module CrcProofs {
  import opened Crc

  // ------------------------------------------------- one byte of the loop at once

  lemma BytesOfState(s: bv16, b: bv8)
    ensures High((s >> 8) as bv8 ^ b) == Xor(s & 0xff00, High(b))
  {
  }

  lemma LowByteMoves(s: bv16)
    ensures ShiftBy(s & 0x00ff, 8) == s << 8
  {
    Shift8Is(s & 0x00ff);
    Shift8OfByte(s & 0x00ff);
  }

  lemma Shift8OfByte(c: bv16)
    requires c & 0xff00 == 0
    ensures Shift8(c) == c << 8
  {
  }

  lemma SplitState(s: bv16, b: bv8)
    ensures Xor(s, High(b)) == Xor(Xor(s & 0xff00, High(b)), s & 0x00ff)
  {
    assert Xor(s & 0xff00, s & 0x00ff) == s by { HalvesOfState(s); }
    hide Xor, High;
    XorLaws(s & 0xff00, s & 0x00ff, High(b));
    XorLaws(s & 0xff00, High(b), s & 0x00ff);
    XorLaws(s & 0x00ff, High(b), 0);
  }

  lemma HalvesOfState(s: bv16)
    ensures Xor(s & 0xff00, s & 0x00ff) == s
  {
  }

  /** One turn of the table-driven loop is eight steps of polynomial division. */
  lemma UpdateIsDivision(s: bv16, b: bv8)
    ensures Update(s, b) == ShiftBy(Xor(s, High(b)), 8)
  {
    hide ShiftBy, TableEntry, Xor, High;
    TableIsPolynomial((s >> 8) as bv8 ^ b);
    BytesOfState(s, b);
    SplitState(s, b);
    LowByteMoves(s);
    ShiftByXor(Xor(s & 0xff00, High(b)), s & 0x00ff, 8);
  }

  // ------------------------------------------------------------------- remainders

  lemma {:induction false} RemainderAppend(p: seq<bool>, w: seq<bool>)
    ensures Remainder(p + w) == Xor(ShiftBy(Remainder(p), |w|), Remainder(w))
  {
    hide Shift, Xor;
    if w == [] {
      assert p + w == p;
      XorLaws(Remainder(p), 0, 0);
    } else {
      var n := |w| - 1;
      RemainderAppend(p, w[..n]);
      assert (p + w)[..|p + w| - 1] == p + w[..n];
      ShiftXor(ShiftBy(Remainder(p), n), Remainder(w[..n]));
      XorLaws(ShiftBy(Remainder(p), n + 1), Shift(Remainder(w[..n])), AsWord(w[n]));
    }
  }

  lemma {:induction false} RemainderOfZeros(n: nat)
    ensures Remainder(Zeros(n)) == 0
  {
    hide Xor, Shift;
    if n == 0 {
    } else {
      RemainderOfZeros(n - 1);
      assert Zeros(n)[..n - 1] == Zeros(n - 1);
      ShiftZero(0);
      XorLaws(0, 0, 0);
    }
  }

  lemma RemainderStep(w: seq<bool>, j: nat)
    requires j < |w|
    ensures Remainder(w[..j + 1]) == Xor(Shift(Remainder(w[..j])), AsWord(w[j]))
  {
    assert w[..j + 1][..j] == w[..j];
  }

  lemma NextBitOfByte(b: bv8)
    ensures Xor(Shift((b >> 8) as bv16), AsWord(b & 0x80 != 0)) == (b >> 7) as bv16
    ensures Xor(Shift((b >> 7) as bv16), AsWord(b & 0x40 != 0)) == (b >> 6) as bv16
    ensures Xor(Shift((b >> 6) as bv16), AsWord(b & 0x20 != 0)) == (b >> 5) as bv16
    ensures Xor(Shift((b >> 5) as bv16), AsWord(b & 0x10 != 0)) == (b >> 4) as bv16
    ensures Xor(Shift((b >> 4) as bv16), AsWord(b & 0x08 != 0)) == (b >> 3) as bv16
    ensures Xor(Shift((b >> 3) as bv16), AsWord(b & 0x04 != 0)) == (b >> 2) as bv16
    ensures Xor(Shift((b >> 2) as bv16), AsWord(b & 0x02 != 0)) == (b >> 1) as bv16
    ensures Xor(Shift((b >> 1) as bv16), AsWord(b & 0x01 != 0)) == (b >> 0) as bv16
  {
  }

  lemma RemainderOfByte(b: bv8)
    ensures Remainder(BitsOfByte(b)) == Low(b)
  {
    hide Xor, Shift;
    var w := BitsOfByte(b);
    NextBitOfByte(b);
    RemainderStep(w, 0);
    RemainderStep(w, 1);
    RemainderStep(w, 2);
    RemainderStep(w, 3);
    RemainderStep(w, 4);
    RemainderStep(w, 5);
    RemainderStep(w, 6);
    RemainderStep(w, 7);
    assert w[..8] == w;
  }

  /** The table-driven loop computes the remainder of the message, sixteen places
      up, in the division by the generator. */
  lemma {:induction false} CrcIsRemainder(msg: seq<bv8>)
    ensures CrcOf(msg) == ShiftBy(Remainder(Bits(msg)), 16)
  {
    hide Xor, Shift, Update, High, Low;
    if msg == [] {
      ShiftByZero(0, 16);
    } else {
      var p, b := msg[..|msg| - 1], msg[|msg| - 1];
      var r := Remainder(Bits(p));
      CrcIsRemainder(p);
      UpdateIsDivision(CrcOf(p), b);
      RemainderAppend(Bits(p), BitsOfByte(b));
      RemainderOfByte(b);
      ByteMovesUp(b);
      ShiftByXor(ShiftBy(r, 16), High(b), 8);
      ShiftByXor(ShiftBy(r, 8), Low(b), 16);
      ShiftByAdd(r, 16, 8);
      ShiftByAdd(r, 8, 16);
      ShiftByAdd(Low(b), 8, 8);
    }
  }

  /** In other words: the loop divides the message followed by sixteen zeros. */
  lemma CrcIsAugmentedRemainder(msg: seq<bv8>)
    ensures CrcOf(msg) == Remainder(Bits(msg) + Zeros(16))
  {
    hide Xor, Shift, Update;
    CrcIsRemainder(msg);
    RemainderAppend(Bits(msg), Zeros(16));
    RemainderOfZeros(16);
    XorLaws(CrcOf(msg), 0, 0);
  }

  lemma ByteMovesUp(b: bv8)
    ensures ShiftBy(Low(b), 8) == High(b)
  {
    Shift8Is(b as bv16);
    Shift8OfByte(b as bv16);
  }

  // ------------------------------------------------------------ append and check

  lemma CrcOfTwoMore(p: seq<bv8>, h: bv8, l: bv8)
    ensures CrcOf(p + [h, l]) == Update(Update(CrcOf(p), h), l)
  {
    hide Update, CrcOf;
    CrcOfOneMore(p, h);
    CrcOfOneMore(p + [h], l);
    assert p + [h] + [l] == p + [h, l];
  }

  lemma CrcOfOneMore(p: seq<bv8>, b: bv8)
    ensures CrcOf(p + [b]) == Update(CrcOf(p), b)
  {
    hide Update;
    assert (p + [b])[..|p|] == p;
  }

  lemma TwoUpdates(s: bv16, h: bv8, l: bv8)
    ensures Update(Update(s, h), l) == ShiftBy(Xor(s, Xor(High(h), Low(l))), 16)
  {
    hide Shift, Xor, Update, High, Low;
    var t := Xor(s, High(h));
    UpdateIsDivision(s, h);
    UpdateIsDivision(Update(s, h), l);
    ByteMovesUp(l);
    ShiftByXor(ShiftBy(t, 8), High(l), 8);
    ShiftByAdd(t, 8, 8);
    ShiftByAdd(Low(l), 8, 8);
    ShiftByXor(t, Low(l), 16);
    XorLaws(s, High(h), Low(l));
  }

  lemma SplitWord(c: bv16)
    ensures c == Xor(High(CrcBytes(c)[0]), Low(CrcBytes(c)[1]))
  {
  }

  lemma JoinWord(h: bv8, l: bv8)
    ensures CrcBytes(Xor(High(h), Low(l))) == [h, l]
  {
  }

  lemma XorZero(a: bv16, b: bv16)
    ensures Xor(a, b) == 0 <==> a == b
  {
    hide Xor;
    XorLaws(b, b, 0);
    if Xor(a, b) == 0 {
      XorCancel(a, b, b);
    }
  }

  /** A message is valid exactly when its last two bytes are the ones that
      `ComputeCRC` would write there. */
  lemma ValidIffSealed(p: seq<bv8>, h: bv8, l: bv8)
    ensures Validates(p + [h, l]) <==> p + [h, l] == Sealed(p)
  {
    hide Shift, Xor, Update, CrcBytes, High, Low;
    var word := Xor(High(h), Low(l));
    CrcOfTwoMore(p, h, l);
    TwoUpdates(CrcOf(p), h, l);
    ShiftByZero(Xor(CrcOf(p), word), 16);
    XorZero(CrcOf(p), word);
    SplitWord(CrcOf(p));
    JoinWord(h, l);
    if p + [h, l] == Sealed(p) {
      assert (p + [h, l])[|p|..] == Sealed(p)[|p|..];
    }
  }

  // ---------------------------------------------------------------------- linearity

  function XorBytes(a: seq<bv8>, b: seq<bv8>): (c: seq<bv8>)
    requires |a| == |b|
    ensures |c| == |a|
  {
    seq(|a|, i requires 0 <= i < |a| => a[i] ^ b[i])
  }

  lemma XorOfBytes(x: bv8, y: bv8)
    ensures High(x ^ y) == Xor(High(x), High(y))
  {
  }

  lemma UpdateXor(s: bv16, t: bv16, x: bv8, y: bv8)
    ensures Update(Xor(s, t), x ^ y) == Xor(Update(s, x), Update(t, y))
  {
    hide Shift, Xor, Update, High;
    UpdateIsDivision(s, x);
    UpdateIsDivision(t, y);
    UpdateIsDivision(Xor(s, t), x ^ y);
    XorOfBytes(x, y);
    XorInterchange(s, t, High(x), High(y));
    ShiftByXor(Xor(s, High(x)), Xor(t, High(y)), 8);
  }

  /** The check is XOR-linear on messages of equal length. */
  lemma {:induction false} CrcIsLinear(a: seq<bv8>, b: seq<bv8>)
    requires |a| == |b|
    ensures CrcOf(XorBytes(a, b)) == Xor(CrcOf(a), CrcOf(b))
  {
    hide Shift, Xor, Update;
    if a == [] {
      XorLaws(0, 0, 0);
    } else {
      var n := |a| - 1;
      CrcIsLinear(a[..n], b[..n]);
      assert XorBytes(a, b)[..n] == XorBytes(a[..n], b[..n]);
      UpdateXor(CrcOf(a[..n]), CrcOf(b[..n]), a[n], b[n]);
    }
  }

  // -------------------------------------------------------------- error detection

  lemma {:induction false} ShiftByInjective(a: bv16, b: bv16, n: nat)
    requires ShiftBy(a, n) == ShiftBy(b, n)
    ensures a == b
  {
    hide Shift;
    if n == 0 {
    } else {
      ShiftInjective(ShiftBy(a, n - 1), ShiftBy(b, n - 1));
      ShiftByInjective(a, b, n - 1);
    }
  }

  /** The bits that a remainder of n coefficients cannot reach. */
  function Unreached(n: nat): bv16 {
    if n == 0 then 0xffff else Unreached(n - 1) << 1
  }

  predicate Avoids(c: bv16, mask: bv16) {
    c & mask == 0
  }

  lemma UnreachedTop(n: nat)
    requires n <= 15
    ensures !Avoids(Unreached(n), 0x8000)
  {
    assert Unreached(4) == 0xfff0 by { assert Unreached(2) == 0xfffc; }
    assert Unreached(8) == 0xff00 by { assert Unreached(6) == 0xffc0; }
    assert Unreached(12) == 0xf000 by { assert Unreached(10) == 0xfc00; }
    assert Unreached(14) == 0xc000;
  }

  lemma ShiftUnreached(c: bv16, mask: bv16, bit: bool)
    requires Avoids(c, mask) && !Avoids(mask, 0x8000)
    ensures Avoids(c, 0x8000)
    ensures Avoids(Xor(Shift(c), AsWord(bit)), mask << 1)
  {
  }

  lemma UnreachedNext(n: nat)
    ensures Unreached(n + 1) == Unreached(n) << 1
    ensures Avoids(0, Unreached(0))
  {
  }

  lemma {:induction false} ShortRemainder(w: seq<bool>)
    requires |w| <= 16
    ensures Avoids(Remainder(w), Unreached(|w|))
    ensures |w| <= 15 ==> Avoids(Remainder(w), 0x8000)
  {
    hide Shift, Xor, Avoids, AsWord, Unreached;
    if w == [] {
      UnreachedNext(0);
    } else {
      var n := |w| - 1;
      ShortRemainder(w[..n]);
      UnreachedTop(n);
      UnreachedNext(n);
      ShiftUnreached(Remainder(w[..n]), Unreached(n), w[n]);
    }
    if |w| <= 15 {
      UnreachedTop(|w|);
      ShiftUnreached(Remainder(w), Unreached(|w|), false);
    }
  }

  lemma LastBitShows(c: bv16, d: bv16, x: bool, y: bool)
    requires Avoids(c, 0x8000) && Avoids(d, 0x8000)
    requires Xor(Shift(c), AsWord(x)) == Xor(Shift(d), AsWord(y))
    ensures x == y
  {
  }

  /** Up to sixteen bits, a word can be read back from its remainder. */
  lemma {:induction false} ShortWordsDiffer(u: seq<bool>, v: seq<bool>)
    requires |u| == |v| <= 16
    requires Remainder(u) == Remainder(v)
    ensures u == v
  {
    hide Shift, Xor, AsWord, Avoids;
    if u == [] {
    } else {
      var n := |u| - 1;
      ShortRemainder(u[..n]);
      ShortRemainder(v[..n]);
      LastBitShows(Remainder(u[..n]), Remainder(v[..n]), u[n], v[n]);
      XorCancel(Shift(Remainder(u[..n])), Shift(Remainder(v[..n])), AsWord(u[n]));
      ShiftInjective(Remainder(u[..n]), Remainder(v[..n]));
      ShortWordsDiffer(u[..n], v[..n]);
      assert u == u[..n] + [u[n]] && v == v[..n] + [v[n]];
    }
  }

  /** Two bit strings that differ only inside a window of sixteen bits have
      different remainders, whatever surrounds the window. */
  lemma BurstShows(p: seq<bool>, u: seq<bool>, v: seq<bool>, q: seq<bool>)
    requires |u| == |v| <= 16
    requires Remainder(p + u + q) == Remainder(p + v + q)
    ensures u == v
  {
    hide Shift, Xor;
    RemainderAppend(p + u, q);
    RemainderAppend(p + v, q);
    XorCancel(ShiftBy(Remainder(p + u), |q|), ShiftBy(Remainder(p + v), |q|), Remainder(q));
    ShiftByInjective(Remainder(p + u), Remainder(p + v), |q|);
    RemainderAppend(p, u);
    RemainderAppend(p, v);
    var s := ShiftBy(Remainder(p), |u|);
    XorLaws(s, Remainder(u), 0);
    XorLaws(s, Remainder(v), 0);
    XorCancel(Remainder(u), Remainder(v), s);
    ShortWordsDiffer(u, v);
  }

  lemma ValidIffNoRemainder(msg: seq<bv8>)
    ensures Validates(msg) <==> Remainder(Bits(msg)) == 0
  {
    hide Shift, Xor, Update;
    CrcIsRemainder(msg);
    ShiftByZero(Remainder(Bits(msg)), 16);
  }

  /** No burst of at most sixteen wrong bits, aligned or not, survives the check. */
  lemma BurstDetected(good: seq<bv8>, bad: seq<bv8>, k: nat)
    requires |bad| == |good| && k + 16 <= 8 * |good|
    requires Bits(good)[..k] == Bits(bad)[..k]
    requires Bits(good)[k + 16..] == Bits(bad)[k + 16..]
    requires Bits(good) != Bits(bad)
    requires Validates(good)
    ensures !Validates(bad)
  {
    hide Remainder, Bits, Validates;
    ValidIffNoRemainder(good);
    ValidIffNoRemainder(bad);
    var p, u, q := Bits(good)[..k], Bits(good)[k..k + 16], Bits(good)[k + 16..];
    var v := Bits(bad)[k..k + 16];
    assert Bits(good) == p + u + q;
    assert Bits(bad) == p + v + q;
    if Validates(bad) {
      BurstShows(p, u, v, q);
      assert false;
    }
  }

  lemma {:induction false} BitsAppend(a: seq<bv8>, b: seq<bv8>)
    ensures Bits(a + b) == Bits(a) + Bits(b)
  {
    hide BitsOfByte;
    if b == [] {
      assert a + b == a;
    } else {
      var n := |b| - 1;
      BitsAppend(a, b[..n]);
      assert (a + b)[..|a + b| - 1] == a + b[..n];
      assert (Bits(a) + Bits(b[..n])) + BitsOfByte(b[n]) == Bits(a) + (Bits(b[..n]) + BitsOfByte(b[n]));
    }
  }

  lemma BitsOfTwoBytes(h: bv8, l: bv8)
    ensures Bits([h, l]) == BitsOfByte(h) + BitsOfByte(l)
  {
  }

  lemma ByteFromBits(x: bv8, y: bv8)
    requires BitsOfByte(x) == BitsOfByte(y)
    ensures x == y
  {
  }

  /** In a valid message of any length, changing two adjacent bytes (or only one
      of them), the check bytes included, makes the message invalid. */
  lemma AdjacentBytesDetected(p: seq<bv8>, h: bv8, l: bv8, h': bv8, l': bv8, q: seq<bv8>)
    requires Validates(p + [h, l] + q)
    requires h != h' || l != l'
    ensures !Validates(p + [h', l'] + q)
  {
    hide Shift, Xor, Update, Validates, BitsOfByte;
    BitsAppend(p + [h, l], q);
    BitsAppend(p, [h, l]);
    BitsAppend(p + [h', l'], q);
    BitsAppend(p, [h', l']);
    if Bits([h, l]) == Bits([h', l']) {
      BitsOfTwoBytes(h, l);
      BitsOfTwoBytes(h', l');
      assert BitsOfByte(h) == Bits([h, l])[..8] && BitsOfByte(l) == Bits([h, l])[8..];
      assert BitsOfByte(h') == Bits([h', l'])[..8] && BitsOfByte(l') == Bits([h', l'])[8..];
      ByteFromBits(h, h');
      ByteFromBits(l, l');
      assert false;
    }
    if Validates(p + [h', l'] + q) {
      ValidIffNoRemainder(p + [h, l] + q);
      ValidIffNoRemainder(p + [h', l'] + q);
      BurstShows(Bits(p), Bits([h, l]), Bits([h', l']), Bits(q));
      assert false;
    }
  }

  // ------------------------------------------------ valid means divisible, exactly

  /** Coefficient i of a polynomial, zero outside of it. */
  function At(p: seq<bool>, i: int): bool {
    0 <= i < |p| && p[i]
  }

  function Sum4(a: bool, b: bool, c: bool, d: bool): bool {
    (a != b) != (c != d)
  }

  /** Multiplied out, highest coefficient first: bits == q * (x^16 + x^12 + x^5 + 1). */
  ghost predicate IsProduct(bits: seq<bool>, q: seq<bool>) {
    && |bits| == |q| + 16
    && forall i :: 0 <= i < |bits| ==>
         bits[i] == Sum4(At(q, i), At(q, i - 4), At(q, i - 11), At(q, i - 16))
  }

  /** The bit that each division step carries out of the remainder. */
  function Carries(bits: seq<bool>): (c: seq<bool>)
    ensures |c| == |bits|
  {
    if bits == [] then []
    else Carries(bits[..|bits| - 1]) + [BitAt(Remainder(bits[..|bits| - 1]), 0)]
  }

  /** Bit t of a word, counted from the highest one. */
  function BitAt(r: bv16, t: nat): bool
    requires t < 16
  {
    var masks: seq<bv16> := [0x8000, 0x4000, 0x2000, 0x1000, 0x0800, 0x0400, 0x0200, 0x0100,
                             0x0080, 0x0040, 0x0020, 0x0010, 0x0008, 0x0004, 0x0002, 0x0001];
    r & masks[t] != 0
  }

  lemma BitsAfterStep(r: bv16, bit: bool, t: nat)
    requires t < 16
    ensures BitAt(Xor(Shift(r), AsWord(bit)), t)
         == (if t == 15 then bit != BitAt(r, 0)
             else if t == 3 || t == 10 then BitAt(r, t + 1) != BitAt(r, 0)
             else BitAt(r, t + 1))
  {
    if
    case t == 0 => case t == 1 => case t == 2 => case t == 3 =>
    case t == 4 => case t == 5 => case t == 6 => case t == 7 =>
    case t == 8 => case t == 9 => case t == 10 => case t == 11 =>
    case t == 12 => case t == 13 => case t == 14 => case t == 15 =>
  }

  lemma BitsOfZero(r: bv16, t: nat)
    requires t < 16
    ensures !BitAt(0, t)
    ensures Avoids(r, 0x8000) ==> !BitAt(r, 0)
  {
  }

  lemma ZeroFromBits(r: bv16)
    requires forall t :: 0 <= t < 16 ==> !BitAt(r, t)
    ensures r == 0
  {
    assert !BitAt(r, 0) && !BitAt(r, 1) && !BitAt(r, 2) && !BitAt(r, 3);
    assert !BitAt(r, 4) && !BitAt(r, 5) && !BitAt(r, 6) && !BitAt(r, 7);
    assert !BitAt(r, 8) && !BitAt(r, 9) && !BitAt(r, 10) && !BitAt(r, 11);
    assert !BitAt(r, 12) && !BitAt(r, 13) && !BitAt(r, 14) && !BitAt(r, 15);
  }

  /** Coefficient i of the dividend once the carries so far are taken out. */
  function Left(bits: seq<bool>, c: seq<bool>, i: int): bool {
    Sum4(At(bits, i), At(c, i + 12), At(c, i + 5), At(c, i))
  }

  lemma LeftAfterStep(p: seq<bool>, c: seq<bool>, bit: bool, carry: bool, i: int)
    requires |p| == |c| && i <= |p|
    ensures Left(p + [bit], c + [carry], i)
         == Sum4(if i == |p| then bit else At(p, i), if i + 12 == |p| then carry else At(c, i + 12),
                 if i + 5 == |p| then carry else At(c, i + 5), if i == |p| then carry else At(c, i))
  {
  }

  /** The remainder under division holds the last sixteen coefficients left. */
  lemma {:induction false} RegisterHolds(bits: seq<bool>, t: nat)
    requires t < 16
    ensures BitAt(Remainder(bits), t) == Left(bits, Carries(bits), |bits| - 16 + t)
  {
    if bits == [] {
      BitsOfZero(0, t);
    } else {
      hide Shift, Xor, AsWord, BitAt, Left;
      var n := |bits| - 1;
      var p, c := bits[..n], Carries(bits[..n]);
      var i := n - 15 + t;
      BitsAfterStep(Remainder(p), bits[n], t);
      assert bits == p + [bits[n]];
      LeftAfterStep(p, c, bits[n], BitAt(Remainder(p), 0), i);
      if t < 15 {
        RegisterHolds(p, t + 1);
        LeftIs(p, c, i);
      }
    }
  }

  lemma LeftIs(bits: seq<bool>, c: seq<bool>, i: int)
    ensures Left(bits, c, i) == Sum4(At(bits, i), At(c, i + 12), At(c, i + 5), At(c, i))
  {
  }

  lemma {:induction false} CarryAt(bits: seq<bool>, k: nat)
    requires k < |bits|
    ensures Carries(bits)[k] == BitAt(Remainder(bits[..k]), 0)
  {
    hide BitAt, Remainder;
    var n := |bits| - 1;
    if k == n {
    } else {
      CarryAt(bits[..n], k);
      assert bits[..n][..k] == bits[..k];
    }
  }

  lemma {:induction false} CarriesPrefix(bits: seq<bool>, k: nat)
    requires k <= |bits|
    ensures Carries(bits)[..k] == Carries(bits[..k])
  {
    if k == |bits| {
      assert bits[..k] == bits;
    } else {
      var n := |bits| - 1;
      CarriesPrefix(bits[..n], k);
      assert bits[..n][..k] == bits[..k];
    }
  }

  lemma EarlyCarry(bits: seq<bool>, k: nat)
    requires k < |bits| && k < 16
    ensures !Carries(bits)[k]
  {
    hide BitAt, Avoids, Remainder;
    CarryAt(bits, k);
    ShortRemainder(bits[..k]);
    BitsOfZero(Remainder(bits[..k]), 0);
  }

  /** Once sixteen more coefficients have been read, what was left of coefficient
      i has been carried out. */
  lemma SettledAt(bits: seq<bool>, i: nat)
    requires i < |bits| - 16
    ensures Carries(bits)[i + 16] == Left(bits, Carries(bits), i)
  {
    hide BitAt, Remainder, Carries, Left;
    var k := i + 16;
    CarryAt(bits, k);
    RegisterHolds(bits[..k], 0);
    CarriesPrefix(bits, k);
    LeftOfPrefix(bits, Carries(bits), k, i);
  }

  lemma LeftOfPrefix(bits: seq<bool>, c: seq<bool>, k: nat, i: int)
    requires |bits| == |c| && i + 12 < k <= |bits|
    ensures Left(bits[..k], c[..k], i) == Left(bits, c, i)
  {
  }

  lemma DivisionIsExact(bits: seq<bool>)
    requires |bits| >= 16 && Remainder(bits) == 0
    ensures IsProduct(bits, Carries(bits)[16..])
  {
    hide BitAt, Remainder;
    var c := Carries(bits);
    var q := c[16..];
    forall i | 0 <= i < |bits|
      ensures bits[i] == Sum4(At(q, i), At(q, i - 4), At(q, i - 11), At(q, i - 16))
    {
      assert forall j :: 0 <= j < 16 && j < |bits| ==> !c[j] by {
        forall j | 0 <= j < 16 && j < |bits| ensures !c[j] {
          EarlyCarry(bits, j);
        }
      }
      assert At(q, i) == At(c, i + 16);
      assert At(q, i - 4) == At(c, i + 12);
      assert At(q, i - 11) == At(c, i + 5);
      assert At(q, i - 16) == At(c, i);
      if i < |bits| - 16 {
        SettledAt(bits, i);
      } else {
        RegisterHolds(bits, i - (|bits| - 16));
        BitsOfZero(0, i - (|bits| - 16));
      }
    }
  }

  lemma {:induction false} QuotientUnique(bits: seq<bool>, q: seq<bool>, j: nat)
    requires IsProduct(bits, q) && j < |bits|
    ensures Carries(bits)[j] == At(q, j - 16)
  {
    hide BitAt, Remainder, Carries;
    if j < 16 {
      EarlyCarry(bits, j);
    } else {
      var c, i := Carries(bits), j - 16;
      SettledAt(bits, i);
      if i + 12 < |bits| {
        QuotientUnique(bits, q, i + 12);
      }
      if i + 5 < |bits| {
        QuotientUnique(bits, q, i + 5);
      }
      QuotientUnique(bits, q, i);
    }
  }

  lemma QuotientAt(bits: seq<bool>, q: seq<bool>, j: int)
    requires IsProduct(bits, q)
    ensures At(Carries(bits), j) == At(q, j - 16)
  {
    hide Carries;
    if 0 <= j < |bits| {
      QuotientUnique(bits, q, j);
    }
  }

  lemma ProductBit(bits: seq<bool>, q: seq<bool>, t: nat)
    requires IsProduct(bits, q) && t < 16
    ensures !BitAt(Remainder(bits), t)
  {
    var c, i := Carries(bits), |q| + t;
    assert bits[i] == Sum4(At(q, i), At(q, i - 4), At(q, i - 11), At(q, i - 16));
    assert !At(q, i);
    hide BitAt, Remainder, Carries, Left, IsProduct;
    RegisterHolds(bits, t);
    LeftIs(bits, c, i);
    QuotientAt(bits, q, i + 12);
    QuotientAt(bits, q, i + 5);
    QuotientAt(bits, q, i);
  }

  lemma ProductsHaveNoRemainder(bits: seq<bool>, q: seq<bool>)
    requires IsProduct(bits, q)
    ensures Remainder(bits) == 0
  {
    hide BitAt, Remainder;
    forall t | 0 <= t < 16 ensures !BitAt(Remainder(bits), t) {
      ProductBit(bits, q, t);
    }
    ZeroFromBits(Remainder(bits));
  }

  /** `validateCRC` accepts exactly the messages whose polynomial is a multiple of
      x^16 + x^12 + x^5 + 1. */
  lemma ValidIffDivisible(msg: seq<bv8>)
    requires |msg| >= 2
    ensures Validates(msg) <==> exists q :: IsProduct(Bits(msg), q)
  {
    hide Remainder, Validates, Carries;
    ValidIffNoRemainder(msg);
    if Validates(msg) {
      DivisionIsExact(Bits(msg));
    }
    if q :| IsProduct(Bits(msg), q) {
      ProductsHaveNoRemainder(Bits(msg), q);
    }
  }
}
