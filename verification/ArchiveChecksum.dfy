/** What the checksum can be relied on for: damage confined to four adjacent bytes always shows. */
module ArchiveChecksum {
  import opened Archive

  /** The numbers agree on all bits from bit `k` up. */
  predicate AgreeAbove(k: nat, a: nat, b: nat) {
    if k == 0 then a == b else AgreeAbove(k - 1, a / 2, b / 2)
  }

  /** The numbers agree on the `j` lowest bits. */
  predicate AgreeBelow(j: nat, a: nat, b: nat) {
    j == 0 || (a % 2 == b % 2 && AgreeBelow(j - 1, a / 2, b / 2))
  }

  lemma {:induction false} AgreeMore(k: nat, a: nat, b: nat)
    requires AgreeAbove(k, a, b)
    ensures AgreeAbove(k + 1, a, b)
  {
    if k > 0 {
      AgreeMore(k - 1, a / 2, b / 2);
    }
  }

  lemma {:induction false} AgreeMuchMore(k: nat, m: nat, a: nat, b: nat)
    requires AgreeAbove(k, a, b) && k <= m
    ensures AgreeAbove(m, a, b)
    decreases m - k
  {
    if k < m {
      AgreeMore(k, a, b);
      AgreeMuchMore(k + 1, m, a, b);
    }
  }

  /** Numbers that agree above some bit have the same top bit. */
  lemma {:induction false} SameTop(bits: nat, k: nat, a: nat, b: nat)
    requires k < bits && AgreeAbove(k, a, b)
    ensures a >= Pow2(bits - 1) <==> b >= Pow2(bits - 1)
  {
    if k > 0 {
      SameTop(bits - 1, k - 1, a / 2, b / 2);
    }
  }

  lemma {:induction false} XorHalf(bits: nat, a: nat, b: nat)
    ensures bits == 0 ==> XorBits(bits, a, b) == 0
    ensures bits > 0 ==>
      XorBits(bits, a, b) / 2 == XorBits(bits - 1, a / 2, b / 2) && XorBits(bits, a, b) % 2 == (a % 2 + b % 2) % 2
  {
  }

  /** The exclusive or with numbers that agree can be taken off again. */
  lemma {:induction false} XorAbove(bits: nat, k: nat, a: nat, b: nat, c: nat, d: nat)
    requires a < Pow2(bits) && b < Pow2(bits) && AgreeAbove(k, c, d)
    requires AgreeAbove(k, XorBits(bits, a, c), XorBits(bits, b, d))
    ensures AgreeAbove(k, a, b)
  {
    XorHalf(bits, a, c);
    XorHalf(bits, b, d);
    hide XorBits;
    if bits == 0 {
      AgreeMuchMore(0, k, a, b);
    } else {
      XorAbove(bits - 1, if k > 0 then k - 1 else 0, a / 2, b / 2, c / 2, d / 2);
    }
  }

  lemma {:induction false} XorBelow(bits: nat, j: nat, a: nat, b: nat, c: nat, d: nat)
    requires j <= bits && AgreeBelow(j, XorBits(bits, a, c), XorBits(bits, b, d))
    ensures AgreeBelow(j, a, b) <==> AgreeBelow(j, c, d)
  {
    XorHalf(bits, a, c);
    XorHalf(bits, b, d);
    hide XorBits;
    if j > 0 {
      XorBelow(bits - 1, j - 1, a / 2, b / 2, c / 2, d / 2);
    }
  }

  lemma {:induction false} BelowSelf(j: nat, a: nat)
    ensures AgreeBelow(j, a, a)
  {
    if j > 0 {
      BelowSelf(j - 1, a / 2);
    }
  }

  lemma {:induction false} XorTop(bits: nat, a: nat, b: nat)
    requires bits > 0 && a < Pow2(bits - 1) <= b < Pow2(bits)
    ensures XorBits(bits, a, b) >= Pow2(bits - 1)
  {
    if bits > 1 {
      XorTop(bits - 1, a / 2, b / 2);
    }
  }

  function CrcStep(crc: nat): nat {
    if crc % 2 == 1 then XorBits(32, crc / 2, POLYNOMIAL) else crc / 2
  }

  lemma PowersOfTwo()
    ensures Pow2(8) == 256 && Pow2(31) == 0x8000_0000 && Pow2(32) == 0x1_0000_0000
  {
    Pow2By8(0);
    Pow2By8(8);
    Pow2By8(16);
    Pow2By8(24);
    assert Pow2(32) == 2 * Pow2(31);
  }

  lemma {:induction false} StepBound(crc: nat)
    requires crc < Pow2(32)
    ensures CrcStep(crc) < Pow2(32)
    ensures crc % 2 == 1 <==> CrcStep(crc) >= Pow2(31)
  {
    PowersOfTwo();
    hide Pow2, XorBits;
    if crc % 2 == 1 {
      XorBitsBound(32, crc / 2, POLYNOMIAL);
      XorTop(32, crc / 2, POLYNOMIAL);
    }
  }

  /** Whether a bit was dropped shows in the top bit, so a step can be taken back. */
  lemma {:induction false} StepBack(k: nat, j: nat, a: nat, b: nat)
    requires k < 32 && j < 32 && a < Pow2(32) && b < Pow2(32)
    requires AgreeAbove(k, CrcStep(a), CrcStep(b)) && AgreeBelow(j, CrcStep(a), CrcStep(b))
    ensures AgreeAbove(k + 1, a, b) && AgreeBelow(j + 1, a, b)
    ensures k == 0 ==> a == b
  {
    StepBound(a);
    StepBound(b);
    SameTop(32, k, CrcStep(a), CrcStep(b));
    assert a % 2 == b % 2;
    if a % 2 == 1 {
      PowersOfTwo();
      AgreeMuchMore(0, k, POLYNOMIAL, POLYNOMIAL);
      BelowSelf(j, POLYNOMIAL);
      XorAbove(32, k, a / 2, b / 2, POLYNOMIAL, POLYNOMIAL);
      XorBelow(32, j, a / 2, b / 2, POLYNOMIAL, POLYNOMIAL);
    }
  }

  lemma {:induction false} ShiftBound(steps: nat, crc: nat)
    requires crc < Pow2(32)
    ensures CrcShift(steps, crc) < Pow2(32)
  {
    if steps > 0 {
      StepBound(crc);
      ShiftBound(steps - 1, CrcStep(crc));
    }
  }

  lemma {:induction false} ProcessBound(crc: nat, b: seq<Byte>)
    requires crc < Pow2(32)
    ensures CrcProcess(crc, b) < Pow2(32)
  {
    if b != [] {
      var before := CrcProcess(crc, b[..|b| - 1]);
      XorBitsBound(32, before, b[|b| - 1]);
      ShiftBound(8, XorBits(32, before, b[|b| - 1]));
    }
  }

  /** Registers that agree from bit `k` up after some steps did so that many bits higher before, and
      on as many of the lowest bits. */
  lemma {:induction false} ShiftBack(steps: nat, k: nat, a: nat, b: nat)
    requires k + steps <= 32 && a < Pow2(32) && b < Pow2(32)
    requires AgreeAbove(k, CrcShift(steps, a), CrcShift(steps, b))
    ensures AgreeAbove(k + steps, a, b) && AgreeBelow(steps, a, b)
    ensures k == 0 ==> a == b
  {
    if steps > 0 {
      StepBound(a);
      StepBound(b);
      ShiftBack(steps - 1, k, CrcStep(a), CrcStep(b));
      if k == 0 {
        BelowSelf(0, CrcStep(a));
        StepBack(0, 0, a, b);
        AgreeMuchMore(0, steps, a, b);
        BelowSelf(steps, a);
      } else {
        StepBack(k + steps - 1, steps - 1, a, b);
      }
    }
  }

  lemma {:induction false} AgreeOnBytes(k: nat, a: nat, b: nat)
    requires a < Pow2(k) && b < Pow2(k)
    ensures AgreeAbove(k, a, b)
  {
    if k > 0 {
      AgreeOnBytes(k - 1, a / 2, b / 2);
    }
  }

  lemma {:induction false} AgreeOnAll(k: nat, a: nat, b: nat)
    requires AgreeAbove(k, a, b) && AgreeBelow(k, a, b)
    ensures a == b
  {
    if k > 0 {
      AgreeOnAll(k - 1, a / 2, b / 2);
    }
  }

  /** Taking one byte back. */
  lemma {:induction false} ByteBack(k: nat, r: nat, s: nat, x: Byte, y: Byte)
    requires k + 8 <= 32 && r < Pow2(32) && s < Pow2(32)
    requires AgreeAbove(k, CrcShift(8, XorBits(32, r, x)), CrcShift(8, XorBits(32, s, y)))
    ensures AgreeAbove(k + 8, r, s)
    ensures r == s ==> x == y
    ensures k == 0 && x == y ==> r == s
  {
    PowersOfTwo();
    hide CrcShift, XorBits, AgreeAbove, AgreeBelow, Pow2;
    XorBitsBound(32, r, x);
    XorBitsBound(32, s, y);
    ShiftBack(8, k, XorBits(32, r, x), XorBits(32, s, y));
    AgreeOnBytes(8, x, y);
    AgreeMuchMore(8, k + 8, x, y);
    XorAbove(32, k + 8, r, s, x, y);
    if r == s {
      BelowSelf(8, r);
      XorBelow(32, 8, r, s, x, y);
      AgreeOnAll(8, x, y);
    }
    if k == 0 && x == y {
      SameXor(r, s, x);
    }
  }

  lemma {:induction false} SameXor(r: nat, s: nat, x: nat)
    requires r < Pow2(32) && s < Pow2(32) && XorBits(32, r, x) == XorBits(32, s, x)
    ensures r == s
  {
    XorAbove(32, 0, r, s, x, x);
  }

  lemma {:induction false} BytesBack(k: nat, r: nat, s: nat, w: seq<Byte>, v: seq<Byte>)
    requires |w| == |v| && k + 8 * |w| <= 32 && r < Pow2(32) && s < Pow2(32)
    requires AgreeAbove(k, CrcProcess(r, w), CrcProcess(s, v))
    ensures AgreeAbove(k + 8 * |w|, r, s)
    decreases |w|
  {
    hide CrcShift, XorBits, AgreeAbove, Pow2;
    if w != [] {
      var n := |w| - 1;
      ProcessBound(r, w[..n]);
      ProcessBound(s, v[..n]);
      ByteBack(k, CrcProcess(r, w[..n]), CrcProcess(s, v[..n]), w[n], v[n]);
      BytesBack(k + 8, r, s, w[..n], v[..n]);
    }
  }

  lemma {:induction false} OneByte(r: nat, x: Byte)
    ensures CrcProcess(r, [x]) == CrcShift(8, XorBits(32, r, x))
  {
  }

  /** From one register, four bytes can be told from any other four. */
  lemma {:induction false} ShortInjective(r: nat, w: seq<Byte>, v: seq<Byte>)
    requires |w| == |v| <= 4 && r < Pow2(32) && CrcProcess(r, w) == CrcProcess(r, v)
    ensures w == v
    decreases |w|
  {
    hide CrcShift, XorBits, Pow2, CrcProcess;
    if w != [] {
      var r', s' := CrcProcess(r, [w[0]]), CrcProcess(r, [v[0]]);
      assert w == [w[0]] + w[1..] && v == [v[0]] + v[1..];
      CrcInPieces(r, [w[0]], w[1..]);
      CrcInPieces(r, [v[0]], v[1..]);
      ProcessBound(r, [w[0]]);
      ProcessBound(r, [v[0]]);
      BytesBack(0, r', s', w[1..], v[1..]);
      OneByte(r, w[0]);
      OneByte(r, v[0]);
      ByteBack(8 * (|w| - 1), r, r, w[0], v[0]);
      ShortInjective(r', w[1..], v[1..]);
    }
  }

  /** The same bytes keep different registers apart. */
  lemma {:induction false} RegisterInjective(r: nat, s: nat, q: seq<Byte>)
    requires r < Pow2(32) && s < Pow2(32) && CrcProcess(r, q) == CrcProcess(s, q)
    ensures r == s
    decreases |q|
  {
    if q != [] {
      var n := |q| - 1;
      ProcessBound(r, q[..n]);
      ProcessBound(s, q[..n]);
      hide CrcShift, XorBits, Pow2;
      ByteBack(0, CrcProcess(r, q[..n]), CrcProcess(s, q[..n]), q[n], q[n]);
      RegisterInjective(r, s, q[..n]);
    }
  }

  /** Damage within four adjacent bytes, wherever they are, changes the checksum. */
  lemma {:induction false} DamageShows(front: seq<Byte>, w: seq<Byte>, v: seq<Byte>, rest: seq<Byte>)
    requires |w| == |v| <= 4
    ensures Crc32(front + w + rest) == Crc32(front + v + rest) <==> w == v
  {
    if Crc32(front + w + rest) == Crc32(front + v + rest) {
      PowersOfTwo();
      hide CrcShift, XorBits, Pow2, CrcProcess;
      var r := CrcProcess(ALL_ONES, front);
      CrcInPieces(ALL_ONES, front + w, rest);
      CrcInPieces(ALL_ONES, front + v, rest);
      CrcInPieces(ALL_ONES, front, w);
      CrcInPieces(ALL_ONES, front, v);
      ProcessBound(ALL_ONES, front);
      ProcessBound(r, w);
      ProcessBound(r, v);
      ProcessBound(ALL_ONES, front + w + rest);
      ProcessBound(ALL_ONES, front + v + rest);
      SameXor(CrcProcess(ALL_ONES, front + w + rest), CrcProcess(ALL_ONES, front + v + rest), ALL_ONES);
      RegisterInjective(CrcProcess(r, w), CrcProcess(r, v), rest);
      ShortInjective(r, w, v);
    }
  }

  // ---------------------------------------------------------------------------------------------
  // The generator polynomial

  /** The generator polynomial of IEEE 802.3, the coefficient of the highest power in the lowest bit. */
  lemma PolynomialIs()
    ensures POLYNOMIAL ==
      Pow2(31) + Pow2(30) + Pow2(29) + Pow2(27) + Pow2(26) + Pow2(24) + Pow2(23) + Pow2(21) + Pow2(20) + Pow2(19) +
      Pow2(15) + Pow2(9) + Pow2(8) + Pow2(5)
  {
    Pow2By8(0);
    Pow2By8(8);
    Pow2By8(16);
    assert Pow2(5) == 32 && Pow2(9) == 2 * Pow2(8) && Pow2(15) == 128 * Pow2(8);
    assert Pow2(19) == 8 * Pow2(16) && Pow2(20) == 2 * Pow2(19) && Pow2(21) == 2 * Pow2(20) && Pow2(23) == 4 * Pow2(21);
    assert Pow2(26) == 4 * Pow2(24) && Pow2(27) == 2 * Pow2(26) && Pow2(29) == 4 * Pow2(27) && Pow2(30) == 2 * Pow2(29) && Pow2(31) == 2 * Pow2(30);
  }

  lemma XorDigit(bits: nat, a: nat, b: nat, p: nat, q: nat)
    requires p < 2 && q < 2
    ensures XorBits(bits + 1, 2 * a + p, 2 * b + q) == 2 * XorBits(bits, a, b) + (p + q) % 2
  {
    XorHalf(bits + 1, 2 * a + p, 2 * b + q);
    hide XorBits;
  }

  lemma {:induction false} XorSwaps(bits: nat, a: nat, b: nat)
    ensures XorBits(bits, a, b) == XorBits(bits, b, a)
  {
    if bits > 0 {
      XorSwaps(bits - 1, a / 2, b / 2);
    }
  }

  /** `x` shifted up. */
  function Shifted(bits: nat, x: nat): nat {
    if bits == 0 then x else 2 * Shifted(bits - 1, x)
  }

  lemma {:induction false} XorNothing(bits: nat, b: nat)
    requires b < Pow2(bits)
    ensures XorBits(bits, 0, b) == b
  {
    if bits > 0 {
      XorNothing(bits - 1, b / 2);
      XorDigit(bits - 1, 0, b / 2, 0, b % 2);
    }
  }

  lemma {:induction false} XorOneMore(bits: nat, ones: nat, rest: nat, h: nat, q: nat)
    requires h <= ones && q < 2 && XorBits(bits, ones, rest + h) == rest + ones - h
    ensures XorBits(bits + 1, 2 * ones + 1, 2 * rest + 2 * h + q) == 2 * rest + 2 * ones + 1 - 2 * h - q
  {
    hide XorBits;
    XorDigit(bits, ones, rest + h, 1, q);
    assert 2 * (rest + h) + q == 2 * rest + 2 * h + q;
  }

  /** Ones in the low bits flip what is there and leave the rest. */
  lemma {:induction false} XorOnes(low: nat, high: nat, top: nat, b: nat)
    requires b < Pow2(low) && top < Pow2(high)
    ensures XorBits(low + high, Pow2(low) - 1, Shifted(low, top) + b) == Shifted(low, top) + (Pow2(low) - 1 - b)
  {
    hide XorBits;
    if low == 0 {
      XorNothing(high, top);
    } else {
      var h, q := b / 2, b % 2;
      XorOnes(low - 1, high, top, h);
      XorOneMore(low - 1 + high, Pow2(low - 1) - 1, Shifted(low - 1, top), h, q);
    }
  }

  lemma {:induction false} XorAllOnes(b: nat)
    requires b <= ALL_ONES
    ensures XorBits(32, ALL_ONES, b) == ALL_ONES - b
  {
    hide XorBits, Shifted, Pow2;
    PowersOfTwo();
    ShiftedNothing(32);
    XorOnes(32, 0, 0, b);
  }

  lemma {:induction false} ShiftedNothing(bits: nat)
    ensures Shifted(bits, 0) == 0 && Pow2(0) == 1
  {
    if bits > 0 {
      ShiftedNothing(bits - 1);
    }
  }

  lemma ShiftedBy8(bits: nat, x: nat)
    ensures Shifted(bits + 8, x) == 256 * Shifted(bits, x)
  {
    assert Shifted(bits + 8, x) == 2 * Shifted(bits + 7, x) == 4 * Shifted(bits + 6, x) == 8 * Shifted(bits + 5, x) == 16 * Shifted(bits + 4, x);
    assert Shifted(bits + 4, x) == 2 * Shifted(bits + 3, x) == 4 * Shifted(bits + 2, x) == 8 * Shifted(bits + 1, x) == 16 * Shifted(bits, x);
  }

  /** Seven zero bits leave the register and then a one. */
  lemma {:induction false} KnownShift()
    ensures CrcShift(8, 0xFFFF_FF80) == XorBits(32, 0x00FF_FFFF, POLYNOMIAL)
  {
    hide XorBits;
    assert CrcShift(8, 0xFFFF_FF80) == CrcShift(7, 0x7FFF_FFC0) == CrcShift(6, 0x3FFF_FFE0) == CrcShift(5, 0x1FFF_FFF0) == CrcShift(4, 0x0FFF_FFF8);
    assert CrcShift(4, 0x0FFF_FFF8) == CrcShift(3, 0x07FF_FFFC) == CrcShift(2, 0x03FF_FFFE) == CrcShift(1, 0x01FF_FFFF);
  }

  lemma {:induction false} KnownXor()
    ensures XorBits(32, 0x00FF_FFFF, POLYNOMIAL) == 0xED47_7CDF
  {
    Pow2By8(0);
    Pow2By8(8);
    Pow2By8(16);
    ShiftedBy8(0, 0xED);
    ShiftedBy8(8, 0xED);
    ShiftedBy8(16, 0xED);
    assert Shifted(0, 0xED) == 0xED && Pow2(0) == 1;
    hide XorBits, Shifted, Pow2;
    XorOnes(24, 8, 0xED, 0xB8_8320);
  }

  /** The checksum of one byte that brings the whole polynomial into the register. */
  lemma {:induction false} KnownChecksum()
    ensures Crc32([0x7F]) == 0x12B8_8320
  {
    hide XorBits, CrcShift;
    assert [0x7F][..0] == [];
    XorAllOnes(0x7F);
    KnownShift();
    KnownXor();
    XorAllOnes(0xED47_7CDF);
    XorSwaps(32, 0xED47_7CDF, ALL_ONES);
  }
}
