/** The portable binary archives: big-endian integers, booleans, fixed arrays and length-prefixed
    strings over a byte file, each side keeping a running CRC-32 of what it has processed. */
module Archive {
  import opened Objects

  type Byte = n: int | 0 <= n < 256

  function Pow256(w: nat): (p: nat)
    ensures p >= 1
  {
    if w == 0 then 1 else 256 * Pow256(w - 1)
  }

  // ---------------------------------------------------------------------------------------------
  // Integers

  /** The `w` low-order bytes of `v`, most significant first. */
  function UnsignedBytes(w: nat, v: nat): (b: seq<Byte>)
    ensures |b| == w
  {
    if w == 0 then [] else UnsignedBytes(w - 1, v / 256) + [v % 256]
  }

  function UnsignedValue(b: seq<Byte>): (v: nat)
    ensures v < Pow256(|b|)
  {
    if b == [] then 0 else 256 * UnsignedValue(b[..|b| - 1]) + b[|b| - 1]
  }

  lemma {:induction false} UnsignedRoundTrip(w: nat, v: nat)
    requires v < Pow256(w)
    ensures UnsignedValue(UnsignedBytes(w, v)) == v
  {
    if w > 0 {
      var b := UnsignedBytes(w, v);
      assert b[..|b| - 1] == UnsignedBytes(w - 1, v / 256);
      UnsignedRoundTrip(w - 1, v / 256);
    }
  }

  lemma Multiples(d: int, a: int, b: int)
    requires d > 0 && a < b
    ensures d * a + d <= d * b
  {
    assert d * (b - a - 1) >= 0;
    assert d * b == d * a + d + d * (b - a - 1);
  }

  lemma DivisionIs(v: nat, d: nat, q: nat, r: nat)
    requires d > 0 && v == d * q + r && r < d
    ensures v / d == q
  {
    var e, s := v / d, v % d;
    assert v == d * e + s;
    if e < q {
      Multiples(d, e, q);
    } else if q < e {
      Multiples(d, q, e);
    }
  }

  lemma DivideTwice(v: nat, a: nat, b: nat)
    requires a > 0 && b > 0
    ensures a * b > 0 && v / a / b == v / (a * b)
  {
    var x := v / a;
    var q, high, low := x / b, x % b, v % a;
    assert x == b * q + high;
    Nested(a, b, q, high);
    Multiples(a, high, b);
    DivisionIs(v, a * b, q, a * high + low);
  }

  lemma Nested(a: nat, b: nat, q: nat, high: nat)
    ensures a * (b * q + high) == a * b * q + a * high
  {
  }

  /** Where each byte stands, which is what makes the archive portable: the most significant is first. */
  lemma {:induction false} BigEndian(w: nat, v: nat, k: nat)
    requires k < w
    ensures UnsignedBytes(w, v)[k] == v / Pow256(w - 1 - k) % 256
  {
    if k < w - 1 {
      BigEndian(w - 1, v / 256, k);
      DivideTwice(v, 256, Pow256(w - 2 - k));
    }
  }

  /** `b` holds the `w` low-order bytes of `v`, most significant first. */
  ghost predicate IsBigEndian(b: seq<Byte>, w: nat, v: nat) {
    |b| == w && forall k :: 0 <= k < w ==> b[k] == v / Pow256(w - 1 - k) % 256
  }

  /** These bytes determine the number, and it is what they are read as. */
  lemma {:induction false} ReadsBigEndian(b: seq<Byte>, v: nat)
    requires v < Pow256(|b|)
    ensures IsBigEndian(b, |b|, v) <==> UnsignedValue(b) == v
  {
    UnsignedBytesOf(b);
    UnsignedRoundTrip(|b|, v);
    forall k | 0 <= k < |b|
      ensures UnsignedBytes(|b|, v)[k] == v / Pow256(|b| - 1 - k) % 256
    {
      BigEndian(|b|, v, k);
    }
    hide UnsignedBytes, UnsignedValue, Pow256;
    if IsBigEndian(b, |b|, v) {
      assert b == UnsignedBytes(|b|, v);
    }
  }

  lemma {:induction false} UnsignedBytesOf(b: seq<Byte>)
    ensures UnsignedBytes(|b|, UnsignedValue(b)) == b
  {
    if b != [] {
      UnsignedBytesOf(b[..|b| - 1]);
    }
  }

  /** The unsigned number of `w` bytes congruent to `i`. */
  function ToUnsigned(w: nat, i: int): nat {
    i % Pow256(w)
  }

  function ToSigned(w: nat, v: nat): int {
    if 2 * v < Pow256(w) then v else v - Pow256(w)
  }

  function InTwosComplement(w: nat, i: int): int {
    if i >= 0 then i else i + Pow256(w)
  }

  predicate InSigned(w: nat, i: int) {
    -2 * i <= Pow256(w) && 2 * i < Pow256(w)
  }

  // ---------------------------------------------------------------------------------------------
  // CRC-32

  function XorBits(bits: nat, a: nat, b: nat): nat {
    if bits == 0 then 0 else 2 * XorBits(bits - 1, a / 2, b / 2) + (a % 2 + b % 2) % 2
  }

  const POLYNOMIAL: nat := 0xEDB8_8320
  const ALL_ONES: nat := 0xFFFF_FFFF

  function CrcShift(steps: nat, crc: nat): nat {
    if steps == 0 then crc
    else CrcShift(steps - 1, if crc % 2 == 1 then XorBits(32, crc / 2, POLYNOMIAL) else crc / 2)
  }

  /** The register after the bytes have been processed in turn. */
  function CrcProcess(crc: nat, b: seq<Byte>): nat {
    if b == [] then crc
    else CrcShift(8, XorBits(32, CrcProcess(crc, b[..|b| - 1]), b[|b| - 1]))
  }

  /** What the register reads as: always a 32-bit number. */
  function Checksum(crc: nat): nat {
    XorBits(32, crc, ALL_ONES)
  }

  function Crc32(b: seq<Byte>): nat {
    Checksum(CrcProcess(ALL_ONES, b))
  }

  lemma {:induction false} XorBitsBound(bits: nat, a: nat, b: nat)
    ensures XorBits(bits, a, b) < Pow2(bits)
  {
    if bits > 0 {
      XorBitsBound(bits - 1, a / 2, b / 2);
    }
  }

  function Pow2(bits: nat): nat {
    if bits == 0 then 1 else 2 * Pow2(bits - 1)
  }

  lemma {:induction false} XorSelf(bits: nat, a: nat)
    ensures XorBits(bits, a, a) == 0
  {
    if bits > 0 {
      XorSelf(bits - 1, a / 2);
    }
  }

  lemma Pow2By8(bits: nat)
    ensures Pow2(bits + 8) == 256 * Pow2(bits)
  {
    assert Pow2(bits + 8) == 2 * Pow2(bits + 7) == 4 * Pow2(bits + 6) == 8 * Pow2(bits + 5) == 16 * Pow2(bits + 4);
    assert Pow2(bits + 4) == 2 * Pow2(bits + 3) == 4 * Pow2(bits + 2) == 8 * Pow2(bits + 1) == 16 * Pow2(bits);
  }

  /** A checksum fits the four bytes of its header field. */
  lemma ChecksumFits(crc: nat)
    ensures Checksum(crc) < Pow256(4)
  {
    XorBitsBound(32, crc, ALL_ONES);
    Pow2By8(0);
    Pow2By8(8);
    Pow2By8(16);
    Pow2By8(24);
    assert Pow256(4) == 256 * Pow256(3) == 256 * 256 * Pow256(2) == 256 * 256 * 256 * Pow256(1);
  }

  /** Nothing processed reads as zero; the recovery loop starts from this. */
  lemma CrcOfNothing()
    ensures Crc32([]) == 0 && Checksum(ALL_ONES) == 0
  {
    XorSelf(32, ALL_ONES);
  }

  /** Processing in pieces is processing the whole. */
  lemma {:induction false} CrcInPieces(crc: nat, a: seq<Byte>, b: seq<Byte>)
    ensures CrcProcess(crc, a + b) == CrcProcess(CrcProcess(crc, a), b)
  {
    if b == [] {
      assert a + b == a;
    } else {
      assert (a + b)[..|a + b| - 1] == a + b[..|b| - 1];
      CrcInPieces(crc, a, b[..|b| - 1]);
    }
  }

  lemma SignedRoundTrip(w: nat, i: int)
    requires w > 0 && InSigned(w, i)
    ensures ToUnsigned(w, i) < Pow256(w) && ToSigned(w, ToUnsigned(w, i)) == i
  {
    assert Pow256(w) == 256 * Pow256(w - 1);
    ModuloOf(i, Pow256(w));
  }

  /** A signed number is written in two's complement. */
  lemma TwosComplement(w: nat, i: int)
    requires w > 0 && InSigned(w, i)
    ensures 0 <= InTwosComplement(w, i) < Pow256(w) && ToUnsigned(w, i) == InTwosComplement(w, i)
  {
    assert Pow256(w) == 256 * Pow256(w - 1);
    ModuloOf(i, Pow256(w));
  }

  lemma ModuloOf(i: int, p: int)
    requires p > 0 && -p <= i < p
    ensures i % p == if i >= 0 then i else i + p
  {
  }

  // ---------------------------------------------------------------------------------------------
  // Values

  /** What a program saves. */
  datatype Item =
    | Unsigned(width: nat, n: nat)
    | Signed(width: nat, i: int)
    | Bool(b: bool)
    | Array(items: seq<Item>)
    | Text(bytes: seq<Byte>)

  /** What a program asks to load: the static type of the variable. */
  datatype Shape =
    | UnsignedShape(width: nat)
    | SignedShape(width: nat)
    | BoolShape
    | ArrayShape(length: nat, element: Shape)
    | TextShape

  /** The item is a value of the type. */
  ghost predicate HasShape(item: Item, shape: Shape) {
    match (item, shape)
    case (Unsigned(w, n), UnsignedShape(v)) => w == v && n < Pow256(w)
    case (Signed(w, i), SignedShape(v)) => w == v && w > 0 && InSigned(w, i)
    case (Bool(_), BoolShape) => true
    case (Array(items), ArrayShape(length, element)) => |items| == length && forall k :: 0 <= k < |items| ==> HasShape(items[k], element)
    case (Text(bytes), TextShape) => |bytes| < Pow256(4)
    case _ => false
  }

  function Encode(item: Item): seq<Byte>
    decreases item, 0
  {
    match item
    case Unsigned(w, n) => UnsignedBytes(w, n)
    case Signed(w, i) => UnsignedBytes(w, ToUnsigned(w, i))
    case Bool(b) => UnsignedBytes(1, if b then 1 else 0)
    case Array(items) => EncodeAll(items)
    case Text(bytes) => UnsignedBytes(4, |bytes|) + bytes
  }

  function EncodeAll(items: seq<Item>): seq<Byte>
    decreases items, 1
  {
    if items == [] then [] else Encode(items[0]) + EncodeAll(items[1..])
  }

  /** The bytes of an item, place by place: numbers most significant byte first, signed ones in two's
      complement, a boolean as 0 or 1, a string after its length in four bytes, and the elements of an
      array one after the other with nothing between them. */
  ghost predicate IsEncoding(b: seq<Byte>, item: Item)
    decreases item, 0
  {
    match item
    case Unsigned(w, n) => IsBigEndian(b, w, n)
    case Signed(w, i) => w > 0 && InSigned(w, i) ==> InTwosComplement(w, i) >= 0 && IsBigEndian(b, w, InTwosComplement(w, i))
    case Bool(x) => b == [if x then 1 else 0]
    case Text(bytes) => |b| == 4 + |bytes| && IsBigEndian(b[..4], 4, |bytes|) && b[4..] == bytes
    case Array(items) => AreEncodings(b, items)
  }

  ghost predicate AreEncodings(b: seq<Byte>, items: seq<Item>)
    decreases items, 1
  {
    if items == [] then b == []
    else exists k :: 0 <= k <= |b| && IsEncoding(b[..k], items[0]) && AreEncodings(b[k..], items[1..])
  }

  lemma {:induction false} EncodeIs(item: Item)
    ensures IsEncoding(Encode(item), item)
    decreases item, 0
  {
    match item
    case Unsigned(w, n) => BytesAreBigEndian(w, n);
    case Signed(w, i) =>
      BytesAreBigEndian(w, ToUnsigned(w, i));
      if w > 0 && InSigned(w, i) {
        TwosComplement(w, i);
      }
    case Bool(x) => BytesAreBigEndian(1, if x then 1 else 0);
    case Text(bytes) =>
      BytesAreBigEndian(4, |bytes|);
      assert Encode(item)[..4] == UnsignedBytes(4, |bytes|) && Encode(item)[4..] == bytes;
    case Array(items) => EncodeAllAre(items);
  }

  /** Nothing but the encoding is laid out like that. */
  lemma {:induction false} OnlyEncode(b: seq<Byte>, item: Item, shape: Shape)
    requires HasShape(item, shape)
    ensures IsEncoding(b, item) <==> b == Encode(item)
    decreases item, 0
  {
    EncodeIs(item);
    if IsEncoding(b, item) {
      match item
      case Unsigned(w, n) => BytesAreBigEndian(w, n);
      case Signed(w, i) =>
        TwosComplement(w, i);
        BytesAreBigEndian(w, ToUnsigned(w, i));
      case Bool(x) =>
      case Text(bytes) =>
        BytesAreBigEndian(4, |bytes|);
        assert b[..4] == UnsignedBytes(4, |bytes|) && b == b[..4] + b[4..];
      case Array(items) => OnlyEncodeAll(b, items, shape.element);
    }
  }

  lemma {:induction false} OnlyEncodeAll(b: seq<Byte>, items: seq<Item>, element: Shape)
    requires AreEncodings(b, items) && forall k :: 0 <= k < |items| ==> HasShape(items[k], element)
    ensures b == EncodeAll(items)
    decreases items, 1
  {
    hide IsEncoding, Encode, HasShape;
    if items != [] {
      var k :| 0 <= k <= |b| && IsEncoding(b[..k], items[0]) && AreEncodings(b[k..], items[1..]);
      OnlyEncode(b[..k], items[0], element);
      OnlyEncodeAll(b[k..], items[1..], element);
      assert b == b[..k] + b[k..];
    }
  }

  lemma {:induction false} EncodeAllAre(items: seq<Item>)
    ensures AreEncodings(EncodeAll(items), items)
    decreases items, 1
  {
    if items != [] {
      EncodeIs(items[0]);
      EncodeAllAre(items[1..]);
      var b, k := EncodeAll(items), |Encode(items[0])|;
      assert b[..k] == Encode(items[0]) && b[k..] == EncodeAll(items[1..]);
    }
  }

  lemma {:induction false} BytesAreBigEndian(w: nat, v: nat)
    ensures IsBigEndian(UnsignedBytes(w, v), w, v)
  {
    forall k | 0 <= k < w
      ensures UnsignedBytes(w, v)[k] == v / Pow256(w - 1 - k) % 256
    {
      BigEndian(w, v, k);
    }
  }

  /** The value at the head of the input and the input after it; nothing if the input is too short. */
  function Decode(shape: Shape, input: seq<Byte>): (r: Option<(Item, seq<Byte>)>)
    decreases shape, 0
  {
    match shape
    case UnsignedShape(w) =>
      if |input| < w then None else Some((Unsigned(w, UnsignedValue(input[..w])), input[w..]))
    case SignedShape(w) =>
      if |input| < w then None else Some((Signed(w, ToSigned(w, UnsignedValue(input[..w]))), input[w..]))
    case BoolShape =>
      if |input| < 1 then None else Some((Bool(UnsignedValue(input[..1]) != 0), input[1..]))
    case ArrayShape(length, element) =>
      var r := DecodeAll(length, element, input);
      if r.None? then None else Some((Array(r.value.0), r.value.1))
    case TextShape =>
      if |input| < 4 then None
      else
        var size := UnsignedValue(input[..4]);
        if |input| - 4 < size then None else Some((Text(input[4..4 + size]), input[4 + size..]))
  }

  function DecodeAll(length: nat, element: Shape, input: seq<Byte>): (r: Option<(seq<Item>, seq<Byte>)>)
    decreases element, 1, length
  {
    if length == 0 then Some(([], input))
    else
      var first := Decode(element, input);
      if first.None? then None
      else
        var rest := DecodeAll(length - 1, element, first.value.1);
        if rest.None? then None else Some(([first.value.0] + rest.value.0, rest.value.1))
  }

  /** Loading what was saved gives the value back and leaves the rest of the input. */
  lemma {:induction false} RoundTrip(item: Item, shape: Shape, rest: seq<Byte>)
    requires HasShape(item, shape)
    ensures Decode(shape, Encode(item) + rest) == Some((item, rest))
    decreases item, 0
  {
    var input := Encode(item) + rest;
    match item
    case Unsigned(w, n) =>
      UnsignedRoundTrip(w, n);
      assert input[..w] == UnsignedBytes(w, n);
    case Signed(w, i) =>
      SignedRoundTrip(w, i);
      UnsignedRoundTrip(w, ToUnsigned(w, i));
      assert input[..w] == UnsignedBytes(w, ToUnsigned(w, i));
    case Bool(b) =>
      UnsignedRoundTrip(1, if b then 1 else 0);
      assert input[..1] == UnsignedBytes(1, if b then 1 else 0);
    case Array(items) =>
      RoundTripAll(items, shape.element, rest);
    case Text(bytes) =>
      UnsignedRoundTrip(4, |bytes|);
      assert input[..4] == UnsignedBytes(4, |bytes|);
      assert input[4..4 + |bytes|] == bytes && input[4 + |bytes|..] == rest;
  }

  lemma {:induction false} RoundTripAll(items: seq<Item>, element: Shape, rest: seq<Byte>)
    requires forall k :: 0 <= k < |items| ==> HasShape(items[k], element)
    ensures DecodeAll(|items|, element, EncodeAll(items) + rest) == Some((items, rest))
    decreases items, 1
  {
    hide Encode, Decode, HasShape;
    if items == [] {
      assert EncodeAll(items) + rest == rest;
    } else {
      var tail := EncodeAll(items[1..]) + rest;
      assert EncodeAll(items) + rest == Encode(items[0]) + tail;
      RoundTrip(items[0], element, tail);
      RoundTripAll(items[1..], element, rest);
      assert [items[0]] + items[1..] == items;
    }
  }

  /** Any byte but zero loads as true. */
  lemma DecodedBool(input: seq<Byte>)
    ensures Decode(BoolShape, input) == if input == [] then None else Some((Bool(input[0] != 0), input[1..]))
  {
    if input != [] {
      assert input[..1] == [input[0]];
      assert [input[0]][..0] == [];
    }
  }

  /** A type whose values have one encoding each: any byte but zero loads as true. */
  predicate Plain(shape: Shape) {
    match shape
    case BoolShape => false
    case ArrayShape(_, element) => Plain(element)
    case _ => true
  }

  /** A signed number has a sign bit at least. */
  predicate Sized(shape: Shape) {
    match shape
    case SignedShape(w) => w > 0
    case ArrayShape(_, element) => Sized(element)
    case _ => true
  }

  lemma ToSignedBack(w: nat, v: nat)
    requires v < Pow256(w)
    ensures ToUnsigned(w, ToSigned(w, v)) == v
    ensures w > 0 ==> InSigned(w, ToSigned(w, v))
  {
    if w > 0 {
      assert Pow256(w) == 256 * Pow256(w - 1);
    }
    if 2 * v >= Pow256(w) {
      ModuloOf(v - Pow256(w), Pow256(w));
    } else {
      ModuloOf(v, Pow256(w));
    }
  }

  /** Loading gives a value of the type asked for and reads as many bytes as saving the value writes;
      they are those that saving writes, but for a boolean that was not saved as one. */
  lemma {:induction false} DecodeThenEncode(shape: Shape, input: seq<Byte>)
    requires Decode(shape, input).Some?
    ensures var (item, rest) := Decode(shape, input).value;
      && |input| == |Encode(item)| + |rest| && rest == input[|Encode(item)|..]
      && (Plain(shape) ==> input == Encode(item) + rest)
      && (Sized(shape) ==> HasShape(item, shape))
    decreases shape, 0
  {
    if shape.ArrayShape? {
      DecodeThenEncodeAll(shape.length, shape.element, input);
    } else if shape.TextShape? {
      DecodedText(input);
    } else {
      DecodedNumber(shape, input);
    }
  }

  lemma {:induction false} DecodedNumber(shape: Shape, input: seq<Byte>)
    requires Decode(shape, input).Some? && !shape.ArrayShape? && !shape.TextShape?
    ensures var (item, rest) := Decode(shape, input).value;
      && |input| == |Encode(item)| + |rest| && rest == input[|Encode(item)|..]
      && (Plain(shape) ==> input == Encode(item) + rest)
      && (Sized(shape) ==> HasShape(item, shape))
  {
    if !shape.BoolShape? {
      UnsignedBytesOf(input[..shape.width]);
      ToSignedBack(shape.width, UnsignedValue(input[..shape.width]));
      hide UnsignedBytes, UnsignedValue, ToSigned, ToUnsigned, Pow256;
      assert input == input[..shape.width] + input[shape.width..];
    }
  }

  lemma {:induction false} DecodedText(input: seq<Byte>)
    requires Decode(TextShape, input).Some?
    ensures var (item, rest) := Decode(TextShape, input).value;
      && |input| == |Encode(item)| + |rest| && rest == input[|Encode(item)|..] && input == Encode(item) + rest
      && HasShape(item, TextShape)
  {
    UnsignedBytesOf(input[..4]);
    hide UnsignedBytes, UnsignedValue;
    var size := UnsignedValue(input[..4]);
    assert input == input[..4] + input[4..4 + size] + input[4 + size..];
  }

  lemma {:induction false} DecodeAllStep(length: nat, element: Shape, input: seq<Byte>)
    requires DecodeAll(length, element, input).Some?
    ensures length == 0 ==> DecodeAll(length, element, input).value == ([], input) && EncodeAll([]) == []
    ensures length > 0 ==>
      && Decode(element, input).Some?
      && var (item, middle) := Decode(element, input).value;
      && DecodeAll(length - 1, element, middle).Some?
      && var (items, rest) := DecodeAll(length - 1, element, middle).value;
      DecodeAll(length, element, input).value == ([item] + items, rest)
  {
    hide Decode;
  }

  lemma {:induction false} DecodeThenEncodeAll(length: nat, element: Shape, input: seq<Byte>)
    requires DecodeAll(length, element, input).Some?
    ensures var (items, rest) := DecodeAll(length, element, input).value;
      && |items| == length
      && |input| == |EncodeAll(items)| + |rest| && rest == input[|EncodeAll(items)|..]
      && (Plain(element) ==> input == EncodeAll(items) + rest)
      && (Sized(element) ==> forall k :: 0 <= k < |items| ==> HasShape(items[k], element))
    decreases element, 1, length
  {
    hide Decode, DecodeAll, Encode, EncodeAll, HasShape;
    DecodeAllStep(length, element, input);
    if length > 0 {
      var (item, middle) := Decode(element, input).value;
      DecodeThenEncode(element, input);
      DecodeThenEncodeAll(length - 1, element, middle);
      var (items, rest) := DecodeAll(length - 1, element, middle).value;
      EncodeAllCons(item, items);
      Reassociate(Encode(item), EncodeAll(items), rest, input, middle);
    }
  }

  lemma EncodeAllCons(item: Item, items: seq<Item>)
    ensures EncodeAll([item] + items) == Encode(item) + EncodeAll(items)
  {
    assert ([item] + items)[1..] == items;
  }

  lemma Reassociate(a: seq<Byte>, b: seq<Byte>, rest: seq<Byte>, input: seq<Byte>, middle: seq<Byte>)
    requires |input| == |a| + |middle| && middle == input[|a|..] && |middle| == |b| + |rest| && rest == middle[|b|..]
    ensures |input| == |a + b| + |rest| && rest == input[|a + b|..]
    ensures input == a + middle && middle == b + rest ==> input == (a + b) + rest
  {
  }
}
