/** A journal record as bytes: a sixteen-byte header and a payload. */
module JournalFrames {
  import opened Snapshots
  import opened Archive
  import opened JournalLog

  const HEADER_SIZE: nat := 16

  datatype Header = Header(crc: nat, size: nat, kind: nat, version: nat)

  predicate HeaderOk(h: Header) {
    h.crc < Pow256(4) && h.size < Pow256(4) && h.kind < Pow256(4) && h.version < Pow256(4)
  }

  /** All four fields are written most significant byte first. */
  function HeaderBytes(h: Header): (b: seq<Byte>)
    ensures |b| == HEADER_SIZE
  {
    UnsignedBytes(4, h.crc) + UnsignedBytes(4, h.size) + UnsignedBytes(4, h.kind) + UnsignedBytes(4, h.version)
  }

  function ParseHeader(b: seq<Byte>): Header
    requires |b| == HEADER_SIZE
  {
    Header(UnsignedValue(b[..4]), UnsignedValue(b[4..8]), UnsignedValue(b[8..12]), UnsignedValue(b[12..]))
  }

  lemma HeaderRoundTrip(h: Header)
    requires HeaderOk(h)
    ensures ParseHeader(HeaderBytes(h)) == h
  {
    var b := HeaderBytes(h);
    assert b[..4] == UnsignedBytes(4, h.crc) && b[4..8] == UnsignedBytes(4, h.size);
    assert b[8..12] == UnsignedBytes(4, h.kind) && b[12..] == UnsignedBytes(4, h.version);
    UnsignedRoundTrip(4, h.crc);
    UnsignedRoundTrip(4, h.size);
    UnsignedRoundTrip(4, h.kind);
    UnsignedRoundTrip(4, h.version);
  }

  // The kinds of entries
  const INSERT: nat := 2
  const MODIFY: nat := 3
  const REMOVE: nat := 4
  const START_UNDO: nat := 5
  const COMMIT: nat := 6
  const UNDO: nat := 7
  const UNDO_ALL: nat := 8
  const REVISION: nat := 9

  function Kind(r: Record): nat {
    match r
    case Insert(_) => INSERT
    case Modify(_, _) => MODIFY
    case Remove(_) => REMOVE
    case StartUndo(_) => START_UNDO
    case Commit(_) => COMMIT
    case Undo(_) => UNDO
    case UndoAll(_) => UNDO_ALL
    case Revision(_) => REVISION
    case Foreign(kind, _) => kind
  }

  function FieldItems(fields: seq<int>): seq<Item> {
    seq(|fields|, i requires 0 <= i < |fields| => Signed(8, fields[i]))
  }

  function FieldsItem(fields: seq<int>): Item {
    Array(FieldItems(fields))
  }

  function Payload(r: Record): seq<Byte> {
    match r
    case Insert(fields) => Encode(FieldsItem(fields))
    case Modify(id, fields) => Encode(Unsigned(8, id)) + Encode(FieldsItem(fields))
    case Remove(id) => Encode(Unsigned(8, id))
    case StartUndo(revision) => Encode(Signed(8, revision))
    case Commit(revision) => Encode(Signed(8, revision))
    case Undo(revision) => Encode(Signed(8, revision))
    case UndoAll(revision) => Encode(Signed(8, revision))
    case Revision(revision) => Encode(Signed(8, revision))
    case Foreign(_, bytes) => bytes
  }

  /** Entries about objects carry the version of the object's type. */
  function VersionOf(version: nat, r: Record): nat {
    if r.Insert? || r.Modify? || r.Remove? then version else 0
  }

  predicate FieldsOk(arity: nat, fields: seq<int>) {
    |fields| == arity && forall i :: 0 <= i < |fields| ==> InSigned(8, fields[i])
  }

  /** The values of the record are those of the program's types, and the payload fits its size field. */
  predicate RecordOk(arity: nat, r: Record) {
    && |Payload(r)| < Pow256(4)
    && match r
       case Insert(fields) => FieldsOk(arity, fields)
       case Modify(id, fields) => id < Pow256(8) && FieldsOk(arity, fields)
       case Remove(id) => id < Pow256(8)
       case StartUndo(revision) => InSigned(8, revision)
       case Commit(revision) => InSigned(8, revision)
       case Undo(revision) => InSigned(8, revision)
       case UndoAll(revision) => InSigned(8, revision)
       case Revision(revision) => InSigned(8, revision)
       case Foreign(kind, _) => kind < Pow256(4) && !(INSERT <= kind <= REVISION)
  }

  function HeaderOf(version: nat, r: Record): Header {
    Header(Crc32(Payload(r)), |Payload(r)|, Kind(r), VersionOf(version, r))
  }

  function Frame(version: nat, r: Record): (b: seq<Byte>)
    ensures |b| == HEADER_SIZE + |Payload(r)|
  {
    HeaderBytes(HeaderOf(version, r)) + Payload(r)
  }

  function Frames(version: nat, records: seq<Record>): seq<Byte> {
    if records == [] then []
    else Frames(version, records[..|records| - 1]) + Frame(version, records[|records| - 1])
  }

  lemma HeaderFits(arity: nat, version: nat, r: Record)
    requires RecordOk(arity, r) && version < Pow256(4)
    ensures HeaderOk(HeaderOf(version, r))
  {
    ChecksumFits(CrcProcess(ALL_ONES, Payload(r)));
    assert Pow256(4) == 256 * Pow256(3);
    hide Payload, CrcProcess, Checksum;
  }

  lemma Associative(a: seq<Byte>, b: seq<Byte>, c: seq<Byte>)
    ensures (a + b) + c == a + (b + c)
  {
  }

  lemma {:induction false} FramesAppend(version: nat, a: seq<Record>, b: seq<Record>)
    ensures Frames(version, a + b) == Frames(version, a) + Frames(version, b)
  {
    if b == [] {
      assert a + b == a;
    } else {
      var last := Frame(version, b[|b| - 1]);
      hide Frame;
      assert (a + b)[..|a + b| - 1] == a + b[..|b| - 1];
      FramesAppend(version, a, b[..|b| - 1]);
      Associative(Frames(version, a), Frames(version, b[..|b| - 1]), last);
    }
  }

  /** The bytes of the file around record `k`. */
  lemma {:induction false} FrameAt(version: nat, records: seq<Record>, k: nat)
    requires k < |records|
    ensures Frames(version, records) == Frames(version, records[..k]) + Frame(version, records[k]) + Frames(version, records[k + 1..])
    ensures Frames(version, records[..k + 1]) == Frames(version, records[..k]) + Frame(version, records[k])
  {
    var before, after := records[..k], records[k + 1..];
    var one := [records[k]];
    SingleFrame(version, records[k]);
    hide Frames, Frame;
    assert records == before + (one + after);
    FramesAppend(version, before, one + after);
    FramesAppend(version, one, after);
    Associative(Frames(version, before), Frame(version, records[k]), Frames(version, after));
    assert records[..k + 1] == before + one;
    FramesAppend(version, before, one);
  }

  lemma {:induction false} SingleFrame(version: nat, r: Record)
    ensures Frames(version, [r]) == Frame(version, r)
  {
  }

  // ---------------------------------------------------------------------------------------------
  // Where everything stands in an entry

  lemma BigEndianParts(h: Header)
    ensures var b := HeaderBytes(h);
      && IsBigEndian(b[..4], 4, h.crc) && IsBigEndian(b[4..8], 4, h.size)
      && IsBigEndian(b[8..12], 4, h.kind) && IsBigEndian(b[12..], 4, h.version)
  {
    var b := HeaderBytes(h);
    assert b[..4] == UnsignedBytes(4, h.crc) && b[4..8] == UnsignedBytes(4, h.size);
    assert b[8..12] == UnsignedBytes(4, h.kind) && b[12..] == UnsignedBytes(4, h.version);
    hide HeaderBytes, IsBigEndian, UnsignedBytes;
    BytesAreBigEndian(4, h.crc);
    BytesAreBigEndian(4, h.size);
    BytesAreBigEndian(4, h.kind);
    BytesAreBigEndian(4, h.version);
  }

  lemma SmallBigEndian(b: seq<Byte>, v: nat)
    requires v < 256 && IsBigEndian(b, 4, v)
    ensures b == [0, 0, 0, v]
  {
    assert Pow256(1) == 256 && Pow256(2) == 65536 && Pow256(3) == 16777216;
    assert b[0] == v / Pow256(3) % 256 && b[1] == v / Pow256(2) % 256 && b[2] == v / Pow256(1) % 256 && b[3] == v / Pow256(0) % 256;
  }

  /** The bytes of 64-bit members, one member after the other. */
  ghost predicate AreMembers(b: seq<Byte>, fields: seq<int>) {
    && |b| == 8 * |fields|
    && forall k :: 0 <= k < |fields| ==> IsMember(b[8 * k..8 * k + 8], fields[k])
  }

  ghost predicate IsMember(b: seq<Byte>, i: int) {
    InTwosComplement(8, i) >= 0 && IsBigEndian(b, 8, InTwosComplement(8, i))
  }

  lemma SignedIsMember(i: int)
    requires InSigned(8, i)
    ensures |Encode(Signed(8, i))| == 8 && IsMember(Encode(Signed(8, i)), i)
  {
    TwosComplement(8, i);
    BytesAreBigEndian(8, ToUnsigned(8, i));
  }

  lemma {:induction false} FieldsAreMembers(fields: seq<int>)
    requires forall k :: 0 <= k < |fields| ==> InSigned(8, fields[k])
    ensures AreMembers(Encode(FieldsItem(fields)), fields)
  {
    if fields != [] {
      SignedIsMember(fields[0]);
      FieldsAreMembers(fields[1..]);
      assert FieldItems(fields)[1..] == FieldItems(fields[1..]);
      var first, rest := Encode(Signed(8, fields[0])), Encode(FieldsItem(fields[1..]));
      assert Encode(FieldsItem(fields)) == first + rest;
      hide Encode, IsMember, InSigned;
      MembersCons(first, rest, fields);
    }
  }

  lemma MembersCons(first: seq<Byte>, rest: seq<Byte>, fields: seq<int>)
    requires fields != [] && |first| == 8 && IsMember(first, fields[0]) && AreMembers(rest, fields[1..])
    ensures AreMembers(first + rest, fields)
  {
    var b := first + rest;
    forall k | 0 <= k < |fields|
      ensures IsMember(b[8 * k..8 * k + 8], fields[k])
    {
      if k == 0 {
        assert b[..8] == first;
      } else {
        assert b[8 * k..8 * k + 8] == rest[8 * (k - 1)..8 * (k - 1) + 8];
        assert fields[1..][k - 1] == fields[k];
      }
    }
  }

  /** The file format: in front the checksum, the size of the payload, the kind and the version, in four
      bytes each; then the key, if the entry has one, and the members, or the revision, in eight each. */
  lemma FrameLayout(arity: nat, version: nat, r: Record)
    requires RecordOk(arity, r) && version < Pow256(4)
    ensures var b := Frame(version, r);
      && |b| >= 16
      && IsBigEndian(b[..4], 4, Crc32(b[16..])) && IsBigEndian(b[4..8], 4, |b| - 16)
      && IsBigEndian(b[12..16], 4, if r.Insert? || r.Modify? || r.Remove? then version else 0)
      && match r
         case Insert(fields) => b[8..12] == [0, 0, 0, 2] && AreMembers(b[16..], fields)
         case Modify(id, fields) => b[8..12] == [0, 0, 0, 3] && |b| >= 24 && IsBigEndian(b[16..24], 8, id) && AreMembers(b[24..], fields)
         case Remove(id) => b[8..12] == [0, 0, 0, 4] && IsBigEndian(b[16..], 8, id)
         case StartUndo(revision) => b[8..12] == [0, 0, 0, 5] && IsMember(b[16..], revision)
         case Commit(revision) => b[8..12] == [0, 0, 0, 6] && IsMember(b[16..], revision)
         case Undo(revision) => b[8..12] == [0, 0, 0, 7] && IsMember(b[16..], revision)
         case UndoAll(revision) => b[8..12] == [0, 0, 0, 8] && IsMember(b[16..], revision)
         case Revision(revision) => b[8..12] == [0, 0, 0, 9] && IsMember(b[16..], revision)
         case Foreign(kind, bytes) => IsBigEndian(b[8..12], 4, kind) && b[16..] == bytes
  {
    var b, h := Frame(version, r), HeaderOf(version, r);
    BigEndianParts(h);
    FrameParts(version, r);
    PayloadLayout(arity, r);
    if !r.Foreign? {
      SmallBigEndian(b[8..12], Kind(r));
    }
    if r.Modify? {
      assert b[16..24] == Payload(r)[..8] && b[24..] == Payload(r)[8..];
    }
    hide IsBigEndian, AreMembers, IsMember, HeaderBytes, Payload, Crc32, RecordOk;
  }

  lemma FrameParts(version: nat, r: Record)
    ensures var b, header := Frame(version, r), HeaderBytes(HeaderOf(version, r));
      && |b| == 16 + |Payload(r)| && b[16..] == Payload(r)
      && b[..4] == header[..4] && b[4..8] == header[4..8] && b[8..12] == header[8..12] && b[12..16] == header[12..]
  {
    hide HeaderBytes, HeaderOf, Payload;
  }

  lemma PayloadLayout(arity: nat, r: Record)
    requires RecordOk(arity, r)
    ensures match r
      case Insert(fields) => AreMembers(Payload(r), fields)
      case Modify(id, fields) => |Payload(r)| >= 8 && IsBigEndian(Payload(r)[..8], 8, id) && AreMembers(Payload(r)[8..], fields)
      case Remove(id) => IsBigEndian(Payload(r), 8, id)
      case Foreign(_, bytes) => Payload(r) == bytes
      case _ => IsMember(Payload(r), r.revision)
  {
    hide UnsignedBytes, IsBigEndian, AreMembers, IsMember;
    match r
    case Insert(fields) => FieldsAreMembers(fields);
    case Modify(id, fields) =>
      FieldsAreMembers(fields);
      BytesAreBigEndian(8, id);
      assert Payload(r)[..8] == UnsignedBytes(8, id) && Payload(r)[8..] == Encode(FieldsItem(fields));
    case Remove(id) => BytesAreBigEndian(8, id);
    case Foreign(_, _) =>
    case _ => SignedIsMember(r.revision);
  }

  /** A revision that can be set, and only such a one, fits the signed field of its entry. */
  lemma RevisionsFit(revision: int)
    ensures 0 <= revision <= MAX_REVISION <==> 0 <= revision && InSigned(8, revision)
  {
    assert Pow256(8) == 256 * Pow256(7) == 65536 * Pow256(6) && Pow256(6) == 65536 * Pow256(4) && Pow256(4) == 65536 * Pow256(2) && Pow256(2) == 65536;
  }
}
