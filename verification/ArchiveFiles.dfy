/** The archives at work on a file that has one position for reading and writing. */
module ArchiveFiles {
  import opened Objects
  import opened Archive

  /** The contents after `b` has been written at `pos`. */
  function Overwritten(data: seq<Byte>, pos: nat, b: seq<Byte>): seq<Byte>
    requires pos <= |data|
  {
    data[..pos] + b + (if pos + |b| <= |data| then data[pos + |b|..] else [])
  }

  lemma OverwriteInPieces(data: seq<Byte>, pos: nat, a: seq<Byte>, b: seq<Byte>)
    requires pos <= |data|
    ensures pos + |a| <= |Overwritten(data, pos, a)|
    ensures Overwritten(Overwritten(data, pos, a), pos + |a|, b) == Overwritten(data, pos, a + b)
  {
  }

  /** What the stream has moved over between two positions. */
  function Between(data: seq<Byte>, start: nat, end: nat): seq<Byte>
    requires start <= end <= |data|
  {
    data[start..end]
  }

  lemma BetweenInPieces(data: seq<Byte>, start: nat, mid: nat, end: nat)
    requires start <= mid <= end <= |data|
    ensures Between(data, start, end) == Between(data, start, mid) + Between(data, mid, end)
  {
  }

  lemma WrittenBetween(data: seq<Byte>, pos: nat, b: seq<Byte>)
    requires pos <= |data|
    ensures pos + |b| <= |Overwritten(data, pos, b)| && Between(Overwritten(data, pos, b), pos, pos + |b|) == b
  {
  }

  class File {
    var data: seq<Byte>
    var pos: nat

    ghost predicate Valid()
      reads this
    {
      pos <= |data|
    }

    constructor ()
      ensures Valid() && data == [] && pos == 0
    {
      data, pos := [], 0;
    }

    method Write(b: seq<Byte>)
      requires Valid()
      modifies this
      ensures Valid() && data == Overwritten(old(data), old(pos), b) && pos == old(pos) + |b|
    {
      data := Overwritten(data, pos, b);
      pos := pos + |b|;
    }

    method Seek(to: nat)
      requires to <= |data|
      modifies this`pos
      ensures Valid() && pos == to
    {
      pos := to;
    }

    /** A read that comes up short leaves the position at the end of the file. */
    method Read(size: nat) returns (b: Option<seq<Byte>>)
      requires Valid()
      modifies this`pos
      ensures Valid()
      ensures old(pos) + size <= |data| ==> b == Some(data[old(pos)..old(pos) + size]) && pos == old(pos) + size
      ensures old(pos) + size > |data| ==> b == None && pos == |data|
    {
      if pos + size <= |data| {
        b := Some(data[pos..pos + size]);
        pos := pos + size;
      } else {
        b := None;
        pos := |data|;
      }
    }
  }

  class OArchive {
    const file: File
    var crc: nat

    constructor (file: File)
      ensures this.file == file && crc == ALL_ONES
    {
      this.file := file;
      crc := ALL_ONES;
    }

    method SerializeBytes(b: seq<Byte>)
      requires file.Valid()
      modifies this, file
      ensures file.Valid() && file.data == Overwritten(old(file.data), old(file.pos), b) && file.pos == old(file.pos) + |b|
      ensures crc == CrcProcess(old(crc), b)
    {
      crc := CrcProcess(crc, b);
      file.Write(b);
    }

    /** Writes the encoding of the value at the file's position and runs the checksum over it. */
    method Save(item: Item)
      requires file.Valid()
      modifies this, file
      ensures file.Valid() && file.data == Overwritten(old(file.data), old(file.pos), Encode(item)) && file.pos == old(file.pos) + |Encode(item)|
      ensures IsEncoding(Between(file.data, old(file.pos), file.pos), item)
      ensures crc == CrcProcess(old(crc), Encode(item))
      decreases item, 1
    {
      EncodeIs(item);
      WrittenBetween(file.data, file.pos, Encode(item));
      hide IsEncoding, Between;
      match item {
        case Unsigned(w, n) =>
          SerializeBytes(UnsignedBytes(w, n));
        case Signed(w, i) =>
          SerializeBytes(UnsignedBytes(w, ToUnsigned(w, i)));
        case Bool(b) =>
          SerializeBytes(UnsignedBytes(1, if b then 1 else 0));
        case Array(items) =>
          SaveArray(item);
        case Text(bytes) =>
          OverwriteInPieces(file.data, file.pos, UnsignedBytes(4, |bytes|), bytes);
          CrcInPieces(crc, UnsignedBytes(4, |bytes|), bytes);
          SerializeBytes(UnsignedBytes(4, |bytes|));
          SerializeBytes(bytes);
      }
    }

    /** Writes the elements of an array one after the other. */
    method SaveArray(item: Item)
      requires file.Valid() && item.Array?
      modifies this, file
      ensures file.Valid() && file.data == Overwritten(old(file.data), old(file.pos), EncodeAll(item.items)) && file.pos == old(file.pos) + |EncodeAll(item.items)|
      ensures crc == CrcProcess(old(crc), EncodeAll(item.items))
      decreases item, 0
    {
      ghost var data, pos, sum := file.data, file.pos, crc;
      assert EncodeAll(item.items[..0]) == [] && Overwritten(data, pos, []) == data;
      for k := 0 to |item.items|
        invariant file.Valid() && file.data == Overwritten(data, pos, EncodeAll(item.items[..k])) && file.pos == pos + |EncodeAll(item.items[..k])|
        invariant crc == CrcProcess(sum, EncodeAll(item.items[..k]))
      {
        EncodeAllSnoc(item.items, k);
        OverwriteInPieces(data, pos, EncodeAll(item.items[..k]), Encode(item.items[k]));
        CrcInPieces(sum, EncodeAll(item.items[..k]), Encode(item.items[k]));
        Save(item.items[k]);
      }
      assert item.items[..|item.items|] == item.items;
    }

    /** Reads the checksum and starts a new one. */
    method TakeChecksum() returns (sum: nat)
      modifies this
      ensures sum == Checksum(old(crc)) && crc == ALL_ONES
    {
      sum := Checksum(crc);
      crc := ALL_ONES;
    }
  }

  lemma {:induction false} EncodeAllSnoc(items: seq<Item>, k: nat)
    requires k < |items|
    ensures EncodeAll(items[..k + 1]) == EncodeAll(items[..k]) + Encode(items[k])
  {
    assert items[..k + 1] == items[..k] + [items[k]];
    EncodeAllAppend(items[..k], [items[k]]);
    assert [items[k]][1..] == [];
    assert Encode(items[k]) + [] == Encode(items[k]);
  }

  lemma {:induction false} EncodeAllAppend(a: seq<Item>, b: seq<Item>)
    ensures EncodeAll(a + b) == EncodeAll(a) + EncodeAll(b)
  {
    if a == [] {
      assert a + b == b;
      assert [] + EncodeAll(b) == EncodeAll(b);
    } else {
      assert (a + b)[1..] == a[1..] + b;
      EncodeAllAppend(a[1..], b);
      assert Encode(a[0]) + (EncodeAll(a[1..]) + EncodeAll(b)) == (Encode(a[0]) + EncodeAll(a[1..])) + EncodeAll(b);
    }
  }

  class IArchive {
    const file: File
    var crc: nat

    constructor (file: File)
      ensures this.file == file && crc == ALL_ONES
    {
      this.file := file;
      crc := ALL_ONES;
    }

    method SerializeBytes(size: nat) returns (b: Option<seq<Byte>>)
      requires file.Valid()
      modifies this, file`pos
      ensures file.Valid()
      ensures b.Some? <==> size <= |file.data| - old(file.pos)
      ensures b.Some? ==> file.pos == old(file.pos) + size && b.value == Between(file.data, old(file.pos), file.pos)
      ensures b.Some? ==> b.value == old(file.data[file.pos..])[..size] && file.data[file.pos..] == old(file.data[file.pos..])[size..]
      ensures b.Some? ==> crc == CrcProcess(old(crc), b.value)
    {
      ghost var input := file.data[file.pos..];
      b := file.Read(size);
      if b.Some? {
        assert b.value == input[..size] && file.data[file.pos..] == input[size..];
        crc := CrcProcess(crc, b.value);
      }
    }

    /** Reads a value of the given type: what `Decode` finds at the file's position, moving just past
        it and running the checksum over exactly those bytes. */
    method Load(shape: Shape) returns (r: Option<Item>)
      requires file.Valid()
      modifies this, file`pos
      ensures file.Valid()
      ensures r.Some? <==> Decode(shape, old(file.data[file.pos..])).Some?
      ensures r.Some? ==>
                && old(file.pos) <= file.pos
                && Decode(shape, old(file.data[file.pos..])).value == (r.value, file.data[file.pos..])
                && crc == CrcProcess(old(crc), Between(file.data, old(file.pos), file.pos))
      decreases shape, 0
    {
      hide Between, UnsignedValue, ToSigned, CrcProcess, DecodeAll;
      match shape {
        case UnsignedShape(w) =>
          var b := SerializeBytes(w);
          if b.None? { return None; }
          return Some(Unsigned(w, UnsignedValue(b.value)));
        case SignedShape(w) =>
          var b := SerializeBytes(w);
          if b.None? { return None; }
          return Some(Signed(w, ToSigned(w, UnsignedValue(b.value))));
        case BoolShape =>
          var b := SerializeBytes(1);
          if b.None? { return None; }
          return Some(Bool(UnsignedValue(b.value) != 0));
        case ArrayShape(length, element) =>
          var items := LoadAll(length, element);
          return if items.None? then None else Some(Array(items.value));
        case TextShape =>
          var bytes := LoadText();
          return if bytes.None? then None else Some(Text(bytes.value));
      }
    }

    /** A four-byte length and as many bytes. */
    method LoadText() returns (bytes: Option<seq<Byte>>)
      requires file.Valid()
      modifies this, file`pos
      ensures file.Valid()
      ensures bytes.Some? <==> Decode(TextShape, old(file.data[file.pos..])).Some?
      ensures bytes.Some? ==>
                && old(file.pos) <= file.pos
                && Decode(TextShape, old(file.data[file.pos..])).value == (Text(bytes.value), file.data[file.pos..])
                && crc == CrcProcess(old(crc), Between(file.data, old(file.pos), file.pos))
    {
      ghost var input, start := file.data[file.pos..], file.pos;
      var prefix := SerializeBytes(4);
      if prefix.None? { return None; }
      assert prefix.value == input[..4];
      var size := UnsignedValue(prefix.value);
      bytes := SerializeBytes(size);
      if bytes.None? { return None; }
      assert bytes.value == input[4..4 + size];
      BetweenInPieces(file.data, start, start + 4, file.pos);
      CrcInPieces(old(crc), prefix.value, bytes.value);
    }

    method LoadAll(length: nat, element: Shape) returns (r: Option<seq<Item>>)
      requires file.Valid()
      modifies this, file`pos
      ensures file.Valid()
      ensures r.Some? <==> DecodeAll(length, element, old(file.data[file.pos..])).Some?
      ensures r.Some? ==>
                && old(file.pos) <= file.pos
                && DecodeAll(length, element, old(file.data[file.pos..])).value == (r.value, file.data[file.pos..])
                && crc == CrcProcess(old(crc), Between(file.data, old(file.pos), file.pos))
      decreases element, 1
    {
      hide CrcProcess, Between, Decode, DecodeAll;
      NothingLoaded(crc, file.data, file.pos, length, element);
      ghost var input, start, sum := file.data[file.pos..], file.pos, crc;
      var items := [];
      ghost var all := DecodeAll(length, element, input);
      assert all.Some? ==> items + all.value.0 == all.value.0;
      assert all == if all.None? then None else Some((items + all.value.0, all.value.1));
      for k := 0 to length
        invariant file.Valid() && start <= file.pos
        invariant crc == CrcProcess(sum, Between(file.data, start, file.pos))
        invariant var rest := DecodeAll(length - k, element, file.data[file.pos..]);
          DecodeAll(length, element, input) == if rest.None? then None else Some((items + rest.value.0, rest.value.1))
      {
        ghost var mid := file.pos;
        var item := Load(element);
        if item.None? {
          NothingMore(length - k, element, file.data[mid..]);
          return None;
        }
        CrcInPieces(sum, Between(file.data, start, mid), Between(file.data, mid, file.pos));
        BetweenInPieces(file.data, start, mid, file.pos);
        AppendOne(length - k, element, file.data[mid..], items);
        items := items + [item.value];
      }
      assert items + [] == items;
      r := Some(items);
    }

    /** Reads the checksum and starts a new one. */
    method TakeChecksum() returns (sum: nat)
      modifies this
      ensures sum == Checksum(old(crc)) && crc == ALL_ONES
    {
      sum := Checksum(crc);
      crc := ALL_ONES;
    }

    /** Moves over `size` bytes in chunks, running the checksum over them. */
    method Skip(size: nat) returns (ok: bool)
      requires file.Valid()
      modifies this, file`pos
      ensures file.Valid()
      ensures ok <==> size <= |file.data| - old(file.pos)
      ensures ok ==> file.pos == old(file.pos) + size && crc == CrcProcess(old(crc), Between(file.data, old(file.pos), file.pos))
    {
      ghost var start, sum := file.pos, crc;
      var i := 0;
      while i < size
        invariant file.Valid() && file.pos == start + (if i <= size then i else size)
        invariant crc == CrcProcess(sum, Between(file.data, start, file.pos))
        decreases size - i
      {
        ghost var mid := file.pos;
        var chunk := if size - i < CHUNK then size - i else CHUNK;
        var b := SerializeBytes(chunk);
        if b.None? {
          return false;
        }
        CrcInPieces(sum, Between(file.data, start, mid), b.value);
        BetweenInPieces(file.data, start, mid, file.pos);
        i := i + CHUNK;
      }
      ok := true;
    }
  }

  const CHUNK: nat := 1024

  lemma NothingLoaded(crc: nat, data: seq<Byte>, pos: nat, length: nat, element: Shape)
    requires pos <= |data|
    ensures Between(data, pos, pos) == [] && CrcProcess(crc, []) == crc
    ensures forall input :: DecodeAll(0, element, input) == Some(([], input))
  {
  }

  lemma NothingMore(length: nat, element: Shape, input: seq<Byte>)
    requires length > 0 && Decode(element, input).None?
    ensures DecodeAll(length, element, input).None?
  {
  }

  lemma AppendOne(length: nat, element: Shape, input: seq<Byte>, items: seq<Item>)
    requires length > 0 && Decode(element, input).Some?
    ensures var first := Decode(element, input).value;
      var all, rest := DecodeAll(length, element, input), DecodeAll(length - 1, element, first.1);
      && (all.None? <==> rest.None?)
      && (all.Some? ==> items + all.value.0 == (items + [first.0]) + rest.value.0 && all.value.1 == rest.value.1)
  {
  }
}
