/** The journal over its file: appending entries, overwriting the last one in place, and recovery. */
module JournalFile {
  import opened Archive
  import opened ArchiveFiles
  import opened JournalLog
  import opened JournalFrames

  /** A header written twice over with its payload after it: only the second one stays. */
  lemma OverwriteFront(data: seq<Byte>, pos: nat, first: seq<Byte>, second: seq<Byte>, payload: seq<Byte>)
    requires pos <= |data| && |first| == |second|
    ensures pos <= |Overwritten(data, pos, first + payload)|
    ensures Overwritten(Overwritten(data, pos, first + payload), pos, second) == Overwritten(data, pos, second + payload)
  {
  }

  /** Writing at the end of the file, and over the last entry when the new one is as long. */
  lemma OverwriteEnd(data: seq<Byte>, front: seq<Byte>, b: seq<Byte>)
    requires front <= data && |data| <= |front| + |b|
    ensures Overwritten(data, |front|, b) == front + b
  {
  }

  class Journal {
    const file: File
    const output: OArchive
    const arity: nat
    const version: nat
    var lastOp: nat
    var lastPos: nat
    ghost var records: seq<Record>
    ghost const found: nat

    /** The file is the concatenation of the frames of the records, and the position is at its end.  The
        first `found` of them were there when the file was opened; among the others nothing is left to
        merge. */
    ghost predicate Valid()
      reads this, file, output
    {
      && file.Valid() && output.file == file && output.crc == ALL_ONES && version < Pow256(4)
      && (forall r :: r in records ==> RecordOk(arity, r))
      && file.data == Frames(version, records) && file.pos == |file.data|
      && (lastOp != 0 ==> records != [] && lastOp == Kind(records[|records| - 1]) && lastPos == |Frames(version, records[..|records| - 1])|)
      && TightSince(Contents(), found)
    }

    ghost function Contents(): Log
      reads this
    {
      Log(records, lastOp != 0)
    }

    constructor (file: File, arity: nat, version: nat, ghost records: seq<Record>)
      requires file.Valid() && version < Pow256(4) && file.data == Frames(version, records) && file.pos == |file.data|
      requires forall r :: r in records ==> RecordOk(arity, r)
      ensures Valid() && fresh(output) && this.file == file && this.arity == arity && this.version == version
      ensures Contents() == Log(records, false) && found == |records|
    {
      this.file := file;
      output := new OArchive(file);
      this.arity, this.version := arity, version;
      lastOp, lastPos := 0, 0;
      this.records, found := records, |records|;
    }

    method WriteHeader(log: Header) returns (pos: nat)
      requires file.Valid()
      modifies file
      ensures file.Valid() && pos == old(file.pos)
      ensures file.data == Overwritten(old(file.data), old(file.pos), HeaderBytes(log)) && file.pos == old(file.pos) + HEADER_SIZE
    {
      pos := file.pos;
      file.Write(HeaderBytes(log));
    }

    /** Goes back to fill in the checksum and the size of the entry that ends here. */
    method UpdateHeader(log: Header, headerPos: nat)
      requires file.Valid() && output.file == file && headerPos + HEADER_SIZE <= file.pos
      modifies this`lastOp, this`lastPos, file, output
      ensures file.Valid() && file.pos == old(file.pos) && output.crc == ALL_ONES
      ensures lastOp == log.kind && lastPos == headerPos
      ensures file.data == Overwritten(old(file.data), headerPos,
                HeaderBytes(Header(Checksum(old(output.crc)), old(file.pos) - headerPos - HEADER_SIZE, log.kind, log.version)))
    {
      var pos := file.pos;
      lastOp := log.kind;
      lastPos := headerPos;
      var crc := output.TakeChecksum();
      var size := pos - headerPos - HEADER_SIZE;
      file.Seek(headerPos);
      file.Write(HeaderBytes(Header(crc, size, log.kind, log.version)));
      file.Seek(pos);
    }

    /** Writes one entry at the file's position. */
    method WriteEntry(kind: nat, entryVersion: nat, items: seq<Item>)
      requires file.Valid() && output.file == file && output.crc == ALL_ONES
      modifies this`lastOp, this`lastPos, file, output
      ensures file.Valid() && output.crc == ALL_ONES && lastOp == kind && lastPos == old(file.pos)
      ensures var payload := EncodeAll(items);
        && file.data == Overwritten(old(file.data), old(file.pos),
             HeaderBytes(Header(Crc32(payload), |payload|, kind, entryVersion)) + payload)
        && file.pos == old(file.pos) + HEADER_SIZE + |payload|
    {
      ghost var data, start := file.data, file.pos;
      var log := Header(0, 0, kind, entryVersion);
      var pos := WriteHeader(log);
      SaveAll(items);
      ghost var payload := EncodeAll(items);
      OverwriteInPieces(data, start, HeaderBytes(log), payload);
      OverwriteFront(data, start, HeaderBytes(log), HeaderBytes(Header(Crc32(payload), |payload|, kind, entryVersion)), payload);
      UpdateHeader(log, pos);
    }

    method SaveAll(items: seq<Item>)
      requires file.Valid() && output.file == file
      modifies file, output
      ensures file.Valid() && file.pos == old(file.pos) + |EncodeAll(items)|
      ensures file.data == Overwritten(old(file.data), old(file.pos), EncodeAll(items))
      ensures output.crc == CrcProcess(old(output.crc), EncodeAll(items))
    {
      assert Encode(Array(items)) == EncodeAll(items);
      output.Save(Array(items));
    }

    /** Appends the entry of `r` at the end of the file. */
    method AppendEntry(kind: nat, entryVersion: nat, items: seq<Item>, ghost r: Record)
      requires Valid() && !Merges(Contents(), r)
      requires RecordOk(arity, r) && kind == Kind(r) && kind != 0 && entryVersion == VersionOf(version, r) && EncodeAll(items) == Payload(r)
      modifies this, file, output
      ensures Valid() && Contents() == Log(old(records) + [r], true)
    {
      hide Payload, Overwritten, RecordOk, HeaderBytes, TightSince;
      AppendedTight(Contents(), found, r);
      OverwriteEnd(file.data, file.data, Frame(version, r));
      FramesAppend(version, records, [r]);
      SingleFrame(version, r);
      WriteEntry(kind, entryVersion, items);
      records := records + [r];
      assert records[..|records| - 1] == old(records);
    }

    method Insert(fields: seq<int>)
      requires Valid() && RecordOk(arity, Record.Insert(fields))
      modifies this, file, output
      ensures Valid() && Contents() == Appended(old(Contents()), Record.Insert(fields))
    {
      SingleItem(FieldsItem(fields));
      AppendEntry(INSERT, version, [FieldsItem(fields)], Record.Insert(fields));
    }

    method Modify(id: nat, fields: seq<int>)
      requires Valid() && RecordOk(arity, Record.Modify(id, fields))
      modifies this, file, output
      ensures Valid() && Contents() == Appended(old(Contents()), Record.Modify(id, fields))
    {
      SingleItem(FieldsItem(fields));
      assert [Unsigned(8, id), FieldsItem(fields)][1..] == [FieldsItem(fields)];
      AppendEntry(MODIFY, version, [Unsigned(8, id), FieldsItem(fields)], Record.Modify(id, fields));
    }

    method Remove(id: nat)
      requires Valid() && RecordOk(arity, Record.Remove(id))
      modifies this, file, output
      ensures Valid() && Contents() == Appended(old(Contents()), Record.Remove(id))
    {
      SingleItem(Unsigned(8, id));
      AppendEntry(REMOVE, version, [Unsigned(8, id)], Record.Remove(id));
    }

    /** An entry of the undo protocol, which may take the place of the last entry. */
    method UndoEntry(revision: int, op: nat)
      requires Valid() && START_UNDO <= op <= REVISION && InSigned(8, revision)
      modifies this, file, output
      ensures Valid() && Contents() == Appended(old(Contents()), UndoRecord(op, revision))
      ensures Tight(records[found..]) && records[..found] == old(records)[..found]
    {
      hide RecordOk, Payload, Frames, Kind, CanCompressEntry, CanMerge, Merge, IsUndoEntry, UndoRecord, Encode, TightSince;
      ghost var r := UndoRecord(op, revision);
      AppendedTight(Contents(), found, r);
      SingleItem(Signed(8, revision));
      UndoRecordOk(arity, op, revision);
      if lastOp != 0 {
        CompressAgrees(arity, records[|records| - 1], op, revision);
      } else {
        NothingToCompress(op);
      }
      if CanCompressEntry(lastOp, op) {
        var kind := if op != START_UNDO then REVISION else op;
        Overwrite(kind, revision);
      } else {
        AppendEntry(op, 0, [Signed(8, revision)], r);
      }
    }

    /** Overwrites the last entry, which is one of the undo protocol and so has the same length. */
    method Overwrite(kind: nat, revision: int)
      requires Valid() && records != [] && lastOp != 0 && InSigned(8, revision) && START_UNDO <= kind <= REVISION
      requires IsUndoEntry(records[|records| - 1])
      requires TightSince(Log(records[..|records| - 1] + [UndoRecord(kind, revision)], true), found)
      modifies this, file, output
      ensures Valid() && Contents() == Log(old(records)[..|old(records)| - 1] + [UndoRecord(kind, revision)], true)
    {
      hide Payload, Overwritten, RecordOk, HeaderBytes, Frames, Frame, UndoRecord, Kind, CrcProcess, TightSince, IsUndoEntry, Encode, EncodeAll;
      ghost var rest, r := records[..|records| - 1], UndoRecord(kind, revision);
      SingleItem(Signed(8, revision));
      UndoRecordOk(arity, kind, revision);
      UndoEntrySize(records[|records| - 1]);
      OverwriteLast(version, records, r);
      file.Seek(lastPos);
      WriteEntry(kind, 0, [Signed(8, revision)]);
      records := rest + [r];
      assert records[..|records| - 1] == rest;
    }
  }

  /** Writing an entry over the last one, which is as long. */
  lemma {:induction false} OverwriteLast(version: nat, records: seq<Record>, r: Record)
    requires records != [] && |Payload(r)| == |Payload(records[|records| - 1])|
    ensures var rest, b := records[..|records| - 1], HeaderBytes(HeaderOf(version, r)) + Payload(r);
      && |Frames(version, rest)| <= |Frames(version, records)|
      && Overwritten(Frames(version, records), |Frames(version, rest)|, b) == Frames(version, rest + [r])
      && |Frames(version, rest + [r])| == |Frames(version, rest)| + |b|
  {
  }

  /** Which kinds of entry an entry of kind `next` may overwrite. */
  predicate CanCompressEntry(last: nat, next: nat) {
    || (last == START_UNDO && next == COMMIT)
    || (last == REVISION && (next == START_UNDO || next == REVISION))
  }

  function UndoRecord(op: nat, revision: int): Record
    requires START_UNDO <= op <= REVISION
  {
    if op == START_UNDO then StartUndo(revision)
    else if op == COMMIT then Commit(revision)
    else if op == UNDO then Undo(revision)
    else if op == UNDO_ALL then UndoAll(revision)
    else Revision(revision)
  }

  lemma UndoRecordOk(arity: nat, op: nat, revision: int)
    requires START_UNDO <= op <= REVISION && InSigned(8, revision)
    ensures var r := UndoRecord(op, revision);
      RecordOk(arity, r) && Kind(r) == op && VersionOf(0, r) == 0 && (forall v :: VersionOf(v, r) == 0) && Payload(r) == Encode(Signed(8, revision)) && |Payload(r)| == 8
  {
  }

  /** The test on kinds is the test on records. */
  lemma CompressAgrees(arity: nat, last: Record, op: nat, revision: int)
    requires RecordOk(arity, last) && START_UNDO <= op <= REVISION
    ensures IsUndoEntry(UndoRecord(op, revision))
    ensures CanCompressEntry(Kind(last), op) <==> CanMerge(last, UndoRecord(op, revision))
    ensures CanCompressEntry(Kind(last), op) ==>
      && IsUndoEntry(last)
      && Merge(UndoRecord(op, revision)) == UndoRecord(if op != START_UNDO then REVISION else op, revision)
  {
    hide Payload;
  }

  lemma NothingToCompress(op: nat)
    ensures !CanCompressEntry(0, op)
  {
  }

  lemma UndoEntrySize(r: Record)
    requires IsUndoEntry(r)
    ensures |Payload(r)| == 8
  {
  }

  lemma SingleItem(item: Item)
    ensures EncodeAll([item]) == Encode(item)
  {
  }
}
