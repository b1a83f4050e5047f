/** Opening a journal: every record of a well-formed file is read back, checked and applied. */
module JournalRecovery {
  import opened Objects
  import opened Snapshots
  import opened Archive
  import opened ArchiveFiles
  import opened ArchiveChecksum
  import opened JournalLog
  import opened JournalFrames
  import opened UndoContainer
  import opened UndoSessions
  import opened UndoCommit
  import opened UndoStamps
  import opened UndoFailure

  /** `Thrown` stands for an exception that leaves the recovery. */
  datatype Outcome = Applied | Unknown | Thrown

  /** The stream is at a value: loading its type yields it and stops just behind it. */
  lemma LoadLands(data: seq<Byte>, start: nat, end: nat, item: Item, shape: Shape, rest: seq<Byte>)
    requires start <= end <= |data| && data[start..] == Encode(item) + rest && HasShape(item, shape)
    ensures Decode(shape, data[start..]) == Some((item, rest))
    ensures data[end..] == rest ==> end == start + |Encode(item)| && Between(data, start, end) == Encode(item)
  {
    RoundTrip(item, shape, rest);
    if data[end..] == rest {
      assert |data[start..]| == |Encode(item)| + |rest|;
      assert data[start..][..|Encode(item)|] == data[start..start + |Encode(item)|];
    }
  }

  method LoadItem(input: IArchive, shape: Shape, ghost item: Item, ghost rest: seq<Byte>) returns (r: Item)
    requires input.file.Valid() && HasShape(item, shape)
    requires input.file.data[input.file.pos..] == Encode(item) + rest
    modifies input, input.file`pos
    ensures input.file.Valid() && r == item
    ensures input.file.data[input.file.pos..] == rest && input.file.pos == old(input.file.pos) + |Encode(item)|
    ensures input.crc == CrcProcess(old(input.crc), Encode(item))
  {
    ghost var start := input.file.pos;
    LoadLands(input.file.data, start, start, item, shape, rest);
    var loaded := input.Load(shape);
    LoadLands(input.file.data, start, input.file.pos, item, shape, rest);
    r := loaded.value;
  }

  lemma FieldsFit(arity: nat, fields: seq<int>)
    requires FieldsOk(arity, fields)
    ensures HasShape(FieldsItem(fields), ArrayShape(arity, SignedShape(8)))
  {
  }

  /** The members of an object, as its own serialization reads them. */
  function FieldsOf(item: Item): seq<int> {
    if item.Array? then seq(|item.items|, k requires 0 <= k < |item.items| => if item.items[k].Signed? then item.items[k].i else 0) else []
  }

  lemma FieldsBack(fields: seq<int>)
    ensures FieldsOf(FieldsItem(fields)) == fields
  {
  }

  method LoadFields(input: IArchive, arity: nat, ghost fields: seq<int>, ghost rest: seq<Byte>) returns (r: seq<int>)
    requires input.file.Valid() && FieldsOk(arity, fields)
    requires input.file.data[input.file.pos..] == Encode(FieldsItem(fields)) + rest
    modifies input, input.file`pos
    ensures input.file.Valid() && r == fields
    ensures input.file.data[input.file.pos..] == rest && input.file.pos == old(input.file.pos) + |Encode(FieldsItem(fields))|
    ensures input.crc == CrcProcess(old(input.crc), Encode(FieldsItem(fields)))
  {
    FieldsFit(arity, fields);
    FieldsBack(fields);
    var item := LoadItem(input, ArrayShape(arity, SignedShape(8)), FieldsItem(fields), rest);
    r := FieldsOf(item);
  }

  method LoadId(input: IArchive, ghost id: nat, ghost rest: seq<Byte>) returns (r: nat)
    requires input.file.Valid() && id < Pow256(8)
    requires input.file.data[input.file.pos..] == Encode(Unsigned(8, id)) + rest
    modifies input, input.file`pos
    ensures input.file.Valid() && r == id
    ensures input.file.data[input.file.pos..] == rest && input.file.pos == old(input.file.pos) + |Encode(Unsigned(8, id))|
    ensures input.crc == CrcProcess(old(input.crc), Encode(Unsigned(8, id)))
  {
    var item := LoadItem(input, UnsignedShape(8), Unsigned(8, id), rest);
    r := item.n;
  }

  method LoadRevision(input: IArchive, ghost revision: int, ghost rest: seq<Byte>) returns (r: int)
    requires input.file.Valid() && InSigned(8, revision)
    requires input.file.data[input.file.pos..] == Encode(Signed(8, revision)) + rest
    modifies input, input.file`pos
    ensures input.file.Valid() && r == revision
    ensures input.file.data[input.file.pos..] == rest && input.file.pos == old(input.file.pos) + |Encode(Signed(8, revision))|
    ensures input.crc == CrcProcess(old(input.crc), Encode(Signed(8, revision)))
  {
    var item := LoadItem(input, SignedShape(8), Signed(8, revision), rest);
    r := item.i;
  }

  lemma UndoKinds(arity: nat, r: Record)
    requires RecordOk(arity, r) && !(r.Insert? || r.Modify? || r.Remove?)
    ensures r.StartUndo? <==> Kind(r) == START_UNDO
    ensures r.Commit? <==> Kind(r) == COMMIT
    ensures r.Undo? <==> Kind(r) == UNDO
    ensures r.UndoAll? <==> Kind(r) == UNDO_ALL
    ensures r.Revision? <==> Kind(r) == REVISION
    ensures START_UNDO <= Kind(r) <= REVISION <==> IsUndoEntry(r)
    ensures !r.Foreign? ==> InSigned(8, r.revision) && Payload(r) == Encode(Signed(8, r.revision))
  {
  }

  /** One step of the undo protocol, with the check that the logged revision agrees. */
  method ApplyStep(c: UndoMultiIndex, kind: nat, revision: int, ghost r: Record) returns (ok: bool)
    requires c.Valid() && c.Clean() && kind == Kind(r) && IsUndoEntry(r) && revision == r.revision
    modifies c, c.table
    ensures ok ==>
      && c.Valid() && c.Clean() && |c.table.indices| == old(|c.table.indices|)
      && Replay(|c.table.indices|, old(c.Model()), r) == Some(c.Model())
    ensures !ok ==> Replay(old(|c.table.indices|), old(c.Model()), r) == None
    ensures ok <==> Accepts(old(c.revision), |old(c.sessions)|, r)
    ensures ok ==> c.revision == revision
  {
    hide UndoMultiIndex.Valid, UndoMultiIndex.Usable, UndoMultiIndex.Tidy, Table, SnapshotsOf, UndoneAll, Undone, UndoTop, CommittedState, AllUndone, StartedState, Accepts;
    RevisionChecked(|c.table.indices|, c.Model(), r);
    if kind == START_UNDO {
      if c.revision < revision - 1 {
        ok := c.SetRevision(revision - 1);
        if !ok { return; }
      }
      var rev := c.StartUndo();
      ok := rev == revision;
    } else if kind == COMMIT {
      var rev, _ := c.Commit(revision);
      ok := rev == revision;
    } else if kind == UNDO {
      c.Undo();
      ok := c.revision == revision;
    } else if kind == UNDO_ALL {
      c.UndoAll();
      ok := c.revision == revision;
    } else {
      ok := c.SetRevision(revision);
    }
  }

  /** An entry of the undo protocol, if it is one. */
  method ApplyRecoverUndo(c: UndoMultiIndex, kind: nat, input: IArchive, ghost arity: nat, ghost r: Record, ghost rest: seq<Byte>) returns (outcome: Outcome)
    requires c.Valid() && c.Clean() && input.file.Valid() && RecordOk(arity, r) && kind == Kind(r) && !(r.Insert? || r.Modify? || r.Remove?)
    requires input.file.data[input.file.pos..] == Payload(r) + rest
    modifies c, c.table, input, input.file`pos
    ensures input.file.Valid()
    ensures outcome == Unknown <==> r.Foreign?
    ensures outcome == Unknown ==>
      && c.Valid() && c.Clean() && c.Model() == old(c.Model()) && |c.table.indices| == old(|c.table.indices|)
      && input.file.pos == old(input.file.pos) && input.crc == old(input.crc)
    ensures outcome == Applied ==>
      && c.Valid() && c.Clean() && |c.table.indices| == old(|c.table.indices|)
      && Replay(|c.table.indices|, old(c.Model()), r) == Some(c.Model())
      && input.file.pos == old(input.file.pos) + |Payload(r)| && input.crc == CrcProcess(old(input.crc), Payload(r))
    ensures outcome == Thrown ==> Replay(old(|c.table.indices|), old(c.Model()), r) == None
  {
    hide UndoMultiIndex.Valid, UndoMultiIndex.Usable, UndoMultiIndex.Tidy, UndoMultiIndex.Model, UndoMultiIndex.Clean, Encode, CrcProcess, RecordOk, Payload, Kind, Replay;
    UndoKinds(arity, r);
    if START_UNDO <= kind <= REVISION {
      var revision := LoadRevision(input, r.revision, rest);
      var ok := ApplyStep(c, kind, revision, r);
      return if ok then Applied else Thrown;
    }
    outcome := Unknown;
  }

  /** One record. */
  method ApplyRecover(c: UndoMultiIndex, kind: nat, input: IArchive, arity: nat, ghost r: Record, ghost rest: seq<Byte>) returns (outcome: Outcome)
    requires c.Valid() && c.Clean() && input.file.Valid() && RecordOk(arity, r) && kind == Kind(r)
    requires input.file.data[input.file.pos..] == Payload(r) + rest
    modifies c, c.table, input, input.file`pos
    ensures input.file.Valid()
    ensures outcome == Unknown <==> r.Foreign?
    ensures outcome == Unknown ==>
      && c.Valid() && c.Clean() && c.Model() == old(c.Model()) && |c.table.indices| == old(|c.table.indices|)
      && input.file.pos == old(input.file.pos) && input.crc == old(input.crc)
    ensures outcome == Applied ==>
      && c.Valid() && c.Clean() && |c.table.indices| == old(|c.table.indices|)
      && Replay(|c.table.indices|, old(c.Model()), r) == Some(c.Model())
      && input.file.pos == old(input.file.pos) + |Payload(r)| && input.crc == CrcProcess(old(input.crc), Payload(r))
    ensures outcome == Thrown ==> Replay(old(|c.table.indices|), old(c.Model()), r) == None
  {
    hide UndoMultiIndex.Valid, UndoMultiIndex.Usable, UndoMultiIndex.Tidy, UndoMultiIndex.Model, UndoMultiIndex.Clean, Encode, CrcProcess, RecordOk, Payload, Kind, Replay;
    ObjectKinds(arity, r, rest);
    if kind == INSERT {
      var fields := LoadFields(input, arity, r.fields, rest);
      var ok := ApplyInsert(c, fields);
      return if ok then Applied else Thrown;
    } else if kind == MODIFY {
      var id := LoadId(input, r.id, Encode(FieldsItem(r.fields)) + rest);
      var h := FindLogged(c, id, r);
      if h.None? {
        return Thrown;
      }
      var fields := LoadFields(input, arity, r.fields, rest);
      CrcInPieces(old(input.crc), Encode(Unsigned(8, r.id)), Encode(FieldsItem(r.fields)));
      var ok := ApplyModify(c, h.value, id, fields);
      return if ok then Applied else Thrown;
    } else if kind == REMOVE {
      var id := LoadId(input, r.id, rest);
      var h := FindLogged(c, id, r);
      if h.None? {
        return Thrown;
      }
      ApplyRemove(c, h.value, id);
      return Applied;
    }
    outcome := ApplyRecoverUndo(c, kind, input, arity, r, rest);
  }

  method ApplyInsert(c: UndoMultiIndex, fields: seq<int>) returns (ok: bool)
    requires c.Valid() && c.Clean()
    modifies c, c.table
    ensures ok ==>
      && c.Valid() && c.Clean() && |c.table.indices| == old(|c.table.indices|)
      && Replay(|c.table.indices|, old(c.Model()), Insert(fields)) == Some(c.Model())
    ensures !ok ==> Replay(old(|c.table.indices|), old(c.Model()), Insert(fields)) == None
  {
    hide UndoMultiIndex.Valid, UndoMultiIndex.Usable, UndoMultiIndex.Tidy, Table, SnapshotsOf, Fits, EmplacedState;
    var h := c.Emplace(c.table.nextId, fields);
    ok := h.Some?;
  }

  /** Looks up the object a record is about; there must be one. */
  method FindLogged(c: UndoMultiIndex, id: nat, ghost r: Record) returns (h: Option<Handle>)
    requires c.Valid() && ((r.Modify? && id == r.id) || (r.Remove? && id == r.id))
    ensures h.None? ==> Replay(|c.table.indices|, c.Model(), r) == None
    ensures h.Some? ==> h.value in c.table.Main() && h.value in c.table.nodes && c.table.nodes[h.value].item.id == id && id in c.Model().contents
  {
    hide UndoMultiIndex.Usable, UndoMultiIndex.Tidy, Table, SnapshotsOf, Fits;
    h := c.Find(id);
  }

  method ApplyModify(c: UndoMultiIndex, h: Handle, id: nat, fields: seq<int>) returns (ok: bool)
    requires c.Valid() && c.Clean() && h in c.table.Main() && h in c.table.nodes && c.table.nodes[h].item.id == id && id in c.Model().contents
    modifies c, c.table
    ensures ok ==>
      && c.Valid() && c.Clean() && |c.table.indices| == old(|c.table.indices|)
      && Replay(|c.table.indices|, old(c.Model()), Modify(id, fields)) == Some(c.Model())
    ensures !ok ==> Replay(old(|c.table.indices|), old(c.Model()), Modify(id, fields)) == None
  {
    hide UndoMultiIndex.Valid, UndoMultiIndex.Usable, UndoMultiIndex.Tidy, Table, SnapshotsOf, Fits, ModifiedState, FailedState, HarmlessFailure, Reverts;
    c.CleanTrusts(h);
    hide UndoMultiIndex.CanTrust;
    ok := c.Modify(h, fields);
  }

  method ApplyRemove(c: UndoMultiIndex, h: Handle, id: nat)
    requires c.Valid() && c.Clean() && h in c.table.Main() && h in c.table.nodes && c.table.nodes[h].item.id == id && id in c.Model().contents
    modifies c, c.table
    ensures c.Valid() && c.Clean() && |c.table.indices| == old(|c.table.indices|)
    ensures Replay(|c.table.indices|, old(c.Model()), Remove(id)) == Some(c.Model())
  {
    hide UndoMultiIndex.Valid, UndoMultiIndex.Usable, UndoMultiIndex.Tidy, Table, SnapshotsOf, RemovedState;
    c.Remove(h);
  }

  lemma ObjectKinds(arity: nat, r: Record, rest: seq<Byte>)
    requires RecordOk(arity, r)
    ensures r.Insert? <==> Kind(r) == INSERT
    ensures r.Modify? <==> Kind(r) == MODIFY
    ensures r.Remove? <==> Kind(r) == REMOVE
    ensures r.Insert? ==> FieldsOk(arity, r.fields) && Payload(r) == Encode(FieldsItem(r.fields))
    ensures r.Modify? ==>
      && r.id < Pow256(8) && FieldsOk(arity, r.fields)
      && Payload(r) == Encode(Unsigned(8, r.id)) + Encode(FieldsItem(r.fields))
      && Payload(r) + rest == Encode(Unsigned(8, r.id)) + (Encode(FieldsItem(r.fields)) + rest)
    ensures r.Remove? ==> r.id < Pow256(8) && Payload(r) == Encode(Unsigned(8, r.id))
  {
  }

  /** Checks the entry just read and reads the header of the next.  `pos` is where the last header
      ended; when there is no next entry it becomes where the journal is to be continued. */
  method ReadHeader(file: File, input: IArchive, log: Header, pos: int) returns (more: bool, log': Header, pos': int)
    requires file.Valid() && input.file == file
    modifies input, file`pos
    ensures file.Valid()
    ensures old(file.pos) - pos != log.size || Checksum(old(input.crc)) != log.crc ==> !more && pos' == pos - HEADER_SIZE
    ensures old(file.pos) - pos == log.size && Checksum(old(input.crc)) == log.crc ==>
      && (more <==> HEADER_SIZE <= |file.data| - old(file.pos))
      && pos' == file.pos
      && (more ==>
            && file.pos == old(file.pos) + HEADER_SIZE && input.crc == ALL_ONES
            && log' == ParseHeader(file.data[old(file.pos)..file.pos]))
      && (!more ==> file.pos == |file.data|)
  {
    if file.pos - pos != log.size {
      return false, log, pos - HEADER_SIZE;
    }
    var crc := input.TakeChecksum();
    if crc != log.crc {
      return false, log, pos - HEADER_SIZE;
    }
    var b := file.Read(HEADER_SIZE);
    if b.None? {
      return false, log, file.pos;
    }
    return true, ParseHeader(b.value), file.pos;
  }

  /** What `ReadHeader` compares differs when up to four adjacent bytes of the payload have changed. */
  lemma DamagedEntryRefused(version: nat, r: Record, front: seq<Byte>, w: seq<Byte>, v: seq<Byte>, rest: seq<Byte>)
    requires Payload(r) == front + w + rest && |v| == |w| <= 4
    ensures Checksum(CrcProcess(ALL_ONES, front + v + rest)) == HeaderOf(version, r).crc <==> v == w
  {
    DamageShows(front, v, w, rest);
    hide Payload, Checksum, CrcProcess;
  }

  /** Where the header and the payload of record `k` are. */
  lemma HeaderAt(arity: nat, version: nat, records: seq<Record>, k: nat)
    requires version < Pow256(4) && k <= |records| && forall r :: r in records ==> RecordOk(arity, r)
    ensures var data, start := Frames(version, records), |Frames(version, records[..k])|;
      && start <= |data| && (k == |records| ==> start == |data|)
      && (k < |records| ==>
            && start + HEADER_SIZE <= |data|
            && ParseHeader(data[start..start + HEADER_SIZE]) == HeaderOf(version, records[k])
            && data[start + HEADER_SIZE..] == Payload(records[k]) + Frames(version, records[k + 1..])
            && |Frames(version, records[..k + 1])| == start + HEADER_SIZE + |Payload(records[k])|)
  {
    hide Frames, Frame, HeaderOf, HeaderBytes, ParseHeader, Payload, RecordOk, Pow256, HeaderOk;
    if k < |records| {
      var r := records[k];
      assert r in records;
      FrameIs(version, r);
      FrameAt(version, records, k);
      HeaderFits(arity, version, r);
      HeaderRoundTrip(HeaderOf(version, r));
      var front, rest := Frames(version, records[..k]), Frames(version, records[k + 1..]);
      FrameSplits(front, HeaderBytes(HeaderOf(version, r)), Payload(r), rest);
    } else {
      assert records[..k] == records;
    }
  }

  lemma FrameIs(version: nat, r: Record)
    ensures Frame(version, r) == HeaderBytes(HeaderOf(version, r)) + Payload(r)
  {
    hide HeaderBytes, HeaderOf, Payload;
  }

  lemma FrameSplits(front: seq<Byte>, header: seq<Byte>, payload: seq<Byte>, rest: seq<Byte>)
    ensures var data, start := front + (header + payload) + rest, |front|;
      && start + |header| <= |data| && |front + (header + payload)| == start + |header| + |payload|
      && data[start..start + |header|] == header
      && data[start + |header|..] == payload + rest
  {
  }

  lemma BetweenIs(data: seq<Byte>, start: nat, payload: seq<Byte>, rest: seq<Byte>)
    requires start <= |data| && data[start..] == payload + rest
    ensures start + |payload| <= |data| && Between(data, start, start + |payload|) == payload
  {
  }

  lemma HeaderSays(version: nat, r: Record)
    ensures var log := HeaderOf(version, r);
      log.kind == Kind(r) && log.size == |Payload(r)| && log.crc == Checksum(CrcProcess(ALL_ONES, Payload(r)))
  {
  }

  lemma BeforeAll(n: nat, v0: View, version: nat, records: seq<Record>)
    ensures Frames(version, records[..0]) == [] && ReplayAll(n, v0, records[..0]) == Some(v0)
  {
  }

  lemma ReplayOneMore(n: nat, v0: View, records: seq<Record>, k: nat)
    requires k < |records|
    ensures ReplayAll(n, v0, records[..k + 1]) ==
      var before := ReplayAll(n, v0, records[..k]); if before.None? then None else Replay(n, before.value, records[k])
  {
    assert records[..k + 1] == records[..k] + [records[k]];
    ReplayLast(n, v0, records[..k], records[k]);
  }

  lemma ForeignStep(n: nat, v: View, r: Record)
    requires r.Foreign?
    ensures Replay(n, v, r) == Some(v)
  {
  }

  /** Applies the entry whose header has just been read, or moves over it if its kind is unknown. */
  method ApplyEntry(c: UndoMultiIndex, log: Header, input: IArchive, arity: nat, ghost r: Record, ghost rest: seq<Byte>) returns (ok: bool)
    requires c.Valid() && c.Clean() && input.file.Valid() && RecordOk(arity, r) && log.kind == Kind(r) && log.size == |Payload(r)|
    requires input.file.data[input.file.pos..] == Payload(r) + rest
    modifies c, c.table, input, input.file`pos
    ensures input.file.Valid()
    ensures ok ==>
      && c.Valid() && c.Clean() && |c.table.indices| == old(|c.table.indices|)
      && Replay(|c.table.indices|, old(c.Model()), r) == Some(c.Model())
      && input.file.pos == old(input.file.pos) + |Payload(r)| && input.crc == CrcProcess(old(input.crc), Payload(r))
    ensures !ok ==> Replay(old(|c.table.indices|), old(c.Model()), r) == None
  {
    hide UndoMultiIndex.Valid, UndoMultiIndex.Usable, UndoMultiIndex.Tidy, UndoMultiIndex.Model, UndoMultiIndex.Clean, RecordOk, Payload, Kind, CrcProcess, Replay, Between;
    BetweenIs(input.file.data, input.file.pos, Payload(r), rest);
    var outcome := ApplyRecover(c, log.kind, input, arity, r, rest);
    if outcome == Unknown {
      ForeignStep(|c.table.indices|, c.Model(), r);
      var skipped := input.Skip(log.size);
      assert skipped;
    }
    ok := outcome != Thrown;
  }

  lemma ModelRevision(c: UndoMultiIndex)
    requires c.table.indices != []
    ensures c.Model().revision == c.revision
  {
  }

  /** Reads the whole file and applies every record to the container. */
  method Recover(file: File, c: UndoMultiIndex, arity: nat, ghost version: nat, ghost records: seq<Record>) returns (ok: bool)
    requires c.Valid() && c.Clean() && file.Valid() && version < Pow256(4)
    requires file.data == Frames(version, records) && forall r :: r in records ==> RecordOk(arity, r)
    modifies c, c.table, file`pos
    ensures file.Valid()
    ensures ok ==> c.Valid() && c.Clean() && |c.table.indices| == old(|c.table.indices|) && file.pos == |file.data|
    ensures ok ==> ReplayAll(|c.table.indices|, old(c.Model()), records) == Some(c.Model())
    ensures ok && records != [] && IsUndoEntry(records[|records| - 1]) ==> c.revision == records[|records| - 1].revision
    ensures !ok ==> ReplayAll(old(|c.table.indices|), old(c.Model()), records) == None
  {
    hide UndoMultiIndex.Valid, UndoMultiIndex.Usable, UndoMultiIndex.Tidy, UndoMultiIndex.Model, UndoMultiIndex.Clean, Frames, Frame, RecordOk, Payload, Kind, Checksum, CrcProcess, Replay, ReplayAll, HeaderOf, HeaderBytes, ParseHeader, Between;
    ghost var n, v0, k := |c.table.indices|, c.Model(), 0;
    file.Seek(0);
    var input := new IArchive(file);
    CrcOfNothing();
    BeforeAll(n, v0, version, records);
    var more, log, pos := ReadHeader(file, input, Header(0, 0, 0, 0), 0);
    HeaderAt(arity, version, records, 0);
    while more
      invariant c.Valid() && c.Clean() && |c.table.indices| == n && file.Valid()
      invariant k <= |records| && ReplayAll(n, v0, records[..k]) == Some(c.Model())
      invariant more <==> k < |records|
      invariant more ==>
        && pos == file.pos == |Frames(version, records[..k])| + HEADER_SIZE && input.crc == ALL_ONES
        && log == HeaderOf(version, records[k])
        && file.data[file.pos..] == Payload(records[k]) + Frames(version, records[k + 1..])
      invariant !more ==> pos == file.pos == |file.data|
      decreases |records| - k
    {
      ghost var r, rest := records[k], Frames(version, records[k + 1..]);
      assert r in records;
      HeaderSays(version, r);
      ReplayOneMore(n, v0, records, k);
      HeaderAt(arity, version, records, k);
      var applied := ApplyEntry(c, log, input, arity, r, rest);
      if !applied {
        ReplayStops(n, v0, records, k + 1);
        return false;
      }
      k := k + 1;
      HeaderAt(arity, version, records, k);
      more, log, pos := ReadHeader(file, input, log, pos);
    }
    assert records[..k] == records;
    if records != [] && IsUndoEntry(records[|records| - 1]) {
      LastRevision(n, v0, records);
      ModelRevision(c);
    }
    file.Seek(pos);
    ok := true;
  }
}
