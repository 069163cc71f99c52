/** Handles on one database file. A write or a rekey is one transaction. A read of an entry is two
    statements outside any transaction, and other handles may do anything between them. */
module StoreHandles {
  import opened Wrappers
  import opened Tables
  import opened SealedStorage

  /** The file all handles share. */
  class DatabaseFile {
    var db: Database

    constructor (key: Bytes)
      ensures db == Created(key).db && DatabaseOk(db)
    {
      db := Created(key).db;
    }
  }

  predicate After(a: ChunkId, b: ChunkId) {
    a.entry > b.entry || (a.entry == b.entry && a.sequence > b.sequence)
  }

  ghost predicate AscendingIds(visited: seq<ChunkId>) {
    forall i, j :: 0 <= i < j < |visited| ==> After(visited[j], visited[i])
  }

  ghost predicate AscendingHashes(visited: seq<int>) {
    forall i, j :: 0 <= i < j < |visited| ==> visited[i] < visited[j]
  }

  /** ORDER BY entry_id, sequence LIMIT 1 over the rows after the last one handled. */
  function NextChunk(chunks: map<ChunkId, Cipher>, last: ChunkId): (next: Option<ChunkId>)
    ensures next.None? ==> forall c :: c in chunks ==> !After(c, last)
    ensures next.Some? ==> next.value in chunks && After(next.value, last)
                           && forall c :: c in chunks && After(c, last) && c != next.value ==> After(c, next.value)
  {
    var entries := set c | c in chunks && After(c, last) :: c.entry;
    if entries == {} then
      assert forall c :: c in chunks && After(c, last) ==> c.entry in entries;
      None
    else
      var entry := Least(entries);
      var sequences := set c | c in chunks && After(c, last) && c.entry == entry :: c.sequence;
      assert forall c :: c in chunks && After(c, last) ==> c.entry in entries;
      assert forall c :: c in chunks && After(c, last) && c.entry == entry ==> c.sequence in sequences;
      Some(ChunkId(entry, Least(sequences)))
  }

  function NextOperation(operations: map<int, Cipher>, last: Option<int>): (next: Option<int>)
    ensures next.None? ==> (last.Some? && forall h :: h in operations ==> h <= last.value) || operations == map[]
    ensures next.Some? ==> next.value in operations && (last.Some? ==> next.value > last.value)
                           && forall h :: h in operations && (last.Some? ==> h > last.value) ==> next.value <= h
  {
    var following := set h | h in operations && (last.None? || h > last.value);
    if following == {} then
      assert forall h :: h in operations && (last.None? || h > last.value) ==> h in following;
      None
    else
      assert forall h :: h in operations && (last.None? || h > last.value) ==> h in following;
      Some(Least(following))
  }

  /** The rows a keyset loop has still to handle. */
  ghost function ChunksAfter(chunks: map<ChunkId, Cipher>, last: ChunkId): set<ChunkId> {
    set c | c in chunks && After(c, last)
  }

  ghost function OperationsAfter(operations: map<int, Cipher>, last: Option<int>): set<int> {
    set h | h in operations && (last.None? || h > last.value)
  }

  /** The rows handled so far, in order: those not after the last one. */
  ghost predicate VisitedUpTo(chunks: map<ChunkId, Cipher>, last: ChunkId, visited: seq<ChunkId>) {
    && (forall c :: c in visited <==> c in chunks && !After(c, last))
    && AscendingIds(visited) && forall c :: c in visited ==> c == last || After(last, c)
  }

  lemma {:induction false} VisitChunk(chunks: map<ChunkId, Cipher>, last: ChunkId, id: ChunkId, visited: seq<ChunkId>)
    requires VisitedUpTo(chunks, last, visited) && id in chunks && After(id, last)
    requires forall c :: c in chunks && After(c, last) && c != id ==> After(c, id)
    ensures VisitedUpTo(chunks, id, visited + [id]) && ChunksAfter(chunks, id) < ChunksAfter(chunks, last)
  {
    assert id in ChunksAfter(chunks, last) && id !in ChunksAfter(chunks, id);
    assert forall i :: 0 <= i < |visited| ==> visited[i] in visited;
  }

  /** One iteration of the chunk loop. */
  lemma {:induction false} WriteChunk(chunks: map<ChunkId, Cipher>, key: Bytes, id: int, entry: EntryKey, value: Bytes,
                                      sequence: nat, offset: nat, end: nat)
    requires offset <= |value| && sequence <= ChunkCount(|value|)
    requires offset == sequence * CHUNK_SIZE || (offset == |value| && sequence == ChunkCount(|value|))
    requires |value| == 0 ==> sequence == 0
    requires offset < |value| || (|value| == 0 && sequence == 0)
    requires end == if offset + CHUNK_SIZE < |value| then offset + CHUNK_SIZE else |value|
    ensures var written := chunks[ChunkId(id, sequence) := Seal(key, value[offset..end], ChunkAad(entry, sequence))];
            var all := chunks + SealedChunks(key, id, entry, value, sequence, offset);
            if |value| == 0 then all == written
            else && all == written + SealedChunks(key, id, entry, value, sequence + 1, end)
                 && sequence + 1 <= ChunkCount(|value|)
                 && (end == (sequence + 1) * CHUNK_SIZE || (end == |value| && sequence + 1 == ChunkCount(|value|)))
  {
    LastChunk(|value|, sequence);
    assert (sequence + 1) * CHUNK_SIZE == sequence * CHUNK_SIZE + CHUNK_SIZE;
    if |value| != 0 {
      SealedChunksRead(key, id, entry, value, sequence + 1, end);
      var rest := SealedChunks(key, id, entry, value, sequence + 1, end);
      assert ChunkId(id, sequence) !in rest;
    }
  }

  /** One handle: the key it was opened with, on a file it shares. */
  class Store {
    const file: DatabaseFile
    var key: Bytes

    /** OpenWithKey on an initialised file: the key must open the marker. */
    constructor (file: DatabaseFile, key: Bytes)
      requires DatabaseOk(file.db) && KeyCurrent(file.db, key)
      ensures this.file == file && this.key == key && key == file.db.marker.key
    {
      this.file := file;
      this.key := key;
    }

    /** The chunk loop of a put, continuing after the old chunks of the row are deleted. */
    method WriteChunks(kept: map<ChunkId, Cipher>, id: int, entry: EntryKey, value: Bytes)
      returns (chunks: map<ChunkId, Cipher>)
      ensures chunks == kept + SealedChunks(key, id, entry, value, 0, 0)
    {
      chunks := kept;
      var sequence, offset := 0, 0;
      while offset < |value| || (|value| == 0 && sequence == 0)
        invariant offset <= |value| && sequence <= ChunkCount(|value|)
        invariant offset == sequence * CHUNK_SIZE || (offset == |value| && sequence == ChunkCount(|value|))
        invariant |value| == 0 ==> sequence == 0
        invariant chunks + SealedChunks(key, id, entry, value, sequence, offset)
                  == kept + SealedChunks(key, id, entry, value, 0, 0)
        decreases |value| - offset
      {
        var end := if offset + CHUNK_SIZE < |value| then offset + CHUNK_SIZE else |value|;
        WriteChunk(chunks, key, id, entry, value, sequence, offset, end);
        chunks := chunks[ChunkId(id, sequence) := Seal(key, value[offset..end], ChunkAad(entry, sequence))];
        if |value| == 0 {
          return;
        }
        offset := end;
        sequence := sequence + 1;
      }
      assert SealedChunks(key, id, entry, value, sequence, offset) == map[];
      assert chunks + map[] == chunks;
    }

    method Put(entry: Entry, value: Bytes) returns (refusal: Option<Refusal>)
      requires DatabaseOk(file.db)
      modifies file
      ensures DatabaseOk(file.db)
      ensures match PutEntry(old(file.db), key, entry, value)
              case Ok(next) => refusal.None? && file.db == next
              case Err(why) => refusal == Some(why) && file.db == old(file.db)
    {
      if Open(key, file.db.marker, MarkerAad) != Some(MARKER_TEXT) {
        return Some(StaleKey);
      }
      ghost var contents := PlainContents(file.db);
      PlainContentsHold(file.db);
      PutEntryHolds(file.db, key, entry, value, contents);
      var id := UpsertId(file.db, entry.key);
      var chunks := WriteChunks(WithoutChunks(file.db.chunks, {id}), id, entry.key, value);
      file.db := file.db.(entries := file.db.entries[id := entry.(size := |value|)], chunks := chunks);
      return None;
    }

    /** The first statement of a read. */
    method FindEntry(entry: EntryKey) returns (row: Option<int>)
      requires DatabaseOk(file.db)
      ensures row == FindRow(file.db, entry)
      ensures row.None? <==> forall id :: id in file.db.entries ==> !HasEntry(file.db, id, entry)
    {
      var id := UpsertId(file.db, entry);
      row := if id in file.db.entries then Some(id) else None;
    }

    /** The second: reads the chunks of a row one by one. An entry whose row is gone has none. */
    method ReadChunks(entry: EntryKey, id: int) returns (value: Result<Bytes, Refusal>)
      requires DatabaseOk(file.db)
      ensures value == ReadFrom(file.db.chunks, key, entry, id, 0)
      ensures value == if id !in file.db.entries then Ok([])
                       else if HasEntry(file.db, id, entry) && key == file.db.marker.key
                       then Ok(ValueFrom(file.db.chunks, id, 0))
                       else Err(StaleKey)
    {
      ReadFromExactly(file.db, key, entry, id);
      var result, sequence := [], 0;
      PrependTwice([], [], ReadFrom(file.db.chunks, key, entry, id, 0));
      while ChunkId(id, sequence) in file.db.chunks
        invariant 0 <= sequence
        invariant ReadFrom(file.db.chunks, key, entry, id, 0)
                  == Prepend(result, ReadFrom(file.db.chunks, key, entry, id, sequence))
        decreases Remaining(file.db.chunks, id, sequence)
      {
        ghost var here := ChunkId(id, sequence);
        assert here in Remaining(file.db.chunks, id, sequence) && here !in Remaining(file.db.chunks, id, sequence + 1);
        var plain := Open(key, file.db.chunks[ChunkId(id, sequence)], ChunkAad(entry, sequence));
        if plain.None? {
          return Err(StaleKey);
        }
        PrependTwice(result, plain.value, ReadFrom(file.db.chunks, key, entry, id, sequence + 1));
        result := result + plain.value;
        sequence := sequence + 1;
      }
      assert result + [] == result;
      return Ok(result);
    }

    /** Get: the two statements, with what the other handles do in between. The handle's own lock
        keeps its key in place. */
    method Get(entry: EntryKey, others: map<nat, Bytes>, between: seq<Event>)
      returns (value: Result<Option<Bytes>, Refusal>)
      requires DatabaseOk(file.db)
      modifies file
      ensures DatabaseOk(file.db) && file.db == Steps(System(old(file.db), others), between).db
      ensures value == ReadAcross(old(file.db), file.db, key, entry)
      ensures between == [] ==>
                match value
                case Ok(None) => forall id :: id in file.db.entries ==> !HasEntry(file.db, id, entry)
                case Ok(Some(bytes)) =>
                  key == file.db.marker.key
                  && exists id :: HasEntry(file.db, id, entry) && bytes == ValueFrom(file.db.chunks, id, 0)
                case Err(_) => key != file.db.marker.key
    {
      var row := FindEntry(entry);
      StepsOk(System(file.db, others), between);
      file.db := Steps(System(file.db, others), between).db;
      if row.None? {
        return Ok(None);
      }
      var chunks := ReadChunks(entry, row.value);
      match chunks
      case Ok(bytes) => return Ok(Some(bytes));
      case Err(why) => return Err(why);
    }

    method PutOperation(tokenHash: int, plain: Bytes) returns (refusal: Option<Refusal>)
      requires DatabaseOk(file.db)
      modifies file
      ensures DatabaseOk(file.db)
      ensures match WriteOperation(old(file.db), key, tokenHash, plain)
              case Ok(next) => refusal.None? && file.db == next
              case Err(why) => refusal == Some(why) && file.db == old(file.db)
    {
      if Open(key, file.db.marker, MarkerAad) != Some(MARKER_TEXT) {
        return Some(StaleKey);
      }
      file.db := file.db.(operations := file.db.operations[tokenHash := Seal(key, plain, OperationAad(tokenHash))]);
      return None;
    }

    method GetOperation(tokenHash: int) returns (plain: Option<Bytes>)
      requires DatabaseOk(file.db)
      ensures plain.Some? <==> tokenHash in file.db.operations && key == file.db.marker.key
      ensures plain.Some? ==> plain.value == file.db.operations[tokenHash].plain
    {
      if tokenHash !in file.db.operations {
        return None;
      }
      return Open(key, file.db.operations[tokenHash], OperationAad(tokenHash));
    }

    /** The first keyset loop of a rekey. It reads each row once, in order, and stops. */
    method RekeyChunks(entries: map<int, Entry>, chunks: map<ChunkId, Cipher>, newKey: Bytes)
      returns (updated: map<ChunkId, Cipher>, failed: bool, ghost visited: seq<ChunkId>)
      requires ChunksPlaced(entries, chunks) && ChunksBound(entries, chunks)
      ensures (forall c :: c in chunks ==> chunks[c].key == key) ==> !failed
      ensures !failed ==> updated == ResealAll(chunks, newKey)
      ensures !failed ==> AscendingIds(visited) && forall c :: c in visited <==> c in chunks
    {
      updated, failed, visited := chunks, false, [];
      var last := ChunkId(0, -1);
      while true
        invariant updated.Keys == chunks.Keys && !failed
        invariant forall c :: c in chunks ==>
                    updated[c] == if After(c, last) then chunks[c] else Reseal(chunks[c], newKey)
        invariant VisitedUpTo(chunks, last, visited)
        decreases ChunksAfter(chunks, last)
      {
        var next := NextChunk(updated, last);
        if next.None? {
          break;
        }
        var id := next.value;
        var aad := ChunkAad(entries[id.entry].key, id.sequence);
        var plaintext := Open(key, updated[id], aad);
        if plaintext.None? {
          failed := true;
          return;
        }
        updated := updated[id := Seal(newKey, plaintext.value, aad)];
        VisitChunk(chunks, last, id, visited);
        visited := visited + [id];
        last := id;
      }
      assert updated == ResealAll(chunks, newKey);
    }

    /** The second keyset loop, over the operations. */
    method RekeyOperations(operations: map<int, Cipher>, newKey: Bytes)
      returns (updated: map<int, Cipher>, failed: bool, ghost visited: seq<int>)
      requires forall h :: h in operations ==> operations[h].aad == OperationAad(h)
      ensures (forall h :: h in operations ==> operations[h].key == key) ==> !failed
      ensures !failed ==> updated == ResealAll(operations, newKey)
      ensures !failed ==> AscendingHashes(visited) && forall h :: h in visited <==> h in operations
    {
      updated, failed, visited := operations, false, [];
      var last := None;
      while true
        invariant updated.Keys == operations.Keys && !failed
        invariant forall h :: h in operations ==>
          updated[h] == if last.None? || h > last.value then operations[h] else Reseal(operations[h], newKey)
        invariant forall h :: h in visited <==> h in operations && last.Some? && h <= last.value
        invariant AscendingHashes(visited) && forall h :: h in visited ==> last.Some? && h <= last.value
        decreases OperationsAfter(operations, last)
      {
        var next := NextOperation(updated, last);
        if next.None? {
          break;
        }
        var hash := next.value;
        var plaintext := Open(key, updated[hash], OperationAad(hash));
        if plaintext.None? {
          failed := true;
          return;
        }
        updated := updated[hash := Seal(newKey, plaintext.value, OperationAad(hash))];
        assert hash in OperationsAfter(operations, last) && hash !in OperationsAfter(operations, Some(hash));
        assert forall i :: 0 <= i < |visited| ==> visited[i] in visited;
        visited := visited + [hash];
        last := Some(hash);
      }
      assert updated == ResealAll(operations, newKey);
    }

    /** Re-encrypts every row under a new key in one transaction. */
    method Rekey(newKey: Bytes, useKeychain: bool) returns (refusal: Option<Refusal>)
      requires DatabaseOk(file.db)
      modifies file, this`key
      ensures DatabaseOk(file.db)
      ensures match RekeyTx(old(file.db), old(key), newKey, useKeychain)
              case Ok(next) => refusal.None? && file.db == next && key == newKey
              case Err(why) => refusal == Some(why) && file.db == old(file.db) && key == old(key)
    {
      if |newKey| != KEY_SIZE {
        return Some(BadKeySize);
      }
      var db := file.db;
      if Open(key, db.marker, MarkerAad) != Some(MARKER_TEXT) {
        return Some(StaleKey);
      }
      PlainContentsHold(db);
      RekeyHolds(db, key, newKey, useKeychain, PlainContents(db));
      var recovery := if useKeychain then Some(Seal(key, newKey, RecoveryAad)) else db.recovery;
      var chunks, chunksFailed, _ := RekeyChunks(db.entries, db.chunks, newKey);
      var operations, operationsFailed, _ := RekeyOperations(db.operations, newKey);
      var markerPlaintext := Open(key, db.marker, MarkerAad).value;
      file.db := Database(db.entries, chunks, operations, Seal(newKey, markerPlaintext, MarkerAad), recovery);
      key := newKey;
      return None;
    }
  }
}
