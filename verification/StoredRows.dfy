/** What writes leave in the tables, row by row: which are refused, what a row says, and which
    piece of a value each chunk holds. */
module StoredRows {
  import opened Wrappers
  import opened SealedStorage

  /** Chunk n holds the n-th MiB of its value. */
  lemma {:induction false} ChunkIsPiece(key: Bytes, id: int, entry: EntryKey, value: Bytes, sequence: nat, offset: nat,
                                        c: ChunkId)
    requires offset <= |value| && (offset == sequence * (1024 * 1024) || offset == |value|)
    requires c in SealedChunks(key, id, entry, value, sequence, offset)
    ensures var piece := SealedChunks(key, id, entry, value, sequence, offset)[c].plain;
            var from, to := c.sequence * (1024 * 1024), (c.sequence + 1) * (1024 * 1024);
            && c.entry == id && c.sequence >= sequence && from <= |value|
            && piece == value[from..if to < |value| then to else |value|]
    decreases |value| - offset
  {
    if offset < |value| || (|value| == 0 && sequence == 0) {
      var end := if offset + CHUNK_SIZE < |value| then offset + CHUNK_SIZE else |value|;
      assert (sequence + 1) * (1024 * 1024) == sequence * (1024 * 1024) + 1024 * 1024;
      if |value| != 0 && c != ChunkId(id, sequence) {
        ChunkIsPiece(key, id, entry, value, sequence + 1, end, c);
      }
    }
  }

  /** The row of an entry. */
  ghost predicate RowSays(db: Database, id: int, entry: Entry, size: nat) {
    && id in db.entries && db.entries[id].key == entry.key && db.entries[id].kind == entry.kind
    && db.entries[id].expiresAt == entry.expiresAt && db.entries[id].accessedAt == entry.accessedAt
    && db.entries[id].size == size
  }

  /** A put is refused exactly under another key. Otherwise the entry has one row, that says what
      was put; the rows of other entries, the operations, the marker and the recovery record stay. */
  lemma {:induction false} PutExactly(db: Database, key: Bytes, entry: Entry, value: Bytes)
    requires DatabaseOk(db)
    ensures var put := PutEntry(db, key, entry, value);
            && (put.Err? <==> key != db.marker.key)
            && (put.Ok? ==>
                  && (exists id :: RowSays(put.value, id, entry, |value|))
                  && (forall id :: id in put.value.entries && put.value.entries[id].key == entry.key ==>
                        RowSays(put.value, id, entry, |value|))
                  && (forall id :: id in db.entries && db.entries[id].key != entry.key ==>
                        id in put.value.entries && put.value.entries[id] == db.entries[id])
                  && (forall id :: id in put.value.entries && put.value.entries[id].key != entry.key ==>
                        id in db.entries && put.value.entries[id] == db.entries[id])
                  && put.value.operations == db.operations && put.value.marker == db.marker
                  && put.value.recovery == db.recovery)
  {
    if KeyCurrent(db, key) {
      var id := UpsertId(db, entry.key);
      assert RowSays(PutEntry(db, key, entry, value).value, id, entry, |value|);
    }
  }

  /** A rekey is refused exactly for a key that is not of 32 bytes, or by a handle with another
      key. It leaves the entries' rows, and keeps the new key under the old one if it is to. */
  lemma {:induction false} RekeyExactly(db: Database, key: Bytes, newKey: Bytes, useKeychain: bool)
    requires DatabaseOk(db)
    ensures var rekeyed := RekeyTx(db, key, newKey, useKeychain);
            && (rekeyed.Ok? <==> |newKey| == 32 && key == db.marker.key)
            && (rekeyed == Err(BadKeySize) <==> |newKey| != 32)
            && (rekeyed.Ok? ==>
                  && rekeyed.value.entries == db.entries
                  && rekeyed.value.marker == Seal(newKey, db.marker.plain, db.marker.aad)
                  && rekeyed.value.recovery
                     == if useKeychain then Some(Seal(key, newKey, RecoveryAad)) else db.recovery)
  {
  }

  /** Deleting entries leaves exactly the rows of the others, and everything else but chunks. */
  lemma {:induction false} DeleteExactly(db: Database, keys: set<EntryKey>)
    ensures var next := DeleteEntries(db, keys);
            && (forall id :: id in next.entries <==> id in db.entries && db.entries[id].key !in keys)
            && (forall id :: id in next.entries ==> next.entries[id] == db.entries[id])
            && next.operations == db.operations && next.marker == db.marker && next.recovery == db.recovery
  {
  }

  /** The marker is the text every handle checks for: "posthouse-state-key-ok". */
  lemma {:induction false} MarkerText()
    ensures |MARKER_TEXT| == |"posthouse-state-key-ok"|
    ensures forall i :: 0 <= i < |MARKER_TEXT| ==> MARKER_TEXT[i] as int == "posthouse-state-key-ok"[i] as int
  {
  }
}
