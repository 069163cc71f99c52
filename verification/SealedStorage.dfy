/** The encrypted state database. Authenticated encryption is ideal: opening succeeds exactly
    with the key and the associated data a value was sealed under. */
module SealedStorage {
  import opened Wrappers
  import opened Tables

  const KEY_SIZE: nat := 32

  const CHUNK_SIZE: nat := 1048576

  /** A cache entry is found by its namespace and the hash of its key. */
  datatype EntryKey = EntryKey(namespace: string, keyHash: int)

  datatype Aad = MarkerAad | RecoveryAad | ChunkAad(entry: EntryKey, sequence: int) | OperationAad(tokenHash: int)

  datatype Cipher = Sealed(key: Bytes, aad: Aad, plain: Bytes)

  /** "posthouse-state-key-ok" in ASCII. */
  const MARKER_TEXT: Bytes := [112, 111, 115, 116, 104, 111, 117, 115, 101, 45, 115, 116, 97, 116, 101, 45, 107, 101,
                               121, 45, 111, 107]

  function Seal(key: Bytes, plain: Bytes, aad: Aad): Cipher { Sealed(key, aad, plain) }

  function Open(key: Bytes, cipher: Cipher, aad: Aad): Option<Bytes> {
    if cipher.key == key && cipher.aad == aad then Some(cipher.plain) else None
  }

  datatype Entry = Entry(key: EntryKey, kind: string, expiresAt: int, accessedAt: int, size: nat)

  datatype ChunkId = ChunkId(entry: int, sequence: int)

  /** The tables: cache_entries by rowid, cache_chunks, operations by token hash, and the two
      records of state_meta. */
  datatype Database = Database(
    entries: map<int, Entry>, chunks: map<ChunkId, Cipher>, operations: map<int, Cipher>,
    marker: Cipher, recovery: Option<Cipher>)

  // ----- invariant ------------------------------------------------------------------------

  ghost predicate KeysUnique(entries: map<int, Entry>) {
    forall a, b :: a in entries && b in entries && a != b ==> entries[a].key != entries[b].key
  }

  /** How many chunks a value of this size has; an empty value has one. */
  function ChunkCount(size: nat): int {
    if size == 0 then 1 else (size - 1) / CHUNK_SIZE + 1
  }

  /** Every entry has exactly the chunks its size calls for, numbered from 0. */
  ghost predicate ChunksPlaced(entries: map<int, Entry>, chunks: map<ChunkId, Cipher>) {
    && (forall id :: id in entries ==> id >= 1)
    && (forall c :: c in chunks ==> c.entry in entries && 0 <= c.sequence < ChunkCount(entries[c.entry].size))
    && (forall id, s :: id in entries && 0 <= s < ChunkCount(entries[id].size) ==> ChunkId(id, s) in chunks)
  }

  ghost predicate ChunksBound(entries: map<int, Entry>, chunks: map<ChunkId, Cipher>) {
    forall c :: c in chunks ==> c.entry in entries && chunks[c].aad == ChunkAad(entries[c.entry].key, c.sequence)
  }

  /** Rows are well-formed, and every sealed value is bound to its row by its associated data. */
  ghost predicate WellFormed(db: Database) {
    && KeysUnique(db.entries) && ChunksPlaced(db.entries, db.chunks) && ChunksBound(db.entries, db.chunks)
    && (forall h :: h in db.operations ==> db.operations[h].aad == OperationAad(h))
    && db.marker.aad == MarkerAad && db.marker.plain == MARKER_TEXT
  }

  /** Everything but the recovery record is sealed under one key. */
  ghost predicate OneKey(db: Database, key: Bytes) {
    && db.marker.key == key
    && (forall c :: c in db.chunks ==> db.chunks[c].key == key)
    && (forall h :: h in db.operations ==> db.operations[h].key == key)
  }

  ghost predicate DatabaseOk(db: Database) {
    WellFormed(db) && OneKey(db, db.marker.key)
  }

  // ----- values ---------------------------------------------------------------------------

  ghost function Remaining(chunks: map<ChunkId, Cipher>, id: int, from: int): set<ChunkId> {
    set c | c in chunks && c.entry == id && c.sequence >= from
  }

  /** The chunks of one entry in order of their sequence number, joined. */
  ghost function ValueFrom(chunks: map<ChunkId, Cipher>, id: int, from: int): Bytes
    decreases Remaining(chunks, id, from)
  {
    if ChunkId(id, from) in chunks then
      assert ChunkId(id, from) in Remaining(chunks, id, from) && ChunkId(id, from) !in Remaining(chunks, id, from + 1);
      chunks[ChunkId(id, from)].plain + ValueFrom(chunks, id, from + 1)
    else []
  }

  lemma {:induction false} ValueFrame(a: map<ChunkId, Cipher>, b: map<ChunkId, Cipher>, id: int, from: int)
    requires forall s :: s >= from ==> (ChunkId(id, s) in a <==> ChunkId(id, s) in b)
    requires forall s :: s >= from && ChunkId(id, s) in a ==> a[ChunkId(id, s)].plain == b[ChunkId(id, s)].plain
    ensures ValueFrom(a, id, from) == ValueFrom(b, id, from)
    decreases Remaining(a, id, from)
  {
    if ChunkId(id, from) in a {
      assert ChunkId(id, from) in Remaining(a, id, from) && ChunkId(id, from) !in Remaining(a, id, from + 1);
      ValueFrame(a, b, id, from + 1);
    }
  }

  /** The chunks written for a value from `offset` on, numbered from `sequence`. An empty value
      has one empty chunk. */
  function SealedChunks(key: Bytes, id: int, entry: EntryKey, value: Bytes, sequence: nat,
                        offset: nat): map<ChunkId, Cipher>
    requires offset <= |value|
    decreases |value| - offset
  {
    if offset < |value| || (|value| == 0 && sequence == 0) then
      var end := if offset + CHUNK_SIZE < |value| then offset + CHUNK_SIZE else |value|;
      var rest := if |value| == 0 then map[] else SealedChunks(key, id, entry, value, sequence + 1, end);
      rest[ChunkId(id, sequence) := Seal(key, value[offset..end], ChunkAad(entry, sequence))]
    else map[]
  }

  lemma {:induction false} LastChunk(size: nat, sequence: nat)
    ensures sequence * CHUNK_SIZE < size ==> sequence < ChunkCount(size)
    ensures size > 0 && size <= (sequence + 1) * CHUNK_SIZE ==> ChunkCount(size) <= sequence + 1
  {
  }

  /** The chunks of one value, and nothing else. */
  ghost predicate ChunksOf(chunks: map<ChunkId, Cipher>, key: Bytes, id: int, entry: EntryKey, from: int, to: int) {
    && (forall c :: c in chunks ==>
          c.entry == id && from <= c.sequence < to && chunks[c].key == key
          && chunks[c].aad == ChunkAad(entry, c.sequence))
    && (forall s :: from <= s < to ==> ChunkId(id, s) in chunks)
  }

  /** Writing and reading back: the chunks are the ones the size calls for, sealed for their
      row, and join to the value. */
  lemma {:induction false} SealedChunksRead(key: Bytes, id: int, entry: EntryKey, value: Bytes, sequence: nat,
                                            offset: nat)
    requires offset <= |value| && sequence <= ChunkCount(|value|)
    requires offset == sequence * CHUNK_SIZE || (offset == |value| && sequence == ChunkCount(|value|))
    ensures var chunks := SealedChunks(key, id, entry, value, sequence, offset);
            ValueFrom(chunks, id, sequence) == value[offset..]
              && ChunksOf(chunks, key, id, entry, sequence, ChunkCount(|value|))
    decreases |value| - offset
  {
    LastChunk(|value|, sequence);
    if offset < |value| || (|value| == 0 && sequence == 0) {
      var end := if offset + CHUNK_SIZE < |value| then offset + CHUNK_SIZE else |value|;
      var rest := if |value| == 0 then map[] else SealedChunks(key, id, entry, value, sequence + 1, end);
      var chunks := SealedChunks(key, id, entry, value, sequence, offset);
      if |value| != 0 {
        assert (sequence + 1) * CHUNK_SIZE == sequence * CHUNK_SIZE + CHUNK_SIZE;
        SealedChunksRead(key, id, entry, value, sequence + 1, end);
      }
      ValueFrame(rest, chunks, id, sequence + 1);
      assert value[offset..] == value[offset..end] + value[end..];
    } else {
      if sequence > 0 && offset == |value| { LastChunk(|value|, sequence - 1); }
    }
  }

  // ----- transactions ---------------------------------------------------------------------

  datatype Refusal = StaleKey | BadKeySize

  /** lockAndVerifyKey: a handle may write only under the key the marker opens with. */
  predicate KeyCurrent(db: Database, key: Bytes) {
    Open(key, db.marker, MarkerAad) == Some(MARKER_TEXT)
  }

  predicate HasEntry(db: Database, id: int, key: EntryKey) {
    id in db.entries && db.entries[id].key == key
  }

  /** The rowid of a new row: one more than the largest in use. */
  function NewRowid(db: Database): (id: int)
    ensures id >= 1 && id !in db.entries
  {
    var negated := set x | x in db.entries :: -x;
    if negated == {} then
      assert forall x :: x in db.entries ==> -x in negated;
      1
    else
      var greatest := -Least(negated);
      assert forall x :: x in db.entries ==> -x in negated;
      if greatest < 0 then 1 else greatest + 1
  }

  /** The row an upsert hits: the entry with this key, or a new one. */
  function UpsertId(db: Database, key: EntryKey): (id: int)
    ensures HasEntry(db, id, key)
            || (id >= 1 && id !in db.entries && forall x :: x in db.entries ==> db.entries[x].key != key)
  {
    var matching := set x | x in db.entries && HasEntry(db, x, key);
    if matching == {} then
      assert forall x :: x in db.entries && HasEntry(db, x, key) ==> x in matching;
      NewRowid(db)
    else Least(matching)
  }

  function WithoutChunks(chunks: map<ChunkId, Cipher>, ids: set<int>): map<ChunkId, Cipher> {
    map c | c in chunks && c.entry !in ids :: chunks[c]
  }

  /** putEntryTx behind lockAndVerifyKey. */
  function PutEntry(db: Database, key: Bytes, entry: Entry, value: Bytes): Result<Database, Refusal> {
    if !KeyCurrent(db, key) then Err(StaleKey)
    else
      var id := UpsertId(db, entry.key);
      Ok(db.(entries := db.entries[id := entry.(size := |value|)],
             chunks := WithoutChunks(db.chunks, {id}) + SealedChunks(key, id, entry.key, value, 0, 0)))
  }

  /** DELETE of cache entries, by expiry, eviction or key; their chunks go with them. */
  function DeleteEntries(db: Database, keys: set<EntryKey>): Database {
    var gone := set id | id in db.entries && db.entries[id].key in keys;
    db.(entries := db.entries - gone, chunks := WithoutChunks(db.chunks, gone))
  }

  /** PutOperation and updateOperation, as far as the sealed column goes. */
  function WriteOperation(db: Database, key: Bytes, tokenHash: int, plain: Bytes): Result<Database, Refusal> {
    if !KeyCurrent(db, key) then Err(StaleKey)
    else Ok(db.(operations := db.operations[tokenHash := Seal(key, plain, OperationAad(tokenHash))]))
  }

  function DeleteOperation(db: Database, tokenHash: int): Database {
    db.(operations := db.operations - {tokenHash})
  }

  function Reseal(cipher: Cipher, newKey: Bytes): Cipher { Seal(newKey, cipher.plain, cipher.aad) }

  function ResealAll<K>(rows: map<K, Cipher>, newKey: Bytes): map<K, Cipher> {
    map k | k in rows :: Reseal(rows[k], newKey)
  }

  /** The committed effect of Rekey. */
  function Rekeyed(db: Database, newKey: Bytes, recovery: Option<Cipher>): Database {
    db.(chunks := ResealAll(db.chunks, newKey),
        operations := ResealAll(db.operations, newKey),
        marker := Reseal(db.marker, newKey),
        recovery := recovery)
  }

  function RekeyTx(db: Database, key: Bytes, newKey: Bytes, useKeychain: bool): Result<Database, Refusal> {
    if |newKey| != KEY_SIZE then Err(BadKeySize)
    else if !KeyCurrent(db, key) then Err(StaleKey)
    else Ok(Rekeyed(db, newKey, if useKeychain then Some(Seal(key, newKey, RecoveryAad)) else db.recovery))
  }

  // ----- what a transaction does to the plain contents --------------------------------------

  /** The plain meaning of a database: the key in force, and the cached values and operation
      records a holder of that key reads. */
  datatype Contents = Contents(key: Bytes, values: map<EntryKey, Bytes>, operations: map<int, Bytes>)

  ghost predicate ValuesHold(entries: map<int, Entry>, chunks: map<ChunkId, Cipher>, values: map<EntryKey, Bytes>) {
    && (forall id :: id in entries ==> entries[id].key in values && values[entries[id].key] == ValueFrom(chunks, id, 0))
    && (forall k :: k in values ==> exists id :: id in entries && entries[id].key == k)
  }

  ghost predicate OperationsHold(operations: map<int, Cipher>, plain: map<int, Bytes>) {
    plain.Keys == operations.Keys && forall h :: h in operations ==> plain[h] == operations[h].plain
  }

  ghost predicate Holds(db: Database, contents: Contents) {
    && contents.key == db.marker.key
    && ValuesHold(db.entries, db.chunks, contents.values)
    && OperationsHold(db.operations, contents.operations)
  }

  lemma {:induction false} ReplacePlaced(entries: map<int, Entry>, chunks: map<ChunkId, Cipher>, key: Bytes, id: int,
                                         entry: Entry, sealed: map<ChunkId, Cipher>)
    requires ChunksPlaced(entries, chunks) && id >= 1
    requires ChunksOf(sealed, key, id, entry.key, 0, ChunkCount(entry.size))
    ensures ChunksPlaced(entries[id := entry], WithoutChunks(chunks, {id}) + sealed)
  {
    var after, next := entries[id := entry], WithoutChunks(chunks, {id}) + sealed;
    forall x, s | x in after && 0 <= s < ChunkCount(after[x].size) ensures ChunkId(x, s) in next {
      if x != id { assert ChunkId(x, s) in chunks; }
    }
  }

  /** Replacing the chunks of one row leaves the layout intact. */
  lemma {:induction false} ReplaceChunks(entries: map<int, Entry>, chunks: map<ChunkId, Cipher>, key: Bytes, id: int,
                                         entry: Entry, sealed: map<ChunkId, Cipher>)
    requires ChunksPlaced(entries, chunks) && ChunksBound(entries, chunks) && id >= 1
    requires id in entries ==> entries[id].key == entry.key
    requires ChunksOf(sealed, key, id, entry.key, 0, ChunkCount(entry.size))
    requires forall c :: c in chunks ==> chunks[c].key == key
    ensures var next := WithoutChunks(chunks, {id}) + sealed;
            && ChunksPlaced(entries[id := entry], next) && ChunksBound(entries[id := entry], next)
            && forall c :: c in next ==> next[c].key == key
  {
    ReplacePlaced(entries, chunks, key, id, entry, sealed);
  }

  lemma {:induction false} ReplaceValue(chunks: map<ChunkId, Cipher>, key: Bytes, id: int, entry: EntryKey,
                                        value: Bytes, other: int)
    ensures var next := WithoutChunks(chunks, {id}) + SealedChunks(key, id, entry, value, 0, 0);
            ValueFrom(next, other, 0) == if other == id then value else ValueFrom(chunks, other, 0)
  {
    var sealed := SealedChunks(key, id, entry, value, 0, 0);
    var next := WithoutChunks(chunks, {id}) + sealed;
    SealedChunksRead(key, id, entry, value, 0, 0);
    if other == id {
      ValueFrame(sealed, next, id, 0);
    } else {
      ValueFrame(chunks, next, other, 0);
    }
  }

  /** The upsert hits the only row with its key. */
  lemma {:induction false} UpsertUnique(db: Database, key: EntryKey, id: int)
    requires KeysUnique(db.entries) && HasEntry(db, id, key)
    ensures UpsertId(db, key) == id
  {
  }

  /** A put keeps the database sound, replaces the value under its key and touches no other. */
  lemma {:induction false} PutEntryHolds(db: Database, key: Bytes, entry: Entry, value: Bytes, contents: Contents)
    requires DatabaseOk(db) && Holds(db, contents) && KeyCurrent(db, key)
    ensures var next := PutEntry(db, key, entry, value).value;
            DatabaseOk(next) && Holds(next, contents.(values := contents.values[entry.key := value]))
  {
    var next := PutEntry(db, key, entry, value).value;
    var id := UpsertId(db, entry.key);
    SealedChunksRead(key, id, entry.key, value, 0, 0);
    ReplaceChunks(db.entries, db.chunks, key, id, entry.(size := |value|),
                  SealedChunks(key, id, entry.key, value, 0, 0));
    ReplacedValues(db, key, entry, value, contents.values);
  }

  lemma {:induction false} ReplacedValues(db: Database, key: Bytes, entry: Entry, value: Bytes,
                                          values: map<EntryKey, Bytes>)
    requires KeysUnique(db.entries) && ValuesHold(db.entries, db.chunks, values) && KeyCurrent(db, key)
    ensures var next := PutEntry(db, key, entry, value).value;
            KeysUnique(next.entries) && ValuesHold(next.entries, next.chunks, values[entry.key := value])
  {
    var next := PutEntry(db, key, entry, value).value;
    var id := UpsertId(db, entry.key);
    var after := values[entry.key := value];
    forall x | x in next.entries
      ensures next.entries[x].key in after && after[next.entries[x].key] == ValueFrom(next.chunks, x, 0)
    {
      ReplaceValue(db.chunks, key, id, entry.key, value, x);
      if x != id && db.entries[x].key == entry.key { UpsertUnique(db, entry.key, x); }
    }
    forall k | k in after ensures exists x :: x in next.entries && next.entries[x].key == k {
      if k == entry.key {
        assert id in next.entries;
      } else {
        var x :| x in db.entries && db.entries[x].key == k;
        assert x in next.entries;
      }
    }
  }

  /** What a sound database holds in plain. */
  ghost function PlainContents(db: Database): Contents {
    var keys := set id | id in db.entries :: db.entries[id].key;
    Contents(db.marker.key,
             map k | k in keys :: ValueFrom(db.chunks, UpsertId(db, k), 0),
             map h | h in db.operations :: db.operations[h].plain)
  }

  lemma {:induction false} PlainContentsHold(db: Database)
    requires DatabaseOk(db)
    ensures Holds(db, PlainContents(db))
  {
    var contents := PlainContents(db);
    forall id | id in db.entries
      ensures db.entries[id].key in contents.values
      ensures contents.values[db.entries[id].key] == ValueFrom(db.chunks, id, 0)
    {
      UpsertUnique(db, db.entries[id].key, id);
    }
  }

  lemma {:induction false} DeletedLayout(entries: map<int, Entry>, chunks: map<ChunkId, Cipher>, gone: set<int>)
    requires KeysUnique(entries) && ChunksPlaced(entries, chunks) && ChunksBound(entries, chunks)
    ensures var kept := WithoutChunks(chunks, gone);
            KeysUnique(entries - gone) && ChunksPlaced(entries - gone, kept) && ChunksBound(entries - gone, kept)
  {
  }

  lemma {:induction false} DeleteEntriesHolds(db: Database, keys: set<EntryKey>, contents: Contents)
    requires DatabaseOk(db) && Holds(db, contents)
    ensures DatabaseOk(DeleteEntries(db, keys))
    ensures Holds(DeleteEntries(db, keys), contents.(values := contents.values - keys))
  {
    var gone := set id | id in db.entries && db.entries[id].key in keys;
    var kept := WithoutChunks(db.chunks, gone);
    DeletedLayout(db.entries, db.chunks, gone);
    var values := contents.values - keys;
    forall id | id in db.entries - gone ensures ValueFrom(kept, id, 0) == ValueFrom(db.chunks, id, 0) {
      ValueFrame(db.chunks, kept, id, 0);
    }
    forall k | k in values ensures exists x :: x in db.entries - gone && (db.entries - gone)[x].key == k {
      var x :| x in db.entries && db.entries[x].key == k;
      assert x in db.entries - gone;
    }
  }

  lemma {:induction false} ResealedChunks(entries: map<int, Entry>, chunks: map<ChunkId, Cipher>, newKey: Bytes,
                                          values: map<EntryKey, Bytes>)
    requires ChunksPlaced(entries, chunks) && ChunksBound(entries, chunks) && ValuesHold(entries, chunks, values)
    ensures var next := ResealAll(chunks, newKey);
            ChunksPlaced(entries, next) && ChunksBound(entries, next) && ValuesHold(entries, next, values)
  {
    var next := ResealAll(chunks, newKey);
    forall id | id in entries ensures ValueFrom(next, id, 0) == ValueFrom(chunks, id, 0) {
      ValueFrame(chunks, next, id, 0);
    }
  }

  /** Rekeying preserves every plaintext and leaves one key again. */
  lemma {:induction false} RekeyHolds(db: Database, key: Bytes, newKey: Bytes, useKeychain: bool, contents: Contents)
    requires DatabaseOk(db) && Holds(db, contents) && RekeyTx(db, key, newKey, useKeychain).Ok?
    ensures var next := RekeyTx(db, key, newKey, useKeychain).value;
            DatabaseOk(next) && next.marker.key == newKey && Holds(next, contents.(key := newKey))
  {
    ResealedChunks(db.entries, db.chunks, newKey, contents.values);
  }

  // ----- any number of handles ----------------------------------------------------------------

  /** A process-wide handle remembers the key it was opened with. */
  datatype System = System(db: Database, handles: map<nat, Bytes>)

  datatype Event =
    | OpenHandle(handle: nat, key: Bytes)
    | Put(handle: nat, entry: Entry, value: Bytes)
    | Remove(keys: set<EntryKey>)
    | PutOperation(handle: nat, tokenHash: int, plain: Bytes)
    | RemoveOperation(tokenHash: int)
    | Rekey(handle: nat, newKey: Bytes, useKeychain: bool)

  /** One transaction of one handle. Opening succeeds only with the current key; a refused
      transaction is rolled back. */
  function Step(s: System, e: Event): System {
    match e
    case OpenHandle(h, key) => if KeyCurrent(s.db, key) then s.(handles := s.handles[h := key]) else s
    case Put(h, entry, value) =>
      if h in s.handles && PutEntry(s.db, s.handles[h], entry, value).Ok?
      then s.(db := PutEntry(s.db, s.handles[h], entry, value).value) else s
    case Remove(keys) => s.(db := DeleteEntries(s.db, keys))
    case PutOperation(h, tokenHash, plain) =>
      if h in s.handles && WriteOperation(s.db, s.handles[h], tokenHash, plain).Ok?
      then s.(db := WriteOperation(s.db, s.handles[h], tokenHash, plain).value) else s
    case RemoveOperation(tokenHash) => s.(db := DeleteOperation(s.db, tokenHash))
    case Rekey(h, newKey, useKeychain) =>
      if h in s.handles && RekeyTx(s.db, s.handles[h], newKey, useKeychain).Ok?
      then System(RekeyTx(s.db, s.handles[h], newKey, useKeychain).value, s.handles[h := newKey]) else s
  }

  /** The same events on plain contents: a write counts only from a handle with the key in
      force, and rekeying changes nothing but that key. */
  datatype Plain = Plain(contents: Contents, handles: map<nat, Bytes>)

  function PlainStep(p: Plain, e: Event): Plain {
    match e
    case OpenHandle(h, key) => if key == p.contents.key then p.(handles := p.handles[h := key]) else p
    case Put(h, entry, value) =>
      if h in p.handles && p.handles[h] == p.contents.key
      then p.(contents := p.contents.(values := p.contents.values[entry.key := value])) else p
    case Remove(keys) => p.(contents := p.contents.(values := p.contents.values - keys))
    case PutOperation(h, tokenHash, plain) =>
      if h in p.handles && p.handles[h] == p.contents.key
      then p.(contents := p.contents.(operations := p.contents.operations[tokenHash := plain])) else p
    case RemoveOperation(tokenHash) => p.(contents := p.contents.(operations := p.contents.operations - {tokenHash}))
    case Rekey(h, newKey, _) =>
      if h in p.handles && p.handles[h] == p.contents.key && |newKey| == KEY_SIZE
      then Plain(p.contents.(key := newKey), p.handles[h := newKey]) else p
  }

  lemma {:induction false} StepRefines(s: System, p: Plain, e: Event)
    requires DatabaseOk(s.db) && Holds(s.db, p.contents) && s.handles == p.handles
    ensures var next := Step(s, e); var plain := PlainStep(p, e);
            DatabaseOk(next.db) && Holds(next.db, plain.contents) && next.handles == plain.handles
  {
    match e
    case OpenHandle(h, key) =>
    case Put(h, entry, value) =>
      if h in s.handles && KeyCurrent(s.db, s.handles[h]) {
        PutEntryHolds(s.db, s.handles[h], entry, value, p.contents);
      }
    case Remove(keys) => DeleteEntriesHolds(s.db, keys, p.contents);
    case PutOperation(h, tokenHash, plain) =>
      if h in s.handles { WriteOperationHolds(s.db, s.handles[h], tokenHash, plain, p.contents); }
    case RemoveOperation(tokenHash) => DeleteOperationHolds(s.db, tokenHash, p.contents);
    case Rekey(h, newKey, useKeychain) =>
      if h in s.handles && RekeyTx(s.db, s.handles[h], newKey, useKeychain).Ok? {
        RekeyHolds(s.db, s.handles[h], newKey, useKeychain, p.contents);
      }
  }

  lemma {:induction false} WriteOperationHolds(db: Database, key: Bytes, tokenHash: int, plain: Bytes,
                                               contents: Contents)
    requires DatabaseOk(db) && Holds(db, contents)
    ensures var written := WriteOperation(db, key, tokenHash, plain);
            && (written.Err? <==> key != db.marker.key)
            && (written.Ok? ==>
                  && DatabaseOk(written.value)
                  && Holds(written.value, contents.(operations := contents.operations[tokenHash := plain])))
  {
  }

  lemma {:induction false} DeleteOperationHolds(db: Database, tokenHash: int, contents: Contents)
    requires DatabaseOk(db) && Holds(db, contents)
    ensures var next := DeleteOperation(db, tokenHash);
            DatabaseOk(next) && Holds(next, contents.(operations := contents.operations - {tokenHash}))
  {
  }

  /** A new database: only the key marker. */
  function Created(key: Bytes): System {
    System(Database(map[], map[], map[], Seal(key, MARKER_TEXT, MarkerAad), None), map[])
  }

  function Run(key: Bytes, events: seq<Event>): System {
    if events == [] then Created(key) else Step(Run(key, events[..|events| - 1]), events[|events| - 1])
  }

  function PlainRun(key: Bytes, events: seq<Event>): Plain {
    if events == [] then Plain(Contents(key, map[], map[]), map[])
    else PlainStep(PlainRun(key, events[..|events| - 1]), events[|events| - 1])
  }

  /** Over every interleaving of handles that write and rekey: all rows and the marker are
      sealed under one key, the handles with any other key have written nothing, and what is
      readable is what the plain store holds, byte for byte. */
  lemma {:induction false} StoreRefinesPlain(key: Bytes, events: seq<Event>)
    ensures var s := Run(key, events); var p := PlainRun(key, events);
            DatabaseOk(s.db) && Holds(s.db, p.contents) && s.handles == p.handles
  {
    if events != [] {
      StoreRefinesPlain(key, events[..|events| - 1]);
      StepRefines(Run(key, events[..|events| - 1]), PlainRun(key, events[..|events| - 1]), events[|events| - 1]);
    }
  }

  // ----- a read in two statements ---------------------------------------------------------------

  /** The first statement of a read: the row of an entry. */
  function FindRow(db: Database, entry: EntryKey): (row: Option<int>)
    ensures row.Some? ==> HasEntry(db, row.value, entry)
    ensures row.None? ==> forall id :: id in db.entries ==> !HasEntry(db, id, entry)
  {
    var id := UpsertId(db, entry);
    if id in db.entries then Some(id) else None
  }

  function Prepend(bytes: Bytes, read: Result<Bytes, Refusal>): Result<Bytes, Refusal> {
    match read
    case Ok(rest) => Ok(bytes + rest)
    case Err(why) => Err(why)
  }

  lemma {:induction false} PrependTwice(a: Bytes, b: Bytes, read: Result<Bytes, Refusal>)
    ensures Prepend(a, Prepend(b, read)) == Prepend(a + b, read)
    ensures Prepend([], read) == read
  {
    if read.Ok? {
      Assoc(a, b, read.value);
      assert [] + read.value == read.value;
    }
  }

  /** The second statement: whatever chunks that row has by then, from one on. */
  ghost function ReadFrom(chunks: map<ChunkId, Cipher>, key: Bytes, entry: EntryKey, id: int,
                          from: int): Result<Bytes, Refusal>
    decreases Remaining(chunks, id, from)
  {
    var here := ChunkId(id, from);
    if here !in chunks then Ok([])
    else if Open(key, chunks[here], ChunkAad(entry, from)).None? then Err(StaleKey)
    else
      assert here in Remaining(chunks, id, from) && here !in Remaining(chunks, id, from + 1);
      Prepend(chunks[here].plain, ReadFrom(chunks, key, entry, id, from + 1))
  }

  /** A read whose two statements see the database at two moments. */
  ghost function ReadAcross(before: Database, after: Database, key: Bytes,
                            entry: EntryKey): Result<Option<Bytes>, Refusal> {
    var row := FindRow(before, entry);
    if row.None? then Ok(None)
    else
      match ReadFrom(after.chunks, key, entry, row.value, 0)
      case Ok(value) => Ok(Some(value))
      case Err(why) => Err(why)
  }

  lemma {:induction false} ReadFromOwn(chunks: map<ChunkId, Cipher>, key: Bytes, entry: EntryKey, id: int, from: int)
    requires forall c :: c in chunks && c.entry == id ==>
               chunks[c].key == key && chunks[c].aad == ChunkAad(entry, c.sequence)
    ensures ReadFrom(chunks, key, entry, id, from) == Ok(ValueFrom(chunks, id, from))
    decreases Remaining(chunks, id, from)
  {
    var here := ChunkId(id, from);
    if here in chunks {
      assert here in Remaining(chunks, id, from) && here !in Remaining(chunks, id, from + 1);
      ReadFromOwn(chunks, key, entry, id, from + 1);
    }
  }

  /** The second statement exactly: the bytes of the row while it still holds the entry and the
      key is still in force, nothing when the row is gone, and an error otherwise. */
  lemma {:induction false} ReadFromExactly(db: Database, key: Bytes, entry: EntryKey, id: int)
    requires DatabaseOk(db)
    ensures ReadFrom(db.chunks, key, entry, id, 0)
            == if id !in db.entries then Ok([])
               else if HasEntry(db, id, entry) && key == db.marker.key then Ok(ValueFrom(db.chunks, id, 0))
               else Err(StaleKey)
  {
    if id in db.entries {
      assert ChunkId(id, 0) in db.chunks by { assert 0 < ChunkCount(db.entries[id].size); }
      if HasEntry(db, id, entry) && key == db.marker.key {
        ReadFromOwn(db.chunks, key, entry, id, 0);
      }
    }
  }

  /** What other handles do between two moments. */
  function Steps(s: System, events: seq<Event>): System {
    if events == [] then s else Step(Steps(s, events[..|events| - 1]), events[|events| - 1])
  }

  lemma {:induction false} StepsOk(s: System, events: seq<Event>)
    requires DatabaseOk(s.db)
    ensures DatabaseOk(Steps(s, events).db)
  {
    if events != [] {
      var before := Steps(s, events[..|events| - 1]);
      StepsOk(s, events[..|events| - 1]);
      PlainContentsHold(before.db);
      StepRefines(before, Plain(PlainContents(before.db), before.handles), events[|events| - 1]);
    }
  }

  lemma {:induction false} RunSteps(key: Bytes, events: seq<Event>, more: seq<Event>)
    ensures Run(key, events + more) == Steps(Run(key, events), more)
  {
    if more == [] {
      assert events + more == events;
    } else {
      var before, last := more[..|more| - 1], more[|more| - 1];
      RunSteps(key, events, before);
      assert (events + more)[..|events + more| - 1] == events + before;
    }
  }

  /** A read exactly, over every run, with any events of other handles between its statements:
      not found if and only if the entry was missing at the first; else nothing if its row is
      gone by the second, the plain value of that moment if the row still holds the entry and
      the key is still in force, and an error otherwise. */
  lemma {:induction false} ReadExactly(created: Bytes, events: seq<Event>, between: seq<Event>, key: Bytes,
                                       entry: EntryKey)
    ensures var before, after := Run(created, events).db, Run(created, events + between).db;
            var row, read := FindRow(before, entry), ReadAcross(before, after, key, entry);
            var values := PlainRun(created, events + between).contents.values;
            && (row.None? <==> entry !in PlainRun(created, events).contents.values)
            && (row.None? ==> read == Ok(None))
            && (row.Some? ==>
                  read == if row.value !in after.entries then Ok(Some([]))
                          else if HasEntry(after, row.value, entry) && key == after.marker.key && entry in values
                          then Ok(Some(values[entry]))
                          else Err(StaleKey))
  {
    StoreRefinesPlain(created, events);
    StoreRefinesPlain(created, events + between);
    var before, after := Run(created, events).db, Run(created, events + between).db;
    var row := FindRow(before, entry);
    assert row.Some? ==> entry in PlainRun(created, events).contents.values;
    if row.Some? {
      ReadFromExactly(after, key, entry, row.value);
    }
  }

  /** So a value that is not empty at the second statement is served as an empty one if and only
      if its row was deleted in between. */
  lemma {:induction false} ServedEmptyExactly(created: Bytes, events: seq<Event>, between: seq<Event>, key: Bytes,
                                              entry: EntryKey)
    requires entry in PlainRun(created, events).contents.values
    requires var values := PlainRun(created, events + between).contents.values; entry in values ==> values[entry] != []
    ensures var before, after := Run(created, events).db, Run(created, events + between).db;
            var row := FindRow(before, entry);
            row.Some? && (ReadAcross(before, after, key, entry) == Ok(Some([])) <==> row.value !in after.entries)
  {
    ReadExactly(created, events, between, key, entry);
  }

  /** A value of any length, stored by one handle, removed between the statements of a read. */
  lemma {:induction false} RemovedIsServedEmpty(key: Bytes, entry: Entry, value: Bytes)
    ensures var events := [OpenHandle(0, key), Put(0, entry, value)];
            var between := [Remove({entry.key})];
            && entry.key in PlainRun(key, events).contents.values
            && PlainRun(key, events).contents.values[entry.key] == value
            && ReadAcross(Run(key, events).db, Run(key, events + between).db, key, entry.key) == Ok(Some([]))
  {
    var events, between := [OpenHandle(0, key), Put(0, entry, value)], [Remove({entry.key})];
    TwoEvents(key, events);
    RunSteps(key, events, between);
    StoreRefinesPlain(key, events);
    ReadExactly(key, events, between, key, entry.key);
    var row := FindRow(Run(key, events).db, entry.key).value;
    assert Steps(Run(key, events), between) == Step(Run(key, events), between[0]) by {
      assert between[..0] == [];
    }
    assert row !in DeleteEntries(Run(key, events).db, {entry.key}).entries;
  }

  lemma {:induction false} TwoEvents(key: Bytes, events: seq<Event>)
    requires |events| == 2
    ensures PlainRun(key, events) == PlainStep(PlainStep(PlainRun(key, []), events[0]), events[1])
  {
    assert events[..1][..0] == [] && events[..1][0] == events[0];
    assert PlainRun(key, events[..1]) == PlainStep(PlainRun(key, []), events[0]);
  }
}
