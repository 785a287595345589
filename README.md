# dc4bc client state store, modelled in Dafny

This project models the persistent state store of the dc4bc client
(`client/state.go`). The client takes part in distributed key generation and
threshold signing. The store keeps two things in one LevelDB database:

- the **offset**: how far the client has read the external event stream, stored
  under the key `"offset"` as eight little-endian bytes of a `uint64`;
- the **operation registry**: the in-flight protocol operations keyed by ID,
  stored as one table under the key `"operations"`. Every change reads the whole
  table, edits it and writes it back.

Files:

- `binary.dfy`, module `LittleEndian`: Go's `binary.LittleEndian.PutUint64` and
  `binary.LittleEndian.Uint64` on an eight-byte buffer, with both round trips
  proved.
- `state.dfy`, module `ClientState`: the data model (`Operation`, the stored
  `Slot`, errors); the reads and writes as pure functions of the database
  contents (`StoredOperations`, `StoredOffset`, `OperationByID`, `InitKeyStep`,
  `SaveOffsetStep`, `PutOperationStep`, `DeleteOperationStep`); lemmas relating
  them; and the class `LevelDBState`. The class holds the database as a field
  `db: map<string, Slot>`, and each of its methods is proved to leave `db`
  equal to the matching step function of the old contents.

The class invariant `WellFormed` says two things. A stored offset is at least
eight bytes long. Every operation in the stored table is filed under its own ID.
`PutOperation` and `DeleteOperation` preserve this invariant.

Every write either fails and leaves `db` unchanged, or changes only its one
key (`ChangesOnly`). `Put` is strict and rejects a duplicate ID. `Delete`
accepts an ID that is not there. A lookup of a missing ID fails.

Two behaviours of the code that the model keeps:

- `LoadOffset` reports a missing offset as the engine's own not-found error on
  the key (`client/state.go:80-83`), modelled as `KeyNotFound("offset")`.
- `initKey` seeds the table whenever its read fails (`client/state.go:54`). The
  model treats every failed read as "key absent", because engine read errors
  are not modelled.

## Model

| member | source | states |
|---|---|---|
| LittleEndian.Encode | client/state.go:70 | the byte layout `binary.LittleEndian.PutUint64` writes: exactly eight bytes, least significant first, whose little-endian value is the offset |
| LittleEndian.Uint64 | client/state.go:85 | the little-endian value of the first eight bytes: byte i of the result is `b[i]`, later bytes are ignored, and fewer than eight are excluded (Go panics on them) |
| LittleEndian.PutUint64 | client/state.go:69-70 | the first eight bytes of the buffer become the little-endian encoding of the offset, the rest of the buffer is untouched, and decoding the buffer gives the offset back |
| LittleEndian.DecodeEncode | client/state.go:70-85 | the encoding is exactly 8 bytes, and decoding it returns the original `uint64` |
| LittleEndian.EncodeDecode | client/state.go:85 | every 8-byte buffer is the encoding of the value it decodes to, so the codec is a bijection between `uint64` and 8-byte sequences |
| LittleEndian.EncodeInjective | client/state.go:70 | two offsets with the same 8 bytes are the same offset |
| ClientState.StoredOperations | client/state.go:172-184 | reading the table succeeds exactly when the key holds a decodable table, and then returns that table; a missing key is a not-found error, and a value that does not decode is a separate `Undecodable` error |
| ClientState.StoredOffset | client/state.go:79-87 | loading fails exactly when no offset was ever written, with a not-found error on `"offset"`; otherwise it returns the value whose encoding is the first eight stored bytes |
| ClientState.OperationByID | client/state.go:155-170 | succeeds exactly when the table is readable and holds the ID, and returns that entry, whose ID is the one asked for; an unknown ID gives "operation not found", and a read failure is passed on |
| ClientState.InitKeyStep | client/state.go:53-66 | an existing value is left untouched; an absent key gets the seed and no other key changes |
| ClientState.SaveOffsetStep | client/state.go:68-77 | only `"offset"` changes, and it now holds the 8-byte encoding of the offset |
| ClientState.PutOperationStep | client/state.go:99-123 | succeeds exactly when the table is readable and the ID is new; then the table is the old one plus `ID ↦ op` and no other key changes; a duplicate gives `AlreadyExists` and every failure leaves the database unchanged |
| ClientState.DeleteOperationStep | client/state.go:125-146 | succeeds exactly when the table is readable, even if the ID is absent; then the table is the old one minus the ID and no other key changes; a failure leaves the database unchanged |
| ClientState.FreshInitIsEmpty | client/state.go:46-66 | opening a database without an operations key leaves an empty registry and changes nothing else |
| ClientState.InitKeepsExisting | client/state.go:53-66 | seeding is idempotent, and reopening a database that already has the key keeps all of its contents |
| ClientState.InitPreservesWellFormed | client/state.go:46 | seeding the empty table keeps the store invariant |
| ClientState.SaveThenLoadOffset | client/state.go:68-87 | after saving `v`, loading returns `v`, and the invariant holds |
| ClientState.SaveOffsetOverwrites | client/state.go:68-77 | saving `v` and then `w` is the same as saving `w` alone, and loading returns `w`, so no history is kept |
| ClientState.SaveOffsetKeepsOperations | client/state.go:72 | saving the offset leaves the operations registry as it was |
| ClientState.PutPreservesWellFormed | client/state.go:108-112 | registering keeps every operation filed under its own ID |
| ClientState.DeletePreservesWellFormed | client/state.go:134 | unregistering keeps every operation filed under its own ID |
| ClientState.PutThenGet | client/state.go:99-170 | after a successful put, looking up its ID returns exactly the inserted operation |
| ClientState.PutTwiceConflicts | client/state.go:108-110 | a second put with the same ID fails with `AlreadyExists` and changes nothing; the registry grew by exactly one |
| ClientState.DeleteThenGet | client/state.go:125-170 | after a delete, looking up the ID gives "operation not found" |
| ClientState.DeleteAbsentIsNoop | client/state.go:134 | deleting an ID that is not registered succeeds and leaves the database unchanged |
| ClientState.DeleteIdempotent | client/state.go:125-146 | deleting twice has the same result and the same final database as deleting once |
| ClientState.DeleteUndoesPut | client/state.go:99-146 | deleting the ID that was just registered restores the database exactly |
| ClientState.DistinctPutsAllPass | client/state.go:99-123 | putting operations with distinct fresh IDs one after another: every put succeeds, and the table becomes the old one with all of them added |
| ClientState.DistinctPutsAllLand | client/state.go:99-123 | after N such puts the registry has exactly N more entries, and each operation is stored under its own ID |
| ClientState.LevelDBState.constructor | client/state.go:36-51 | opening establishes the invariant, and the database is the opened contents with the operations key seeded if it was absent |
| ClientState.LevelDBState.InitKey | client/state.go:53-66 | the database becomes `InitKeyStep` of its old contents |
| ClientState.LevelDBState.SaveOffset | client/state.go:68-77 | fills an 8-byte buffer in place and stores it; the database becomes `SaveOffsetStep` of its old contents, and the invariant is kept |
| ClientState.LevelDBState.LoadOffset | client/state.go:79-87 | returns `StoredOffset`: the saved offset, or not-found when none was saved; the database is not changed |
| ClientState.LevelDBState.SaveFSM | client/state.go:89-92 | reports success and changes nothing (the body is an unimplemented stub) |
| ClientState.LevelDBState.LoadFSM | client/state.go:94-97 | reports success with no snapshot and changes nothing (the body is an unimplemented stub) |
| ClientState.LevelDBState.PutOperation | client/state.go:99-123 | the outcome and the new database are those of `PutOperationStep` on the old contents, and the invariant is kept |
| ClientState.LevelDBState.DeleteOperation | client/state.go:125-146 | the outcome and the new database are those of `DeleteOperationStep` on the old contents, and the invariant is kept |
| ClientState.LevelDBState.GetOperations | client/state.go:148-153 | returns the stored table, or the read error, and changes nothing |
| ClientState.LevelDBState.GetOperationByID | client/state.go:155-170 | returns `OperationByID` and changes nothing; a returned operation carries the ID asked for |

## Left out

- Opening LevelDB (`leveldb.OpenFile`), its I/O errors, durability on disk and file locking: the engine is an in-memory map. A write that fails inside the engine is not modelled, so `SaveOffset` reports nothing and `PutOperation`/`DeleteOperation` fail only for the reasons the store itself checks.
- The `sync.Mutex`: each method is one atomic sequential step, so interleavings of concurrent callers are not modelled.
- JSON encoding of the operations table: the slot holds the decoded table directly. A value that does not decode is a `Bytes` slot, and reading it gives `Undecodable`. A marshalling failure is not modelled. Neither is a stored JSON `null`, which decodes to a nil Go map that `PutOperation`'s insert would panic on.
- ClientState.LevelDBState.constructor: requires the opened database to be `WellFormed`, which holds for anything this store wrote. A foreign database is not modelled: an offset value shorter than eight bytes makes Go's decoder panic, and an operations table filed under IDs other than its entries' own is excluded.
- The fields of `Operation` other than `ID`: the type is defined elsewhere, so it carries an uninterpreted byte payload.
- Go pointers to operations: the table holds values. Aliasing loses nothing, because the table is stored as JSON and every read (`client/state.go:178-179`) unmarshals fresh pointers, so no returned `*Operation` aliases the stored table. A nil `*Operation` passed to `PutOperation`, on which Go panics when it reads `operation.ID` (`client/state.go:108`), is not modelled.
- Operation IDs as byte strings: IDs are modelled as Unicode text and the JSON round trip of the table is assumed exact. In Go an ID is a byte string, and `json.Marshal` (`client/state.go:113`, `136`) replaces invalid UTF-8 with U+FFFD. An ID that is not valid UTF-8, such as `"\xff"`, is therefore re-keyed by the Go store: after a successful put, looking it up gives "operation not found", and a second put with the same ID passes the duplicate check at `client/state.go:108`. `PutThenGet`, `PutTwiceConflicts`, `DistinctPutsAllLand` and the invariant that every operation is filed under its own ID hold only for IDs that are valid UTF-8.
- `SaveFSM`/`LoadFSM` take and return `interface{}`. Here the snapshot is an opaque byte sequence.
- The exact error strings and `%w` wrapping: errors are the variants of `Error`.
- The file-system path given to `NewLevelDBState`: the constructor takes the database contents found at that path.
