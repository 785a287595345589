/**
  The client's persistent state store: an offset into the external event
  stream, kept as eight little-endian bytes under the key "offset", and the
  registry of in-flight operations, kept as one table under the key
  "operations" that every change reads, modifies and writes back whole.

  The key-value engine is an in-memory map from key to stored slot; every
  method below is one atomic step on it.
 */
module ClientState {
  import opened LittleEndian

  const OffsetKey: string := "offset"
  const OperationsKey: string := "operations"

  /** A unit of pending protocol work; only its ID is interpreted here. */
  datatype Operation = Operation(ID: string, Payload: seq<byte>)

  /** What the engine holds under one key: raw bytes, or a decoded operations table. */
  datatype Slot = Bytes(data: seq<byte>) | Ops(table: map<string, Operation>)

  type Db = map<string, Slot>

  datatype Error =
    | KeyNotFound(key: string)    // the engine has no value under the key
    | Undecodable(key: string)    // the value under the key is not an operations table
    | AlreadyExists(id: string)   // PutOperation with an ID that is already registered
    | OperationNotFound           // GetOperationByID with an unknown ID

  datatype Result<T> = Ok(value: T) | Err(error: Error)

  datatype Outcome = Pass | Fail(error: Error)

  datatype Option<T> = None | Some(value: T)

  /** The result of one store call: what it reports and the engine's contents afterwards. */
  datatype Update = Update(outcome: Outcome, db: Db)

  /** Every operation is registered under its own ID. */
  ghost predicate KeyedById(table: map<string, Operation>)
  {
    forall id :: id in table ==> table[id].ID == id
  }

  /**
    The shape this store keeps its keys in: an offset, once written, is at
    least eight bytes (fewer would make the decoder panic), and a decodable
    operations table is keyed by ID.
   */
  ghost predicate WellFormed(db: Db)
  {
    && (OffsetKey in db ==> db[OffsetKey].Bytes? && |db[OffsetKey].data| >= 8)
    && (OperationsKey in db && db[OperationsKey].Ops? ==> KeyedById(db[OperationsKey].table))
  }

  /** Only `key` may differ between `db` and `db'`, and `db'` holds it. */
  ghost predicate ChangesOnly(db: Db, db': Db, key: string)
  {
    key in db' && db' - {key} == db - {key}
  }

  // ---------------------------------------------------------------------------
  // Reads

  /** The operations table as the store decodes it from its key. */
  function StoredOperations(db: Db): (r: Result<map<string, Operation>>)
    ensures r.Ok? <==> OperationsKey in db && db[OperationsKey].Ops?
    ensures OperationsKey !in db ==> r == Err(KeyNotFound(OperationsKey))
    ensures OperationsKey in db && db[OperationsKey].Bytes? ==> r == Err(Undecodable(OperationsKey))
    ensures r.Ok? ==> Ops(r.value) == db[OperationsKey]
  {
    if OperationsKey !in db then Err(KeyNotFound(OperationsKey))
    else match db[OperationsKey]
      case Ops(table) => Ok(table)
      case Bytes(_) => Err(Undecodable(OperationsKey))
  }

  /** The saved offset, or a not-found error when no offset was ever written. */
  function StoredOffset(db: Db): (r: Result<uint64>)
    requires WellFormed(db)
    ensures r.Err? <==> OffsetKey !in db
    ensures r.Err? ==> r.error == KeyNotFound(OffsetKey)
    ensures r.Ok? ==> Encode(r.value) == db[OffsetKey].data[..8]
  {
    if OffsetKey !in db then Err(KeyNotFound(OffsetKey))
    else
      var v := Uint64(db[OffsetKey].data);
      EncodeDecode(db[OffsetKey].data[..8]);
      assert Uint64(db[OffsetKey].data[..8]) == v;
      Ok(v)
  }

  /** The operation registered under `id`. */
  function OperationByID(db: Db, id: string): (r: Result<Operation>)
    requires WellFormed(db)
    ensures StoredOperations(db).Err? ==> r == Err(StoredOperations(db).error)
    ensures StoredOperations(db).Ok? && id !in StoredOperations(db).value ==> r == Err(OperationNotFound)
    ensures r.Ok? <==> StoredOperations(db).Ok? && id in StoredOperations(db).value
    ensures r.Ok? ==> r.value == StoredOperations(db).value[id] && r.value.ID == id
  {
    match StoredOperations(db)
    case Err(e) => Err(e)
    case Ok(table) => if id in table then Ok(table[id]) else Err(OperationNotFound)
  }

  // ---------------------------------------------------------------------------
  // Writes, as functions of the engine's contents

  /** Seeds `key` with `seed` when the engine has nothing under it. */
  function InitKeyStep(db: Db, key: string, seed: Slot): (db': Db)
    ensures key in db ==> db' == db
    ensures key !in db ==> ChangesOnly(db, db', key) && db'[key] == seed
  {
    if key in db then db else db[key := seed]
  }

  /** Overwrites the offset with the eight-byte encoding of `offset`. */
  function SaveOffsetStep(db: Db, offset: uint64): (db': Db)
    ensures ChangesOnly(db, db', OffsetKey)
    ensures db'[OffsetKey] == Bytes(Encode(offset))
  {
    db[OffsetKey := Bytes(Encode(offset))]
  }

  /** Registers `op` unless its ID is taken; a failure leaves the engine untouched. */
  function PutOperationStep(db: Db, op: Operation): (u: Update)
    ensures u.outcome.Pass? <==> StoredOperations(db).Ok? && op.ID !in StoredOperations(db).value
    ensures u.outcome.Fail? ==> u.db == db
    ensures StoredOperations(db).Err? ==> u.outcome == Fail(StoredOperations(db).error)
    ensures StoredOperations(db).Ok? && op.ID in StoredOperations(db).value ==>
              u.outcome == Fail(AlreadyExists(op.ID))
    ensures u.outcome.Pass? ==>
              && ChangesOnly(db, u.db, OperationsKey)
              && StoredOperations(u.db) == Ok(StoredOperations(db).value[op.ID := op])
  {
    match StoredOperations(db)
    case Err(e) => Update(Fail(e), db)
    case Ok(table) =>
      if op.ID in table then Update(Fail(AlreadyExists(op.ID)), db)
      else Update(Pass, db[OperationsKey := Ops(table[op.ID := op])])
  }

  /** Unregisters `id`; an unknown ID is not an error. */
  function DeleteOperationStep(db: Db, id: string): (u: Update)
    ensures u.outcome.Pass? <==> StoredOperations(db).Ok?
    ensures u.outcome.Fail? ==> u.db == db && u.outcome == Fail(StoredOperations(db).error)
    ensures u.outcome.Pass? ==>
              && ChangesOnly(db, u.db, OperationsKey)
              && StoredOperations(u.db) == Ok(StoredOperations(db).value - {id})
  {
    match StoredOperations(db)
    case Err(e) => Update(Fail(e), db)
    case Ok(table) => Update(Pass, db[OperationsKey := Ops(table - {id})])
  }

  // ---------------------------------------------------------------------------
  // Properties of the store

  /** Opening a store whose operations key is missing leaves an empty registry. */
  lemma FreshInitIsEmpty(db: Db)
    requires OperationsKey !in db
    ensures StoredOperations(InitKeyStep(db, OperationsKey, Ops(map[]))) == Ok(map[])
    ensures InitKeyStep(db, OperationsKey, Ops(map[])) - {OperationsKey} == db
  {
  }

  /** Reopening a store keeps everything it holds, and seeding twice is seeding once. */
  lemma InitKeepsExisting(db: Db, seed: Slot)
    ensures InitKeyStep(InitKeyStep(db, OperationsKey, seed), OperationsKey, seed)
            == InitKeyStep(db, OperationsKey, seed)
    ensures OperationsKey in db ==> InitKeyStep(db, OperationsKey, seed) == db
  {
  }

  /** Seeding the empty table keeps the store well-formed. */
  lemma InitPreservesWellFormed(db: Db)
    requires WellFormed(db)
    ensures WellFormed(InitKeyStep(db, OperationsKey, Ops(map[])))
  {
  }

  /** Saving an offset and then loading it gives the offset back. */
  lemma SaveThenLoadOffset(db: Db, offset: uint64)
    requires WellFormed(db)
    ensures WellFormed(SaveOffsetStep(db, offset))
    ensures StoredOffset(SaveOffsetStep(db, offset)) == Ok(offset)
  {
    DecodeEncode(offset);
  }

  /** A second save overwrites the first: no history is kept. */
  lemma SaveOffsetOverwrites(db: Db, first: uint64, second: uint64)
    requires WellFormed(db)
    ensures SaveOffsetStep(SaveOffsetStep(db, first), second) == SaveOffsetStep(db, second)
    ensures StoredOffset(SaveOffsetStep(SaveOffsetStep(db, first), second)) == Ok(second)
  {
    SaveThenLoadOffset(db, second);
  }

  /** Saving the offset does not touch the operations registry. */
  lemma SaveOffsetKeepsOperations(db: Db, offset: uint64)
    ensures StoredOperations(SaveOffsetStep(db, offset)) == StoredOperations(db)
  {
  }

  /** Registering and unregistering keep every operation under its own ID. */
  lemma PutPreservesWellFormed(db: Db, op: Operation)
    requires WellFormed(db)
    ensures WellFormed(PutOperationStep(db, op).db)
  {
  }

  lemma DeletePreservesWellFormed(db: Db, id: string)
    requires WellFormed(db)
    ensures WellFormed(DeleteOperationStep(db, id).db)
  {
  }

  /** A registered operation is found by its ID. */
  lemma PutThenGet(db: Db, op: Operation)
    requires WellFormed(db)
    requires PutOperationStep(db, op).outcome.Pass?
    ensures OperationByID(PutOperationStep(db, op).db, op.ID) == Ok(op)
  {
  }

  /** Registering the same ID twice: the second call fails and the registry keeps one entry for it. */
  lemma PutTwiceConflicts(db: Db, op: Operation, again: Operation)
    requires PutOperationStep(db, op).outcome.Pass?
    requires again.ID == op.ID
    ensures PutOperationStep(PutOperationStep(db, op).db, again).outcome == Fail(AlreadyExists(op.ID))
    ensures PutOperationStep(PutOperationStep(db, op).db, again).db == PutOperationStep(db, op).db
    ensures |StoredOperations(PutOperationStep(db, op).db).value| == |StoredOperations(db).value| + 1
  {
  }

  /** Unregistering an operation makes it unknown. */
  lemma DeleteThenGet(db: Db, id: string)
    requires WellFormed(db)
    requires StoredOperations(db).Ok?
    ensures OperationByID(DeleteOperationStep(db, id).db, id) == Err(OperationNotFound)
  {
  }

  /** Unregistering an unknown ID succeeds and changes nothing; unregistering twice is unregistering once. */
  lemma DeleteAbsentIsNoop(db: Db, id: string)
    requires StoredOperations(db).Ok? && id !in StoredOperations(db).value
    ensures DeleteOperationStep(db, id) == Update(Pass, db)
  {
    assert StoredOperations(db).value - {id} == StoredOperations(db).value;
  }

  lemma DeleteIdempotent(db: Db, id: string)
    ensures DeleteOperationStep(DeleteOperationStep(db, id).db, id) == Update(DeleteOperationStep(db, id).outcome, DeleteOperationStep(db, id).db)
  {
    if StoredOperations(db).Ok? {
      DeleteAbsentIsNoop(DeleteOperationStep(db, id).db, id);
    }
  }

  /** Unregistering what was just registered restores the engine exactly. */
  lemma DeleteUndoesPut(db: Db, op: Operation)
    requires PutOperationStep(db, op).outcome.Pass?
    ensures DeleteOperationStep(PutOperationStep(db, op).db, op.ID) == Update(Pass, db)
  {
    var table := StoredOperations(db).value;
    assert table[op.ID := op] - {op.ID} == table;
  }

  /** The engine after registering `ops` one after the other. */
  ghost function PutInOrder(db: Db, ops: seq<Operation>): Db
    decreases |ops|
  {
    if ops == [] then db else PutOperationStep(PutInOrder(db, ops[..|ops| - 1]), ops[|ops| - 1]).db
  }

  ghost predicate DistinctIds(ops: seq<Operation>)
  {
    forall i, j :: 0 <= i < j < |ops| ==> ops[i].ID != ops[j].ID
  }

  /** The IDs of `ops`. */
  ghost function Ids(ops: seq<Operation>): set<string>
  {
    set i | 0 <= i < |ops| :: ops[i].ID
  }

  lemma IdsSnoc(ops: seq<Operation>)
    requires ops != []
    ensures Ids(ops) == Ids(ops[..|ops| - 1]) + {ops[|ops| - 1].ID}
  {
  }

  /** `table` with each of `ops` added under its ID, in order. */
  ghost function Registered(table: map<string, Operation>, ops: seq<Operation>): map<string, Operation>
    decreases |ops|
  {
    if ops == [] then table
    else Registered(table, ops[..|ops| - 1])[ops[|ops| - 1].ID := ops[|ops| - 1]]
  }

  lemma {:induction false} RegisteredKeys(table: map<string, Operation>, ops: seq<Operation>)
    ensures Registered(table, ops).Keys == table.Keys + Ids(ops)
    decreases |ops|
  {
    if ops != [] {
      RegisteredKeys(table, ops[..|ops| - 1]);
      IdsSnoc(ops);
    }
  }

  /** With distinct IDs, each added operation is found under its own ID. */
  lemma {:induction false} RegisteredHolds(table: map<string, Operation>, ops: seq<Operation>, i: nat)
    requires DistinctIds(ops)
    requires i < |ops|
    ensures ops[i].ID in Registered(table, ops) && Registered(table, ops)[ops[i].ID] == ops[i]
    decreases |ops|
  {
    var n := |ops| - 1;
    if i < n {
      assert DistinctIds(ops[..n]);
      RegisteredHolds(table, ops[..n], i);
      assert ops[..n][i] == ops[i];
    }
  }

  /** With distinct fresh IDs, the table grows by exactly the number of operations added. */
  lemma {:induction false} RegisteredSize(table: map<string, Operation>, ops: seq<Operation>)
    requires DistinctIds(ops)
    requires forall i :: 0 <= i < |ops| ==> ops[i].ID !in table
    ensures |Registered(table, ops)| == |table| + |ops|
    decreases |ops|
  {
    if ops != [] {
      var n := |ops| - 1;
      var init := ops[..n];
      assert DistinctIds(init);
      assert forall i :: 0 <= i < n ==> init[i].ID == ops[i].ID;
      RegisteredSize(table, init);
      RegisteredKeys(table, init);
      assert ops[n].ID !in Ids(init);
    }
  }

  /**
    Registering operations with distinct fresh IDs one after the other: every
    call succeeds and the registry becomes the old table with all of them added.
   */
  lemma {:induction false} DistinctPutsAllPass(db: Db, ops: seq<Operation>)
    requires StoredOperations(db).Ok?
    requires DistinctIds(ops)
    requires forall i :: 0 <= i < |ops| ==> ops[i].ID !in StoredOperations(db).value
    ensures StoredOperations(PutInOrder(db, ops)) == Ok(Registered(StoredOperations(db).value, ops))
    ensures forall i :: 0 <= i < |ops| ==> PutOperationStep(PutInOrder(db, ops[..i]), ops[i]).outcome == Pass
    decreases |ops|
  {
    if ops == [] {
      return;
    }
    var n := |ops| - 1;
    var init, last := ops[..n], ops[n];
    assert DistinctIds(init);
    assert forall i :: 0 <= i < n ==> init[i] == ops[i];
    DistinctPutsAllPass(db, init);
    assert last.ID !in Registered(StoredOperations(db).value, init) by {
      RegisteredKeys(StoredOperations(db).value, init);
    }
    forall i | 0 <= i < |ops|
      ensures PutOperationStep(PutInOrder(db, ops[..i]), ops[i]).outcome == Pass
    {
      if i < n {
        assert ops[..i] == init[..i];
      } else {
        assert ops[..i] == init;
      }
    }
  }

  /**
    N registrations with N distinct fresh IDs: the registry ends up with exactly
    N more entries, each operation under its own ID.
   */
  lemma DistinctPutsAllLand(db: Db, ops: seq<Operation>)
    requires StoredOperations(db).Ok?
    requires DistinctIds(ops)
    requires forall i :: 0 <= i < |ops| ==> ops[i].ID !in StoredOperations(db).value
    ensures StoredOperations(PutInOrder(db, ops)).Ok?
    ensures |StoredOperations(PutInOrder(db, ops)).value| == |StoredOperations(db).value| + |ops|
    ensures forall i :: 0 <= i < |ops| ==>
              ops[i].ID in StoredOperations(PutInOrder(db, ops)).value &&
              StoredOperations(PutInOrder(db, ops)).value[ops[i].ID] == ops[i]
  {
    var table := StoredOperations(db).value;
    DistinctPutsAllPass(db, ops);
    var after := Registered(table, ops);
    assert StoredOperations(PutInOrder(db, ops)) == Ok(after);
    RegisteredSize(table, ops);
    forall i | 0 <= i < |ops| ensures ops[i].ID in after && after[ops[i].ID] == ops[i] {
      RegisteredHolds(table, ops, i);
    }
  }

  // ---------------------------------------------------------------------------
  // The store object

  class LevelDBState {
    /** The key-value engine opened at the store's path. */
    var db: Db

    ghost predicate Valid()
      reads this
    {
      WellFormed(db)
    }

    /** Opens the store over what the engine holds and seeds an empty registry if there is none. */
    constructor (disk: Db)
      requires WellFormed(disk)
      ensures Valid()
      ensures db == InitKeyStep(disk, OperationsKey, Ops(map[]))
    {
      db := disk;
      new;
      InitKey(OperationsKey, Ops(map[]));
      InitPreservesWellFormed(disk);
    }

    /**
      Writes `data` under `key` only when the engine has nothing there. Its only
      caller is the constructor, which re-establishes `Valid()` afterwards.
     */
    method InitKey(key: string, data: Slot)
      modifies this
      ensures db == InitKeyStep(old(db), key, data)
    {
      if key !in db {
        db := db[key := data];
      }
    }

    method SaveOffset(offset: uint64)
      requires Valid()
      modifies this
      ensures Valid()
      ensures db == SaveOffsetStep(old(db), offset)
    {
      var bz := new byte[8];
      PutUint64(bz, offset);
      assert bz[..] == bz[..8];
      db := db[OffsetKey := Bytes(bz[..])];
    }

    method LoadOffset() returns (r: Result<uint64>)
      requires Valid()
      ensures r == StoredOffset(db)
    {
      if OffsetKey !in db {
        return Err(KeyNotFound(OffsetKey));
      }
      var bz := db[OffsetKey].data;
      r := Ok(Uint64(bz));
    }

    /** Snapshotting the state machine is not implemented: it succeeds and stores nothing. */
    method SaveFSM(fsm: seq<byte>) returns (res: Outcome)
      ensures res == Pass
    {
      res := Pass;
    }

    /** Loading the state machine is not implemented: it succeeds with no snapshot. */
    method LoadFSM() returns (fsm: Option<seq<byte>>, res: Outcome)
      ensures fsm == None && res == Pass
    {
      fsm, res := None, Pass;
    }

    method PutOperation(op: Operation) returns (res: Outcome)
      requires Valid()
      modifies this
      ensures Valid()
      ensures Update(res, db) == PutOperationStep(old(db), op)
    {
      var loaded := GetOperations();
      if loaded.Err? {
        return Fail(loaded.error);
      }
      var operations := loaded.value;
      if op.ID in operations {
        return Fail(AlreadyExists(op.ID));
      }
      operations := operations[op.ID := op];
      db := db[OperationsKey := Ops(operations)];
      res := Pass;
      PutPreservesWellFormed(old(db), op);
    }

    method DeleteOperation(id: string) returns (res: Outcome)
      requires Valid()
      modifies this
      ensures Valid()
      ensures Update(res, db) == DeleteOperationStep(old(db), id)
    {
      var loaded := GetOperations();
      if loaded.Err? {
        return Fail(loaded.error);
      }
      var operations := loaded.value;
      operations := operations - {id};
      db := db[OperationsKey := Ops(operations)];
      res := Pass;
      DeletePreservesWellFormed(old(db), id);
    }

    /** A copy of the whole registry. */
    method GetOperations() returns (r: Result<map<string, Operation>>)
      ensures r == StoredOperations(db)
    {
      if OperationsKey !in db {
        return Err(KeyNotFound(OperationsKey));
      }
      match db[OperationsKey]
      case Ops(table) => r := Ok(table);
      case Bytes(_) => r := Err(Undecodable(OperationsKey));
    }

    method GetOperationByID(id: string) returns (r: Result<Operation>)
      requires Valid()
      ensures r == OperationByID(db, id)
      ensures r.Ok? ==> r.value.ID == id
    {
      var loaded := GetOperations();
      if loaded.Err? {
        return Err(loaded.error);
      }
      var operations := loaded.value;
      if id !in operations {
        return Err(OperationNotFound);
      }
      r := Ok(operations[id]);
    }
  }
}
