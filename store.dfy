/**
 * The vault store: two committed tables, `vault` (id -> name) and `value`
 * (vault_id, key, value rows), reached only through transactions. Every step
 * the database can fail at is an explicit outcome given by the caller, so
 * that each failure path can be followed.
 */
module Store {
  import opened Wrappers
  import opened Models
  import Dto

  const BeginFailed := "failed to begin transaction"
  const VaultInsertFailed := "failed to create new vault"
  const ValueInsertFailed := "failed to insert values to database"
  const NotFound := "vault not found"
  const LookupFailed := "failed to get vault"
  const ValuesNoData := "failed to get vault values"
  const ValuesNotFound := "vault values not found"

  /** A row of the `value` table. */
  datatype ValueRow = ValueRow(vaultId: int, key: string, value: string)

  /**
   * Outcomes of the steps of CreateVault: whether Begin fails, whether the
   * header insert fails, which value inserts fail (by position), and the
   * error Commit returns, if any.
   */
  datatype CreateFaults = CreateFaults(
    beginFails: bool,
    vaultInsertFails: bool,
    valueInsertFails: nat -> bool,
    commitError: Option<string>)

  /**
   * How the values query can fail: a server error reported by the driver,
   * with its severity, message and five-character SQLSTATE code, or any other
   * error (connection, context, ...).
   */
  datatype QueryFault = PgError(severity: string, message: string, code: string) | OtherQueryError

  /** The text of a server error: "SEVERITY: message (SQLSTATE code)". */
  function PgErrorText(severity: string, message: string, code: string): string
  {
    severity + ": " + message + " (SQLSTATE " + code + ")"
  }

  /** The two SQLSTATE codes of class 02, "no data". */
  predicate IsNoData(code: string)
  {
    code == "02000" || code == "02001"
  }

  /**
   * The message for a failed values query, as written: the no-data test is
   * applied to the error's whole text rather than to its code.
   */
  function ValuesQueryError(f: QueryFault): string
  {
    if f.PgError? && IsNoData(PgErrorText(f.severity, f.message, f.code)) then ValuesNoData
    else ValuesNotFound
  }

  /** The message for a failed values query when the no-data test is applied to the code. */
  function ValuesQueryErrorByCode(f: QueryFault): string
  {
    if f.PgError? && IsNoData(f.code) then ValuesNoData
    else ValuesNotFound
  }

  /**
   * Outcomes of the steps of GetVault and CheckVault: Begin, the header lookup
   * (a failure other than "no rows"), the values query, the scan of the n-th
   * row, and the position at which row iteration reports an error.
   */
  datatype ReadFaults = ReadFaults(
    beginFails: bool,
    lookupFails: bool,
    queryFault: Option<QueryFault>,
    scanError: nat -> Option<string>,
    iterationError: Option<nat>)

  const NoReadFaults := ReadFaults(false, false, None, (_: nat) => None, None)

  /** The value rows CreateVault inserts for vault `id`, in entry order. */
  function Rows(id: int, data: seq<ValueDTO>): seq<ValueRow>
  {
    seq(|data|, i requires 0 <= i < |data| => ValueRow(id, data[i].key, data[i].value))
  }

  /** `SELECT key, value FROM value WHERE vault_id = id`, in storage order. */
  function RowsFor(rows: seq<ValueRow>, id: int): seq<ValueDTO>
  {
    if rows == [] then []
    else
      var last := rows[|rows| - 1];
      RowsFor(rows[..|rows| - 1], id) + (if last.vaultId == id then [ValueDTO(last.key, last.value)] else [])
  }

  /** How reading the result rows ends. */
  datatype IterOutcome = AllRowsRead | ScanFailed(message: string) | IterationFailed

  /** Reading `n` rows from position `i`: Next() may report an error, or Scan may fail on a row. */
  function Iterate(n: nat, f: ReadFaults, i: nat): IterOutcome
    requires i <= n
    decreases n - i
  {
    if f.iterationError == Some(i) then IterationFailed
    else if i == n then AllRowsRead
    else if f.scanError(i).Some? then ScanFailed(f.scanError(i).value)
    else Iterate(n, f, i + 1)
  }

  /** The first `n` value inserts succeed. */
  ghost predicate InsertsSucceed(f: CreateFaults, n: nat)
  {
    forall i :: 0 <= i < n ==> !f.valueInsertFails(i)
  }

  /** Every value row belongs to an existing vault. */
  ghost predicate RowsReference(values: seq<ValueRow>, vaults: map<int, string>)
  {
    forall i :: 0 <= i < |values| ==> values[i].vaultId in vaults
  }

  class VaultStore {
    /** Committed `vault` rows. */
    var vaults: map<int, string>
    /** Committed `value` rows, in insertion order. */
    var values: seq<ValueRow>
    /** The id sequence: the id the next header insert is given. */
    var nextId: int

    /** Ids are positive and below the sequence; every value row has its vault. */
    ghost predicate Valid()
      reads this
    {
      && 0 < nextId
      && (forall id :: id in vaults ==> 0 < id < nextId)
      && RowsReference(values, vaults)
    }

    constructor ()
      ensures Valid() && vaults == map[] && values == []
    {
      vaults := map[];
      values := [];
      nextId := 1;
    }

    /**
     * Begin, insert the header, insert one row per entry, commit. The
     * transaction works on copies of the committed tables; a failed step
     * rolls back by discarding them. The id sequence is not transactional:
     * an id handed out by a header insert is not reused.
     */
    method CreateVault(model: Dto.SecretCreateDTO, faults: CreateFaults) returns (id: int, err: Option<string>)
      requires Valid()
      modifies this
      ensures Valid() && nextId >= old(nextId)
      ensures faults.beginFails ==> id == 0 && err == Some(BeginFailed)
      ensures !faults.beginFails && faults.vaultInsertFails ==> id == 0 && err == Some(VaultInsertFailed)
      ensures !faults.beginFails && !faults.vaultInsertFails && !InsertsSucceed(faults, |model.data|) ==>
        id == 0 && err == Some(ValueInsertFailed)
      ensures !faults.beginFails && !faults.vaultInsertFails && InsertsSucceed(faults, |model.data|) ==>
        id == old(nextId) && id !in old(vaults) && err == faults.commitError
      ensures err != None ==> vaults == old(vaults) && values == old(values)
      ensures err == None ==>
        vaults == old(vaults)[id := model.name] && values == old(values) + Rows(id, model.data)
    {
      if faults.beginFails {
        return 0, Some(BeginFailed);
      }
      var txVaults, txValues := vaults, values;
      if faults.vaultInsertFails {
        return 0, Some(VaultInsertFailed);
      }
      id := nextId;
      nextId := nextId + 1;
      txVaults := txVaults[id := model.name];

      var rows := new ValueRow[|model.data|];
      for i := 0 to |model.data|
        modifies rows
        invariant forall j :: 0 <= j < i ==> rows[j] == ValueRow(id, model.data[j].key, model.data[j].value)
      {
        rows[i] := ValueRow(id, model.data[i].key, model.data[i].value);
      }
      assert rows[..] == Rows(id, model.data);

      for i := 0 to rows.Length
        invariant txValues == values + rows[..i]
        invariant InsertsSucceed(faults, i)
      {
        if faults.valueInsertFails(i) {
          return 0, Some(ValueInsertFailed);
        }
        assert rows[..i + 1] == rows[..i] + [rows[i]];
        txValues := txValues + [rows[i]];
      }
      assert rows[..rows.Length] == rows[..];
      if faults.commitError.Some? {
        return id, faults.commitError;
      }
      assert RowsReference(txValues, txVaults) by {
        forall i | 0 <= i < |txValues| ensures txValues[i].vaultId in txVaults {
          if i >= |values| {
            assert txValues[i] == rows[i - |values|];
          }
        }
      }
      vaults, values := txVaults, txValues;
      err := None;
    }

    /** Reads the header, then the entry rows, and folds them into a map. */
    method GetVault(id: int, faults: ReadFaults) returns (m: SecretModel, err: Option<string>)
      ensures faults.beginFails ==> m == EmptyModel && err == Some(BeginFailed)
      ensures !faults.beginFails && faults.lookupFails ==> m == EmptyModel && err == Some(LookupFailed)
      ensures !faults.beginFails && !faults.lookupFails && id !in vaults ==> m == EmptyModel && err == Some(NotFound)
      ensures !faults.beginFails && !faults.lookupFails && id in vaults ==>
        match faults.queryFault
        case Some(q) => m == EmptyModel && err == Some(ValuesQueryError(q)) && err == Some(ValuesNotFound)
        case None =>
          match Iterate(|RowsFor(values, id)|, faults, 0)
          case ScanFailed(msg) => m == EmptyModel && err == Some(msg)
          case IterationFailed => m == EmptyModel && err == None
          case AllRowsRead => m == SecretModel(id, vaults[id], Some(Fold(RowsFor(values, id)))) && err == None
    {
      if faults.beginFails {
        return EmptyModel, Some(BeginFailed);
      }
      if faults.lookupFails {
        return EmptyModel, Some(LookupFailed);
      }
      if id !in vaults {
        return EmptyModel, Some(NotFound);
      }
      var vault := VaultModel(id, vaults[id]);
      if faults.queryFault.Some? {
        NoDataBranchUnreachable(faults.queryFault.value);
        return EmptyModel, Some(ValuesQueryError(faults.queryFault.value));
      }
      // The query succeeded, so the `err` later returned after an iteration error is nil.
      var queryErr: Option<string> := None;
      var rows := RowsFor(values, id);
      var read: seq<ValueDTO> := [];
      var i := 0;
      while faults.iterationError != Some(i) && i < |rows|
        invariant 0 <= i <= |rows|
        invariant read == rows[..i]
        invariant Iterate(|rows|, faults, 0) == Iterate(|rows|, faults, i)
      {
        if faults.scanError(i).Some? {
          return EmptyModel, faults.scanError(i);
        }
        read := read + [rows[i]];
        i := i + 1;
      }
      if faults.iterationError == Some(i) {
        return EmptyModel, queryErr;
      }
      assert read == rows;
      m := ConvertDTOToSecretModel(vault, read);
      err := None;
    }

    /** The header lookup of GetVault alone. */
    method CheckVault(id: int, faults: ReadFaults) returns (err: Option<string>)
      ensures err == Some(BeginFailed) <==> faults.beginFails
      ensures err == Some(LookupFailed) <==> !faults.beginFails && faults.lookupFails
      ensures err == Some(NotFound) <==> !faults.beginFails && !faults.lookupFails && id !in vaults
      ensures err == None <==> !faults.beginFails && !faults.lookupFails && id in vaults
    {
      if faults.beginFails {
        return Some(BeginFailed);
      }
      if faults.lookupFails {
        return Some(LookupFailed);
      }
      if id !in vaults {
        return Some(NotFound);
      }
      return None;
    }
  }

  /** A server error's text is never a bare code, so a failed values query is always "vault values not found". */
  lemma NoDataBranchUnreachable(f: QueryFault)
    ensures ValuesQueryError(f) == ValuesNotFound
  {
    if f.PgError? {
      var text := PgErrorText(f.severity, f.message, f.code);
      assert |text| >= |" (SQLSTATE "| > 5;
    }
  }

  /** A "no data" server error, which the query's error handling reports as "vault values not found". */
  lemma NoDataErrorMisreported()
    ensures ValuesQueryError(PgError("ERROR", "no data", "02000")) == ValuesNotFound
    ensures ValuesQueryErrorByCode(PgError("ERROR", "no data", "02000")) == ValuesNoData
  {
    NoDataBranchUnreachable(PgError("ERROR", "no data", "02000"));
  }

  /** Testing the code tells the two failures apart: "no data" exactly for a class-02 server error. */
  lemma ValuesQueryErrorByCodeIff(f: QueryFault)
    ensures ValuesQueryErrorByCode(f) == ValuesNoData <==> f.PgError? && IsNoData(f.code)
    ensures ValuesQueryErrorByCode(f) == ValuesNotFound <==> !(f.PgError? && IsNoData(f.code))
  {
  }

  /** The values query distributes over a concatenation of tables. */
  lemma {:induction false} RowsForConcat(a: seq<ValueRow>, b: seq<ValueRow>, id: int)
    ensures RowsFor(a + b, id) == RowsFor(a, id) + RowsFor(b, id)
    decreases |b|
  {
    if b == [] {
      assert a + b == a;
    } else {
      assert (a + b)[..|a + b| - 1] == a + b[..|b| - 1];
      RowsForConcat(a, b[..|b| - 1], id);
    }
  }

  /** The rows inserted for a vault read back as its entries, in order. */
  lemma {:induction false} RowsForOwnRows(id: int, data: seq<ValueDTO>)
    ensures RowsFor(Rows(id, data), id) == data
    decreases |data|
  {
    if data != [] {
      assert Rows(id, data)[..|data| - 1] == Rows(id, data[..|data| - 1]);
      RowsForOwnRows(id, data[..|data| - 1]);
      assert data == data[..|data| - 1] + [data[|data| - 1]];
    }
  }

  /** Rows inserted for one vault are invisible to the query for another. */
  lemma {:induction false} RowsForOtherRows(id: int, other: int, data: seq<ValueDTO>)
    requires other != id
    ensures RowsFor(Rows(id, data), other) == []
    decreases |data|
  {
    if data != [] {
      assert Rows(id, data)[..|data| - 1] == Rows(id, data[..|data| - 1]);
      RowsForOtherRows(id, other, data[..|data| - 1]);
    }
  }

  /** A table in which no row has vault id `id` yields nothing for it. */
  lemma {:induction false} RowsForAbsent(rows: seq<ValueRow>, id: int)
    requires forall i :: 0 <= i < |rows| ==> rows[i].vaultId != id
    ensures RowsFor(rows, id) == []
    decreases |rows|
  {
    if rows != [] {
      RowsForAbsent(rows[..|rows| - 1], id);
    }
  }

  /**
   * After a committed create, the new vault's query returns exactly the
   * created entries, and every other vault's query is as before.
   */
  lemma ReadAfterCreate(values: seq<ValueRow>, vaults: map<int, string>, id: int, data: seq<ValueDTO>, other: int)
    requires RowsReference(values, vaults) && id !in vaults
    ensures RowsFor(values + Rows(id, data), id) == data
    ensures other != id ==> RowsFor(values + Rows(id, data), other) == RowsFor(values, other)
  {
    RowsForConcat(values, Rows(id, data), id);
    RowsForAbsent(values, id);
    RowsForOwnRows(id, data);
    if other != id {
      RowsForConcat(values, Rows(id, data), other);
      RowsForOtherRows(id, other, data);
    }
  }

  /** Without faults, every row is read. */
  lemma {:induction false} IterateWithoutFaults(n: nat, i: nat)
    requires i <= n
    ensures Iterate(n, NoReadFaults, i) == AllRowsRead
    decreases n - i
  {
    if i < n {
      IterateWithoutFaults(n, i + 1);
    }
  }

  /**
   * A create request as the root handler sends it, followed by a read of the
   * returned id: a committed vault reads back as the request's name and map;
   * a failed create leaves nothing to read under that id.
   */
  method CreateThenGet(store: VaultStore, request: Dto.SecretCreateModel, faults: CreateFaults)
    returns (id: int, createErr: Option<string>, read: SecretModel, readErr: Option<string>)
    requires store.Valid() && request.data.Some?
    modifies store
    ensures store.Valid()
    ensures createErr == None ==> readErr == None && read == SecretModel(id, request.name, request.data)
    ensures createErr != None ==> readErr == Some(NotFound) && read == EmptyModel
  {
    var dto := Dto.ConvertToDTO(request);
    ghost var before := store.values;
    id, createErr := store.CreateVault(dto, faults);
    if createErr == None {
      ReadAfterCreate(before, old(store.vaults), id, dto.data, id);
      IterateWithoutFaults(|dto.data|, 0);
      Dto.FoldListedMap(dto.data, request.data.value);
    }
    read, readErr := store.GetVault(id, NoReadFaults);
  }
}
