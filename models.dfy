/**
 * The stored shapes of a vault and the read-time fold of entry rows into a
 * key/value map.
 */
module Models {
  import opened Wrappers

  /** One secret entry as read from or written to the `value` table. */
  datatype ValueDTO = ValueDTO(key: string, value: string)

  /** The header row of a vault. */
  datatype VaultModel = VaultModel(id: int, name: string)

  /** A vault with its entries; `data` is None for Go's nil map. */
  datatype SecretModel = SecretModel(id: int, name: string, data: Option<map<string, string>>)

  /** The zero value `SecretModel{}`: id 0, empty name, nil map. */
  const EmptyModel := SecretModel(0, "", None)

  /** The map obtained by writing the entries in order: a later entry overwrites an earlier one. */
  function Fold(entries: seq<ValueDTO>): map<string, string>
  {
    if entries == [] then map[]
    else
      var last := entries[|entries| - 1];
      Fold(entries[..|entries| - 1])[last.key := last.value]
  }

  /** The set of keys that occur in `entries`. */
  function KeysOf(entries: seq<ValueDTO>): set<string>
  {
    set i | 0 <= i < |entries| :: entries[i].key
  }

  /** Fills the map in place, one entry at a time. */
  method ConvertDTOToSecretModel(vault: VaultModel, data: seq<ValueDTO>) returns (m: SecretModel)
    ensures m.id == vault.id && m.name == vault.name
    ensures m.data == Some(Fold(data))
  {
    var modelData: map<string, string> := map[];
    for i := 0 to |data|
      invariant modelData == Fold(data[..i])
    {
      assert data[..i + 1][..i] == data[..i];
      modelData := modelData[data[i].key := data[i].value];
    }
    assert data[..|data|] == data;
    m := SecretModel(vault.id, vault.name, Some(modelData));
  }

  /** The folded map has exactly the keys that occur in the entry list. */
  lemma {:induction false} FoldKeys(entries: seq<ValueDTO>)
    ensures Fold(entries).Keys == KeysOf(entries)
    decreases |entries|
  {
    if entries != [] {
      var init := entries[..|entries| - 1];
      FoldKeys(init);
      assert KeysOf(entries) == KeysOf(init) + {entries[|entries| - 1].key} by {
        forall k | k in KeysOf(entries) ensures k in KeysOf(init) + {entries[|entries| - 1].key} {
          var i :| 0 <= i < |entries| && entries[i].key == k;
          if i < |entries| - 1 { assert init[i] == entries[i]; }
        }
        forall k | k in KeysOf(init) ensures k in KeysOf(entries) {
          var i :| 0 <= i < |init| && init[i].key == k;
          assert entries[i] == init[i];
        }
      }
    }
  }

  /** A key is bound to the value of its last occurrence. */
  lemma {:induction false} FoldLastWins(entries: seq<ValueDTO>, i: nat)
    requires i < |entries|
    requires forall j :: i < j < |entries| ==> entries[j].key != entries[i].key
    ensures entries[i].key in Fold(entries) && Fold(entries)[entries[i].key] == entries[i].value
    decreases |entries|
  {
    if i < |entries| - 1 {
      var init := entries[..|entries| - 1];
      assert init[i] == entries[i];
      FoldLastWins(init, i);
    }
  }

  /** Two entries for one key leave a single binding, to the later value. */
  lemma FoldDuplicateKey(k: string, a: string, b: string)
    ensures Fold([ValueDTO(k, a), ValueDTO(k, b)]) == map[k := b]
  {
    var e := [ValueDTO(k, a), ValueDTO(k, b)];
    assert e[..1] == [ValueDTO(k, a)];
    assert e[..1][..0] == [];
    assert Fold(e[..1]) == map[k := a];
    assert Fold(e) == map[k := a][k := b];
  }
}
