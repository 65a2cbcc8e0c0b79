/**
 * The request shapes of the root API, their validation, and the conversion of
 * a create request's map into the list of entries the store inserts.
 */
module Dto {
  import opened Wrappers
  import Text
  import Validator
  import opened Models

  /** The create request; `data` is None when the body carried no map (Go's nil map). */
  datatype SecretCreateModel = SecretCreateModel(name: string, data: Option<map<string, string>>)

  /** What the store is given: the vault name and one entry per map binding. */
  datatype SecretCreateDTO = SecretCreateDTO(name: string, data: seq<ValueDTO>)

  /** The token request; `expires` is a count of seconds. */
  datatype CreateVaultTokenDTO = CreateVaultTokenDTO(vaultId: int, expires: int)

  const ValidationPrefix := "validation error: "
  const BlankEntryMessage := "key or value length can't be 0"

  /** The `required` rules of SecretCreateModel, in field order: a non-empty name, a non-nil map. */
  function CreateFieldErrors(s: SecretCreateModel): seq<Validator.FieldError>
  {
    (if s.name == "" then [Validator.FieldError(Validator.RequiredTag, "name")] else []) +
    (if s.data.None? then [Validator.FieldError(Validator.RequiredTag, "data")] else [])
  }

  /** The `required` rules of CreateVaultTokenDTO: both integers non-zero. */
  function TokenFieldErrors(c: CreateVaultTokenDTO): seq<Validator.FieldError>
  {
    (if c.vaultId == 0 then [Validator.FieldError(Validator.RequiredTag, "vault_id")] else []) +
    (if c.expires == 0 then [Validator.FieldError(Validator.RequiredTag, "expires")] else [])
  }

  /** A key or value is blank when removing every ASCII space leaves nothing. */
  predicate Blank(x: string)
  {
    Text.RemoveAll(x, " ") == ""
  }

  ghost predicate HasBlankEntry(m: map<string, string>)
  {
    exists k :: k in m && (Blank(k) || Blank(m[k]))
  }

  /** The verdict on a create request: required fields first, then the blank-entry scan. */
  ghost function CreateModelError(s: SecretCreateModel): Option<string>
  {
    var errs := CreateFieldErrors(s);
    if errs != [] then Some(ValidationPrefix + Validator.ValidationMessage(errs))
    else if s.data.Some? && HasBlankEntry(s.data.value) then Some(BlankEntryMessage)
    else None
  }

  /** `SecretCreateModel.Validate`: the blank scan visits the keys in any order. */
  method ValidateSecretCreate(s: SecretCreateModel) returns (err: Option<string>)
    ensures err == CreateModelError(s)
  {
    var msg := Validator.Validate(CreateFieldErrors(s));
    if msg != "" {
      return Some(ValidationPrefix + msg);
    }
    var m := s.data.value;
    var remaining := m.Keys;
    while remaining != {}
      invariant remaining <= m.Keys
      invariant forall k :: k in m && k !in remaining ==> !Blank(k) && !Blank(m[k])
      decreases remaining
    {
      var k :| k in remaining;
      if Blank(k) || Blank(m[k]) {
        return Some(BlankEntryMessage);
      }
      remaining := remaining - {k};
    }
    return None;
  }

  /** `CreateVaultTokenDTO.Validate`. */
  method ValidateVaultToken(c: CreateVaultTokenDTO) returns (err: Option<string>)
    ensures err == None <==> c.vaultId != 0 && c.expires != 0
    ensures err != None ==> err == Some(ValidationPrefix + Validator.ValidationMessage(TokenFieldErrors(c)))
  {
    var msg := Validator.Validate(TokenFieldErrors(c));
    if msg != "" {
      return Some(ValidationPrefix + msg);
    }
    return None;
  }

  /** Ranging over a nil map visits nothing. */
  function MapOrEmpty(d: Option<map<string, string>>): map<string, string>
  {
    if d.None? then map[] else d.value
  }

  /** `entries` lists the bindings of `m`, each once: (k, v) is listed iff m[k] == v. */
  ghost predicate ListsMap(entries: seq<ValueDTO>, m: map<string, string>)
  {
    && (forall i, j :: 0 <= i < j < |entries| ==> entries[i].key != entries[j].key)
    && (forall i :: 0 <= i < |entries| ==> entries[i].key in m && m[entries[i].key] == entries[i].value)
    && (forall k :: k in m ==> exists i :: 0 <= i < |entries| && entries[i].key == k)
  }

  /** `SecretCreateModel.ConvertToDTO`: appends one entry per binding, in map iteration order. */
  method ConvertToDTO(s: SecretCreateModel) returns (d: SecretCreateDTO)
    ensures d.name == s.name
    ensures ListsMap(d.data, MapOrEmpty(s.data))
    ensures |d.data| == |MapOrEmpty(s.data)|
  {
    var m := MapOrEmpty(s.data);
    var data: seq<ValueDTO> := [];
    var remaining := m.Keys;
    while remaining != {}
      invariant remaining <= m.Keys
      invariant |data| + |remaining| == |m.Keys|
      invariant forall i, j :: 0 <= i < j < |data| ==> data[i].key != data[j].key
      invariant forall i :: 0 <= i < |data| ==>
        data[i].key in m && data[i].key !in remaining && m[data[i].key] == data[i].value
      invariant forall k :: k in m && k !in remaining ==> exists i :: 0 <= i < |data| && data[i].key == k
      decreases remaining
    {
      var k :| k in remaining;
      ghost var prev := data;
      data := data + [ValueDTO(k, m[k])];
      remaining := remaining - {k};
      forall k' | k' in m && k' !in remaining ensures exists i :: 0 <= i < |data| && data[i].key == k' {
        if k' == k {
          assert data[|prev|].key == k';
        } else {
          var i :| 0 <= i < |prev| && prev[i].key == k';
          assert data[i] == prev[i];
        }
      }
    }
    d := SecretCreateDTO(s.name, data);
  }

  /** Folding a listing of `m` gives back `m`: the read-time fold undoes ConvertToDTO. */
  lemma FoldListedMap(entries: seq<ValueDTO>, m: map<string, string>)
    requires ListsMap(entries, m)
    ensures Fold(entries) == m
  {
    FoldKeys(entries);
    assert KeysOf(entries) == m.Keys by {
      forall k | k in m ensures k in KeysOf(entries) {
        var i :| 0 <= i < |entries| && entries[i].key == k;
      }
    }
    forall k | k in m ensures Fold(entries)[k] == m[k] {
      var i :| 0 <= i < |entries| && entries[i].key == k;
      FoldLastWins(entries, i);
    }
  }

  /** Blank means made only of ' ' characters. */
  lemma BlankIffSpaces(x: string)
    ensures Blank(x) <==> forall i :: 0 <= i < |x| ==> x[i] == ' '
  {
    Text.RemoveSpacesEmptyIff(x);
  }

  /** Only the ASCII space is stripped: a tab is a non-blank key. */
  lemma TabIsNotBlank()
    ensures !Blank("\t")
  {
    BlankIffSpaces("\t");
  }

  /** A request passes exactly when the name is set, the map is present, and no key or value is blank. */
  lemma CreateModelAcceptedIff(s: SecretCreateModel)
    ensures CreateModelError(s) == None <==>
      s.name != "" && s.data.Some? &&
      forall k :: k in s.data.value ==> !Blank(k) && !Blank(s.data.value[k])
  {
    if s.name == "" || s.data.None? {
      assert CreateFieldErrors(s) != [];
    }
  }

  /** The required fields are checked first: while one is missing, the entries are not looked at. */
  lemma RequiredFieldsFirst(s: SecretCreateModel)
    requires s.name == "" || s.data.None?
    ensures CreateModelError(s) == Some(ValidationPrefix + Validator.ValidationMessage(CreateFieldErrors(s)))
  {
    assert CreateFieldErrors(s) != [];
  }

  /** A missing name is reported by the validator, before any entry is looked at. */
  lemma MissingNameMessage(m: map<string, string>)
    ensures CreateModelError(SecretCreateModel("", Some(m))) ==
      Some(ValidationPrefix + Validator.RequiredMessage("name"))
  {
    var s := SecretCreateModel("", Some(m));
    var n := Validator.FieldError(Validator.RequiredTag, "name");
    assert CreateFieldErrors(s) == [n];
    RequiredFieldsFirst(s);
    Validator.ValidationMessageSingle(n);
  }

  /** A nil map is reported by the validator. */
  lemma MissingDataMessage(name: string)
    requires name != ""
    ensures CreateModelError(SecretCreateModel(name, None)) ==
      Some(ValidationPrefix + Validator.RequiredMessage("data"))
  {
    var s := SecretCreateModel(name, None);
    var d := Validator.FieldError(Validator.RequiredTag, "data");
    assert CreateFieldErrors(s) == [d];
    RequiredFieldsFirst(s);
    Validator.ValidationMessageSingle(d);
  }

  /** With both fields missing, both sentences are reported, name first. */
  lemma BothMissingMessage()
    ensures CreateModelError(SecretCreateModel("", None)) ==
      Some(ValidationPrefix + (Validator.RequiredMessage("name") + ", " + Validator.RequiredMessage("data")))
  {
    var s := SecretCreateModel("", None);
    var n := Validator.FieldError(Validator.RequiredTag, "name");
    var d := Validator.FieldError(Validator.RequiredTag, "data");
    assert CreateFieldErrors(s) == [n] + [d];
    RequiredFieldsFirst(s);
    Validator.ValidationMessageConcat([n], [d]);
    Validator.ValidationMessageSingle(n);
    Validator.ValidationMessageSingle(d);
    var msg := Validator.ValidationMessage([n] + [d]);
    assert msg == Validator.RequiredMessage("name") + ", " + Validator.RequiredMessage("data");
    assert CreateModelError(s) == Some(ValidationPrefix + msg);
  }

  /** Blank keys and values are reported once the required fields are present, whatever the other entries. */
  lemma BlankEntryRejected(name: string, m: map<string, string>, k: string)
    requires name != "" && k in m && (Blank(k) || Blank(m[k]))
    ensures CreateModelError(SecretCreateModel(name, Some(m))) == Some(BlankEntryMessage)
  {
  }
}
