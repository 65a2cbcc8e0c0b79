/**
 * The root API (behind the root gate): create a vault, read a vault by the id
 * in the path, and issue a token for a vault. The store, the path-parameter
 * parse and the token signer are collaborators given as functions; each
 * handler returns its response and the calls it made.
 */
module RootHandlers {
  import opened Wrappers
  import opened Models
  import opened Handlers
  import Dto
  import Validator

  const DecodeFailed := "failed to decode model"
  const CreatedMessage := "new vault successfully created"
  const EmptyIdParam := "query param id is empty"
  const IdNotInt := "query parameter must be int"
  const TokenFailed := "failed to create new token"

  /**
   * POST /create. `request` is the decoded body, None when decoding failed;
   * `createVault` is what the store returns for a given request.
   */
  method CreateVault(request: Option<Dto.SecretCreateModel>, createVault: Dto.SecretCreateDTO -> (int, Option<string>))
    returns (resp: Response, calls: seq<Call>)
    ensures request.None? ==> resp == ErrorResponse(400, DecodeFailed) && calls == []
    ensures request.Some? && Dto.CreateModelError(request.value).Some? ==>
      resp == ErrorResponse(422, Dto.CreateModelError(request.value).value) && calls == []
    ensures request.Some? && Dto.CreateModelError(request.value).None? ==>
      && |calls| == 1 && calls[0].CreateVaultCall?
      && calls[0].model.name == request.value.name
      && Dto.ListsMap(calls[0].model.data, request.value.data.value)
      && var (id, err) := createVault(calls[0].model);
         resp == if err.Some? then ErrorResponse(500, err.value) else Response(201, CreatedBody(CreatedMessage, id))
  {
    if request.None? {
      return ErrorResponse(400, DecodeFailed), [];
    }
    var model := request.value;
    var invalid := Dto.ValidateSecretCreate(model);
    if invalid.Some? {
      return ErrorResponse(422, invalid.value), [];
    }
    var dto := Dto.ConvertToDTO(model);
    calls := [CreateVaultCall(dto)];
    var (id, err) := createVault(dto);
    if err.Some? {
      return ErrorResponse(500, err.value), calls;
    }
    resp := Response(201, CreatedBody(CreatedMessage, id));
  }

  /**
   * GET /get/{id}. `atoi` is `strconv.Atoi` (None when the text is not an
   * int); `getVault` is what the store returns for an id.
   */
  method GetVault(idParam: string, atoi: string -> Option<int>, getVault: int -> (SecretModel, Option<string>))
    returns (resp: Response, calls: seq<Call>)
    ensures idParam == "" ==> resp == ErrorResponse(400, EmptyIdParam) && calls == []
    ensures idParam != "" && atoi(idParam).None? ==> resp == ErrorResponse(400, IdNotInt) && calls == []
    ensures idParam != "" && atoi(idParam).Some? ==>
      && calls == [GetVaultCall(atoi(idParam).value)]
      && resp == StoreResponse(getVault(atoi(idParam).value))
  {
    if idParam == "" {
      return ErrorResponse(400, EmptyIdParam), [];
    }
    var parsed := atoi(idParam);
    if parsed.None? {
      return ErrorResponse(400, IdNotInt), [];
    }
    var id := parsed.value;
    calls := [GetVaultCall(id)];
    var (model, err) := getVault(id);
    if err.Some? {
      if err.value == ErrNotFound {
        return ErrorResponse(404, err.value), calls;
      }
      return ErrorResponse(500, err.value), calls;
    }
    resp := Response(200, VaultBody(model));
  }

  /**
   * POST /create-token. `checkVault` is what the store's existence check
   * returns; `createToken` signs a token for (vault id, expires), None when
   * signing fails.
   */
  method CreateVaultToken(
    request: Option<Dto.CreateVaultTokenDTO>,
    checkVault: int -> Option<string>,
    createToken: (int, int) -> Option<string>)
    returns (resp: Response, calls: seq<Call>)
    ensures request.None? ==> resp == ErrorResponse(400, DecodeFailed) && calls == []
    ensures request.Some? && (request.value.vaultId == 0 || request.value.expires == 0) ==>
      && resp == ErrorResponse(422, Dto.ValidationPrefix + Validator.ValidationMessage(Dto.TokenFieldErrors(request.value)))
      && calls == []
    ensures request.Some? && request.value.vaultId != 0 && request.value.expires != 0 ==>
      var c := request.value;
      match checkVault(c.vaultId)
         case Some(e) => calls == [CheckVaultCall(c.vaultId)] && resp == ErrorResponse(StoreErrorStatus(e), e)
         case None =>
           && calls == [CheckVaultCall(c.vaultId), CreateTokenCall(c.vaultId, c.expires)]
           && resp == match createToken(c.vaultId, c.expires)
                     case None => ErrorResponse(500, TokenFailed)
                     case Some(t) => Response(201, TokenBody(t))
    ensures forall i :: 0 <= i < |calls| && calls[i].CreateTokenCall? ==>
      request.Some? && checkVault(request.value.vaultId) == None
  {
    if request.None? {
      return ErrorResponse(400, DecodeFailed), [];
    }
    var model := request.value;
    var invalid := Dto.ValidateVaultToken(model);
    if invalid.Some? {
      return ErrorResponse(422, invalid.value), [];
    }
    calls := [CheckVaultCall(model.vaultId)];
    var checked := checkVault(model.vaultId);
    if checked.Some? {
      if checked.value == ErrNotFound {
        return ErrorResponse(404, checked.value), calls;
      }
      return ErrorResponse(500, checked.value), calls;
    }
    calls := calls + [CreateTokenCall(model.vaultId, model.expires)];
    var token := createToken(model.vaultId, model.expires);
    if token.None? {
      return ErrorResponse(500, TokenFailed), calls;
    }
    resp := Response(201, TokenBody(token.value));
  }
}
