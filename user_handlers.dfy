/**
 * The user API (behind the user gate): read the one vault the token is bound
 * to. The vault id comes only from the request context the gate filled in.
 */
module UserHandlers {
  import opened Wrappers
  import opened Models
  import opened Handlers
  import Auth

  const InternalError := "internal server error"

  /** GET /get. `getVault` is what the store returns for an id. */
  method GetVault(ctx: Auth.Context, getVault: int -> (SecretModel, Option<string>))
    returns (resp: Response, calls: seq<Call>)
    ensures (Auth.VaultIdKey !in ctx || !ctx[Auth.VaultIdKey].IntValue?) ==>
      resp == ErrorResponse(500, InternalError) && calls == []
    ensures Auth.VaultIdKey in ctx && ctx[Auth.VaultIdKey].IntValue? ==>
      && calls == [GetVaultCall(ctx[Auth.VaultIdKey].n)]
      && resp == StoreResponse(getVault(ctx[Auth.VaultIdKey].n))
  {
    if Auth.VaultIdKey !in ctx || !ctx[Auth.VaultIdKey].IntValue? {
      return ErrorResponse(500, InternalError), [];
    }
    var id := ctx[Auth.VaultIdKey].n;
    calls := [GetVaultCall(id)];
    var (vault, err) := getVault(id);
    if err.Some? {
      if err.value == ErrNotFound {
        return ErrorResponse(404, err.value), calls;
      }
      return ErrorResponse(500, err.value), calls;
    }
    resp := Response(200, VaultBody(vault));
  }

  /** The error responses a gate wrote, in order. */
  function Written(effects: seq<Auth.GateEffect>): seq<Response>
  {
    if effects == [] then []
    else
      (match effects[0]
       case WriteError(status, detail) => [ErrorResponse(status, detail)]
       case CallNext(_) => []) + Written(effects[1..])
  }

  /**
   * The user route: the gate, then the handler if the gate hands the request
   * on. Everything written to the response is listed, in order.
   */
  method ServeGet(header: string, verify: string -> Option<int>, ctx: Auth.Context, getVault: int -> (SecretModel, Option<string>))
    returns (written: seq<Response>, calls: seq<Call>)
    ensures Auth.DeriveToken(header) == "" ==>
      written == [ErrorResponse(401, Auth.Unauthorized)] && calls == []
    ensures Auth.DeriveToken(header) != "" && verify(Auth.DeriveToken(header)).Some? ==>
      var id := verify(Auth.DeriveToken(header)).value;
      calls == [GetVaultCall(id)] && written == [StoreResponse(getVault(id))]
    ensures Auth.DeriveToken(header) != "" && verify(Auth.DeriveToken(header)).None? ==>
      && calls == [GetVaultCall(0)]
      && written == [ErrorResponse(401, Auth.Unauthorized), StoreResponse(getVault(0))]
  {
    var token := Auth.DeriveToken(header);
    var effects := Auth.UserAuth(header, verify, ctx);
    var denied := Auth.WriteError(401, Auth.Unauthorized);
    if token == "" {
      assert effects == [denied];
      assert Written(effects) == [ErrorResponse(401, Auth.Unauthorized)] + Written([]);
    } else if verify(token).Some? {
      assert effects == [effects[0]] && effects[0].CallNext?;
      assert Written(effects) == [] + Written([]);
    } else {
      assert effects == [denied, effects[1]] && effects[1].CallNext?;
      assert effects[1..] == [effects[1]] && effects[1..][1..] == [];
      assert Written(effects) == [ErrorResponse(401, Auth.Unauthorized)] + ([] + Written([]));
    }
    written := Written(effects);
    calls := [];
    if Auth.CallsNext(effects) {
      var resp;
      resp, calls := GetVault(effects[|effects| - 1].ctx, getVault);
      written := written + [resp];
    }
  }

  /** The user route behind the corrected gate: a token that does not decode reaches no handler. */
  method ServeGetReturning(header: string, verify: string -> Option<int>, ctx: Auth.Context, getVault: int -> (SecretModel, Option<string>))
    returns (written: seq<Response>, calls: seq<Call>)
    ensures (Auth.DeriveToken(header) == "" || verify(Auth.DeriveToken(header)).None?) ==>
      written == [ErrorResponse(401, Auth.Unauthorized)] && calls == []
    ensures Auth.DeriveToken(header) != "" && verify(Auth.DeriveToken(header)).Some? ==>
      var id := verify(Auth.DeriveToken(header)).value;
      calls == [GetVaultCall(id)] && written == [StoreResponse(getVault(id))]
  {
    var effects := Auth.UserAuthReturning(header, verify, ctx);
    assert Written(effects) == (if Auth.CallsNext(effects) then [] else [ErrorResponse(401, Auth.Unauthorized)]) + Written([]);
    written := Written(effects);
    calls := [];
    if Auth.CallsNext(effects) {
      var resp;
      resp, calls := GetVault(effects[|effects| - 1].ctx, getVault);
      written := written + [resp];
    }
  }
}
