/**
 * The two authentication gates placed in front of the root and user routes.
 * A gate is described by what it does, in order: write an error response,
 * and/or hand the request, with its context, to the next handler.
 */
module Auth {
  import opened Wrappers
  import Text
  import Jwt

  const BearerPrefix := "Bearer "
  const VaultIdKey := "vaultID"
  const Unauthorized := "unauthorized"

  /** A request-context value: an int, or a value of any other type. */
  datatype ContextValue = IntValue(n: int) | OtherValue
  type Context = map<string, ContextValue>

  datatype GateEffect = WriteError(status: int, detail: string) | CallNext(ctx: Context)

  /** Whether the gate hands the request on; when it does, that is its last effect. */
  predicate CallsNext(effects: seq<GateEffect>)
  {
    effects != [] && effects[|effects| - 1].CallNext?
  }

  /** The token both gates read: the header with every "Bearer " removed, wherever it stands. */
  function DeriveToken(header: string): string
  {
    Text.RemoveAll(header, BearerPrefix)
  }

  /** `RootAuth`: the derived token must equal the configured root token. */
  function RootAuth(header: string, rootToken: string, ctx: Context): (effects: seq<GateEffect>)
    ensures CallsNext(effects) <==> DeriveToken(header) == rootToken
    ensures CallsNext(effects) ==> effects == [CallNext(ctx)]
    ensures !CallsNext(effects) ==> effects == [WriteError(401, Unauthorized)]
  {
    var token := DeriveToken(header);
    if token != rootToken then [WriteError(401, Unauthorized)]
    else [CallNext(ctx)]
  }

  /**
   * `UserAuth` as written: an empty token is refused, but a token that fails
   * to decode only gets a 401 written; the request still goes on, with the
   * id 0 that the decoder returns on failure.
   */
  function UserAuth(header: string, verify: string -> Option<int>, ctx: Context): (effects: seq<GateEffect>)
    ensures CallsNext(effects) <==> DeriveToken(header) != ""
    ensures CallsNext(effects) ==>
      effects[|effects| - 1].ctx == ctx[VaultIdKey := IntValue(Jwt.DecodeToken(DeriveToken(header), verify).id)]
  {
    var token := DeriveToken(header);
    if token == "" then [WriteError(401, Unauthorized)]
    else
      var d := Jwt.DecodeToken(token, verify);
      (if d.ok then [] else [WriteError(401, Unauthorized)]) + [CallNext(ctx[VaultIdKey := IntValue(d.id)])]
  }

  /** `UserAuth` with the evident `return` after the decode failure. */
  function UserAuthReturning(header: string, verify: string -> Option<int>, ctx: Context): (effects: seq<GateEffect>)
    ensures CallsNext(effects) <==> DeriveToken(header) != "" && verify(DeriveToken(header)).Some?
    ensures CallsNext(effects) ==>
      effects == [CallNext(ctx[VaultIdKey := IntValue(verify(DeriveToken(header)).value)])]
    ensures !CallsNext(effects) ==> effects == [WriteError(401, Unauthorized)]
  {
    var token := DeriveToken(header);
    if token == "" then [WriteError(401, Unauthorized)]
    else
      var d := Jwt.DecodeToken(token, verify);
      if !d.ok then [WriteError(401, Unauthorized)]
      else [CallNext(ctx[VaultIdKey := IntValue(d.id)])]
  }

  /** "Bearer " + rootToken passes the root gate exactly when rootToken has no "Bearer " inside. */
  lemma RootAcceptsBearerHeader(rootToken: string, ctx: Context)
    ensures RootAuth(BearerPrefix + rootToken, rootToken, ctx) == [CallNext(ctx)] <==>
      !Text.Contains(rootToken, BearerPrefix)
  {
    Text.RemoveAllLeading(BearerPrefix, rootToken);
    Text.RemoveAllUnchangedIff(rootToken, BearerPrefix);
  }

  /** A header with no "Bearer " in it is compared as it is. */
  lemma RootComparesBareHeader(header: string, rootToken: string, ctx: Context)
    requires !Text.Contains(header, BearerPrefix)
    ensures RootAuth(header, rootToken, ctx) == [CallNext(ctx)] <==> header == rootToken
  {
    Text.RemoveAllUnchangedIff(header, BearerPrefix);
  }

  /** Every occurrence is removed, not only a leading one: text before the first one is kept. */
  lemma DeriveTokenRemovesInner(a: string, b: string)
    requires forall i :: 0 <= i < |a| ==> !Text.OccursAt(a + BearerPrefix + b, BearerPrefix, i)
    ensures DeriveToken(a + BearerPrefix + b) == a + DeriveToken(b)
  {
    Text.RemoveAllFirstOccurrence(a, BearerPrefix, b);
  }

  /** Removal can join the pieces around a removed "Bearer " into a new one, which stays. */
  lemma DeriveTokenNotIdempotent()
    ensures DeriveToken("BBearer earer ") == "Bearer "
    ensures DeriveToken(DeriveToken("BBearer earer ")) == ""
  {
    assert "BBearer earer " == "B" + BearerPrefix + "earer ";
    assert "BBearer earer "[1] != BearerPrefix[1];
    assert !Text.OccursAt("BBearer earer ", BearerPrefix, 0);
    DeriveTokenRemovesInner("B", "earer ");
    assert DeriveToken("earer ") == "earer ";
    assert "B" + "earer " == BearerPrefix;
    Text.RemoveAllLeading(BearerPrefix, "");
    assert BearerPrefix + "" == BearerPrefix;
  }

  /** A token that decodes hands the request on, bound to the decoded id only. */
  lemma UserAuthDecodedScope(header: string, verify: string -> Option<int>, ctx: Context, id: int)
    requires DeriveToken(header) != "" && verify(DeriveToken(header)) == Some(id)
    ensures UserAuth(header, verify, ctx) == [CallNext(ctx[VaultIdKey := IntValue(id)])]
  {
  }

  /** As written, a token that fails to decode still reaches the handler, with vault id 0. */
  lemma UserAuthFallsThrough(header: string, verify: string -> Option<int>, ctx: Context)
    requires DeriveToken(header) != "" && verify(DeriveToken(header)) == None
    ensures UserAuth(header, verify, ctx) ==
      [WriteError(401, Unauthorized), CallNext(ctx[VaultIdKey := IntValue(0)])]
  {
  }

  /** The corrected gate differs from the written one only on tokens that fail to decode. */
  lemma UserAuthReturningAgrees(header: string, verify: string -> Option<int>, ctx: Context)
    ensures UserAuthReturning(header, verify, ctx) == UserAuth(header, verify, ctx) <==>
      DeriveToken(header) == "" || verify(DeriveToken(header)).Some?
  {
  }
}
