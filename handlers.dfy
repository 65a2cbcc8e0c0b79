/**
 * What a handler produces: the response it writes and the calls it makes to
 * its collaborators (the store and the token signer), in order. JSON
 * rendering is not modelled; a body is kept as the value that is rendered.
 */
module Handlers {
  import opened Wrappers
  import opened Models
  import Dto

  /** `{"status":"error","detail":…}`, or the success payloads of the handlers. */
  datatype Body =
    | ErrorBody(detail: string)
    | CreatedBody(message: string, id: int)
    | VaultBody(model: SecretModel)
    | TokenBody(token: string)

  datatype Response = Response(status: int, body: Body)

  /** A call a handler makes to the store or to the token signer. */
  datatype Call =
    | CreateVaultCall(model: Dto.SecretCreateDTO)
    | GetVaultCall(id: int)
    | CheckVaultCall(id: int)
    | CreateTokenCall(vaultId: int, expires: int)

  /** The store error text the handlers compare against. */
  const ErrNotFound := "vault not found"

  function ErrorResponse(status: int, detail: string): Response
  {
    Response(status, ErrorBody(detail))
  }

  /** A store error becomes 404 when its text is exactly "vault not found", and 500 otherwise. */
  function StoreErrorStatus(err: string): (status: int)
    ensures status == 404 <==> err == ErrNotFound
    ensures status == 500 <==> err != ErrNotFound
  {
    if err == ErrNotFound then 404 else 500
  }

  /**
   * The response a read handler writes for what the store returned: the
   * error classified by StoreErrorStatus, or 200 with the model.
   */
  function StoreResponse(result: (SecretModel, Option<string>)): Response
  {
    if result.1.Some? then ErrorResponse(StoreErrorStatus(result.1.value), result.1.value)
    else Response(200, VaultBody(result.0))
  }
}
