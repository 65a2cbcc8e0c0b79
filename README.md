# secret-vault, modelled in Dafny

secret-vault is a small HTTP service that stores named vaults of key/value
secrets in PostgreSQL. A root API, guarded by a fixed root token, creates a
vault, reads any vault by id and issues a signed token bound to one vault. A
user API, guarded by such a token, reads only the vault the token names.

This project models the service's core and proves properties of that model:

- `Text`: Go's `strings.ReplaceAll(s, p, "")` (every leftmost non-overlapping
  occurrence removed) and `strings.Join`.
- `Validator`: the message builder over the list of failed field rules.
- `Retry`: the bounded retry loop `DoWithTries`, as a trace of calls and sleeps.
- `Models`: the record types and the last-wins fold of entries into a map.
- `Dto`: validation of the create and token requests, and the conversion of
  the create request's map into a list of entries.
- `Store`: a `VaultStore` class holding the two committed tables (`vault`,
  `value`) and the id sequence. A transaction works on copies of the tables;
  commit publishes them and rollback drops them. Database failures are a
  fault parameter that names the step that fails.
- `Jwt`: token decoding, with signature checking abstracted as a function.
- `Auth`: the root and user gates, each as the list of effects it has.
- `Handlers`, `RootHandlers`, `UserHandlers`: the HTTP handlers. Each one
  returns the response it writes and the calls it makes to the store and the
  token signer. The collaborators are function parameters.

The model follows the code where the code and the intended design disagree:

- The gates remove `"Bearer "` wherever it occurs in the header, not only as a prefix.
- The user gate does not stop after a token fails to decode (see Findings).
- A failed commit still returns the generated id, along with the commit error.
- A row-iteration error in `GetVault` returns an empty model with a nil error.
  The branch tests `rows.Err()` but returns `err`, the earlier query error, which is nil there.
- A failed values query is always reported as "vault values not found" (see Findings).
  `GetVault` keeps this behaviour; the handlers turn either message into a 500.

## Model

| member | source | states |
|---|---|---|
| Text.RemoveAll | pkg/lib/middleware/auth.go:28 | removing every occurrence of a non-empty pattern never lengthens the text |
| Text.RemoveAllShrinks | internal/models/dto.go:39 | when the pattern occurs, the result is at least one pattern shorter |
| Text.RemoveAllNoOccurrence | pkg/lib/middleware/auth.go:28 | text without the pattern is returned unchanged |
| Text.RemoveAllUnchangedIff | pkg/lib/middleware/auth.go:28 | the text is unchanged exactly when the pattern does not occur in it |
| Text.RemoveAllLeading | pkg/lib/middleware/auth.go:52 | a leading occurrence is removed and the rest is processed as if it stood alone |
| Text.RemoveAllFirstOccurrence | pkg/lib/middleware/auth.go:52 | text before the first occurrence is kept, the occurrence is dropped, and removal continues after it |
| Text.RemoveSpacesEmptyIff | internal/models/dto.go:39 | removing all spaces leaves nothing exactly when every character is a space |
| Text.Join | pkg/validator/validator.go:31 | joining nothing gives the empty string; otherwise the first part begins the result |
| Text.JoinConcat | pkg/validator/validator.go:31 | joining two non-empty lists is joining each and putting the separator between them |
| Validator.Validate | pkg/validator/validator.go:11-33 | the message is each failed rule's sentence ("is a required" for `required`, "is not valid" for any other tag), in order, joined by ", "; it is empty exactly when no rule failed |
| Validator.ValidationMessageConcat | pkg/validator/validator.go:23-31 | the message for two groups of failures is the two messages joined by ", " |
| Validator.ValidationMessageSingle | pkg/validator/validator.go:24-28 | one failure gives one sentence, chosen by its tag |
| Retry.DoWithTries | pkg/utils/repeateble.go:8-25 | zero attempts is refused without calling; calls alternate with sleeps after failures; success iff some call within the attempts succeeds, and then it stops at the first success; otherwise it made exactly `attempts` calls and wraps the last error (nil when attempts is negative) |
| Models.ConvertDTOToSecretModel | internal/models/models.go:26-35 | keeps the vault's id and name and folds the entries into a non-nil map |
| Models.FoldKeys | internal/models/models.go:28-30 | the folded map's keys are exactly the entries' keys |
| Models.FoldLastWins | internal/models/models.go:28-30 | a key is bound to the value of its last entry |
| Models.FoldDuplicateKey | internal/models/models.go:28-30 | of two entries with the same key, the later one wins |
| Dto.ValidateSecretCreate | internal/models/dto.go:34-44 | the verdict is the validator message for a missing name or nil map, else the blank-entry error if any key or value is all spaces, else none, whatever order the map is visited in |
| Dto.ValidateVaultToken | internal/models/dto.go:63-68 | accepted iff vault id and expires are both non-zero; otherwise the prefixed validator message for the zero fields |
| Dto.ConvertToDTO | internal/models/dto.go:46-61 | keeps the name and lists every map binding exactly once, with no other entries; a nil map gives an empty list |
| Dto.FoldListedMap | internal/models/dto.go:46-61 | folding a listing of a map gives that map back, so the read-time fold undoes the conversion |
| Dto.BlankIffSpaces | internal/models/dto.go:39 | a key or value is blank exactly when it is made only of ASCII spaces |
| Dto.TabIsNotBlank | internal/models/dto.go:39 | a tab is not stripped, so a tab-only key passes |
| Dto.CreateModelAcceptedIff | internal/models/dto.go:34-44 | a create request passes exactly when the name is non-empty, the map is present and no key or value is blank |
| Dto.RequiredFieldsFirst | internal/models/dto.go:35-37 | while a required field is missing, only the validator message is reported |
| Dto.MissingNameMessage | internal/root/handlers_test.go:40 | an empty name gives "validation error: field name is a required", whatever the map |
| Dto.MissingDataMessage | internal/root/handlers_test.go:46 | a nil map with a name gives "validation error: field data is a required" |
| Dto.BothMissingMessage | internal/models/dto.go:35-37 | with both fields missing, both sentences are reported, name first |
| Dto.BlankEntryRejected | internal/root/handlers_test.go:58 | one blank key or value rejects a request that has a name, whatever the other entries |
| Store.VaultStore.CreateVault | internal/db/postgresql.go:27-81 | a failed begin, header insert or row insert returns id 0 and its message and changes no table; a commit returns the sequence's next id with the commit error; on success the vault and exactly its rows are added and nothing else changes |
| Store.VaultStore.GetVault | internal/db/postgresql.go:83-148 | begin/lookup/scan failures give an empty model and their messages; a failed values query gives "vault values not found" whatever the error; an unknown id gives "vault not found"; an iteration error gives an empty model with no error; otherwise the vault's name and the fold of its rows |
| Store.VaultStore.CheckVault | internal/db/postgresql.go:150-178 | none exactly when the vault exists and no step fails; "vault not found" exactly for an unknown id |
| Store.NoDataBranchUnreachable | internal/db/postgresql.go:118-125 | as written, no query error is reported as "failed to get vault values": the no-data test sees the error's full text, which is never a bare SQLSTATE code |
| Store.NoDataErrorMisreported | internal/db/postgresql.go:120-125 | a class-02 "no data" server error is reported as "vault values not found" as written, and as "failed to get vault values" when its code is tested |
| Store.ValuesQueryErrorByCodeIff | internal/db/postgresql.go:120-125 | corrected classification: "failed to get vault values" exactly for a server error whose code is 02000 or 02001, "vault values not found" for every other error |
| Store.RowsForConcat | internal/db/postgresql.go:111-118 | the values query over two tables is the two answers concatenated |
| Store.RowsForOwnRows | internal/db/postgresql.go:63-77 | the rows inserted for a vault read back as its entries, in order |
| Store.RowsForOtherRows | internal/db/postgresql.go:111-118 | rows inserted for one vault are not returned for another |
| Store.RowsForAbsent | internal/db/postgresql.go:111-118 | a vault with no rows reads back no entries |
| Store.ReadAfterCreate | internal/db/postgresql.go:63-77 | after a create, the new vault's query returns exactly its entries and every other vault's is unchanged |
| Store.IterateWithoutFaults | internal/db/postgresql.go:130-144 | with no scan or iteration fault, every row is read |
| Store.CreateThenGet | internal/root/handlers.go:74 | a committed create reads back as the request's name and map under the returned id; a failed create leaves "vault not found" there |
| Jwt.DecodeToken | pkg/lib/jwt/jwt.go:26-37 | decoding succeeds exactly when the token verifies, and gives its vault id; a failure gives id 0 |
| Auth.RootAuth | pkg/lib/middleware/auth.go:15-37 | the request is handed on, unchanged, exactly when the header minus every "Bearer " equals the root token; otherwise only a 401 is written |
| Auth.RootAcceptsBearerHeader | pkg/lib/middleware/auth.go:28-33 | "Bearer " + root token passes exactly when the root token does not itself contain "Bearer " |
| Auth.RootComparesBareHeader | pkg/lib/middleware/auth.go:28-33 | a header without "Bearer " passes exactly when it equals the root token |
| Auth.DeriveTokenRemovesInner | pkg/lib/middleware/auth.go:52 | an inner "Bearer " is removed as well, keeping the text before it |
| Auth.DeriveTokenNotIdempotent | pkg/lib/middleware/auth.go:52 | removal can join text into a new "Bearer ", which then stays in the token |
| Auth.UserAuth | pkg/lib/middleware/auth.go:39-74 | the request goes on exactly when the token is non-empty, with the context's vault id set to the decoded id |
| Auth.UserAuthDecodedScope | pkg/lib/middleware/auth.go:59-71 | a token that decodes hands the request on with exactly its own vault id and writes nothing |
| Auth.UserAuthFallsThrough | pkg/lib/middleware/auth.go:62-71 | a token that fails to decode writes a 401 and still hands the request on with vault id 0 |
| Auth.UserAuthReturning | pkg/lib/middleware/auth.go:39-74 | corrected gate: goes on exactly when the token is non-empty and decodes, with its id; otherwise only a 401 |
| Auth.UserAuthReturningAgrees | pkg/lib/middleware/auth.go:62-65 | the corrected gate and the written one agree exactly on tokens that are empty or decode |
| Handlers.StoreErrorStatus | internal/root/handlers.go:111-119 | a store error is a 404 exactly when its text is "vault not found", and a 500 otherwise |
| RootHandlers.CreateVault | internal/root/handlers.go:50-87 | 400 on a decode failure and 422 with the validation verdict, both without touching the store; otherwise the store gets one call with the name and a listing of the map; its error is a 500 and its id a 201 |
| RootHandlers.GetVault | internal/root/handlers.go:89-127 | 400 for an empty or non-integer id, without a store call; otherwise one read of that id, whose error is classified 404/500 and whose model is returned with 200 |
| RootHandlers.CreateVaultToken | internal/root/handlers.go:129-177 | 400/422 without calls; a token is minted only after the vault check succeeds; check errors are 404/500; a signing failure is a 500; otherwise 201 with the token |
| UserHandlers.GetVault | internal/user/handlers.go:41-74 | a missing or non-int vault id in the context is a 500 with no store call; otherwise the store is read with exactly that id and its result classified as in the root read |
| UserHandlers.ServeGet | internal/user/handlers.go:35 | through the gate as written: an empty token gets one 401 and no store call; a decoded token gets exactly the handler's response for a read of its vault id; a token that fails to decode gets a 401 followed by the handler's response for a read of vault 0 |
| UserHandlers.ServeGetReturning | pkg/lib/middleware/auth.go:62-65 | through the corrected gate: an empty or undecodable token gets one 401 and no store call; a decoded token gets exactly the handler's response for a read of its vault id |

## Left out

- HTTP routing, JSON encoding and decoding, and response rendering. A decoded request is an `Option`, and a response body is the value that would be rendered.
- Logging and the handlers' reassignment of their logger on each request. Neither has an observable effect on responses.
- The `recover()` blocks in both gates. The model has no panics.
- `time.Sleep` timing in `DoWithTries`. A sleep is an entry in the trace.
- JWT signing and verification. Verification is a function from token to vault id, and signing is a function that may fail.
- The token's `exp` claim (now plus `expires` seconds, in 64-bit time). The model has no clock.
- `strconv.Atoi`. It is a parse function parameter that may fail.
- The driver's errors. pgx's no-rows error is the id's absence from the `vault` table; any other header-lookup error is the `lookupFails` flag. A server error is kept as its severity, message and SQLSTATE code, and its text is built from them the way pgx builds it.
- Store.VaultStore.CreateVault: a commit error is taken to mean nothing was committed. A driver can report an error after the server has committed, for example when the connection drops during COMMIT. For such errors the model's "no table changed", and the failure half of Store.CreateThenGet, do not hold.
- Vault ids come from the `vault` table's id sequence, which starts at 1 and only grows. The table schema is not part of this model. The failure half of Store.CreateThenGet relies on id 0 never naming a vault.
- Dto.ValidateSecretCreate: go-playground's validator is reduced to the two `required` rules the request types carry. Its own checks beyond non-zero and non-nil are not modelled.
- The order in which the values query returns rows is the storage order. SQL gives no order, and the fold is last-wins, so the order only matters when a vault has duplicate keys.
- Map iteration order is left open. The loops pick any remaining key.
- `SecretCreateModel.Validate` and `CreateVaultTokenDTO.Validate` compare the validator's string result with `nil`; Dto.ValidateSecretCreate and Dto.ValidateVaultToken read this the same way. Following the responses the handler tests expect, the model treats a non-empty message as a failure and does not wrap it in brackets. The model tests also expect a bracketed message, and the model does not follow that.
- Configuration, `main`, migrations, the connection pool and concurrency between requests.

## Findings

| source | as written | input that shows it | evidently intended | confidence | as-written member | corrected member |
|---|---|---|---|---|---|---|
| pkg/lib/middleware/auth.go:62-71 | after a token fails to decode, the user gate writes a 401 but does not return, so the handler still runs with vault id 0 | header "Bearer x", where "x" does not verify | stop after writing the 401, so no store read happens | not executed | Auth.UserAuthFallsThrough | Auth.UserAuthReturning |
| internal/db/postgresql.go:120-125 | a failed values query counts as "no data" only if `pgerrcode.IsNoData(pgErr.Error())` holds, but `Error()` is the whole "SEVERITY: message (SQLSTATE code)" text, never a bare code | a server error with code 02000, reported as "vault values not found" | test `pgErr.Code`, so a class-02 error gives "failed to get vault values" | not executed | Store.NoDataErrorMisreported | Store.ValuesQueryErrorByCodeIff |
