# Product manager: a Dafny model

This is a model of the request-handling core of a Spring product-manager
service. The model covers:

- the product catalog (add, get, change, patch, remove, list and change-price over a store keyed by product code);
- the compact-constructor validators of `ProductDto`, `LoginRequest` and `RegisterRequest`;
- the `GenericResponse` envelope and its declared bounds;
- the translation of a `ProductValidationException` into a failure envelope;
- the role each product route requires, and the HTTP-200 wrapping of every handler;
- registration and login;
- the loading of an account as "ROLE_"-prefixed authorities;
- the claims of a login token and the checks made on it;
- the start-up provisioning of the default roles and accounts.

Java `null` is `Option.None`. A thrown exception is the `Failure` side of a
`Result` and carries a `Raised` value: the exception's class, its message and
its HTTP status. `Long` is `int` and the `Double` price is `real`. The product
repository is a `map` from code to entity, held by the class
`Catalog.ProductService`. Each of its mutating methods is proved equal to a
step function. Each step function has its own contract, and lemmas such as
add-then-get and change-then-get relate the steps to the lookup by code.
The user and role repositories are two maps held by `Accounts.Repositories`.

The following are parameters:

- password encoding (`encode`);
- the authentication manager's password check (`matches`);
- the signing secret;
- the two clock readings of token issue and the current time of a check.

Iterating the requested role set of a registration, or a repository's
`findAll`, yields an order the caller cannot rely on. `Common.Enumerate` models
it: it lists each element once, in a chosen order. The authorities of a Spring
`User` are different: they are held in a set sorted by `String.compareTo`.
`Common.EnumerateAscending` models their iteration, in ascending order. There
is exactly one such order, so the roles claim of a token is determined by the
account.

Three behaviours of the code worth stating, since such a service is often expected to do otherwise:

- registration never creates a missing role: it throws "Role not found";
- only `ProductValidationException` is translated by the exception handler;
- an unknown username at login fails with NOT_FOUND from the user lookup, before any password check.

## Model

| member | source | states |
|---|---|---|
| Common.LongToString | src/main/java/com/product/manager/service/ProductService.java:28 | A code concatenated into a message renders as a non-empty string whose first character is visible: digits for a non-negative code, a leading minus otherwise |
| Common.Enumerate | src/main/java/com/product/manager/service/ProductService.java:96-99 | Iterating a set (or findAll) yields every element exactly once, in some order |
| Common.EnumerateAscending | src/main/java/com/product/manager/service/UserDetailsServiceImpl.java:30-35 | Iterating the Spring User's sorted authority set yields every authority exactly once, in strictly ascending String.compareTo order |
| Common.AscendingEnumerationUnique | src/main/java/com/product/manager/service/UserDetailsServiceImpl.java:30-35 | A set of strings has exactly one strictly ascending enumeration, so the iteration order of the authorities is determined |
| Responses.WellFormedWhen | src/main/java/com/product/manager/dto/GenericResponse.java:7-17 | An envelope whose status is in 100..599 and whose message opens with a visible character meets both declared bounds, whatever its success flag and data |
| ProductDtos.NewProductDto | src/main/java/com/product/manager/dto/ProductDto.java:5-20 | Construction succeeds iff the name is non-null and non-blank, the price is non-null and ≥ 0, the quantity is non-null and ≥ 0, and the code is non-null and > 0. The arguments are kept. The checks run name, price, quantity, code, and the first failure decides the message |
| ProductDtos.ProductDtoRoundTrip | src/main/java/com/product/manager/dto/ProductDto.java:5-20 | Every valid record is rebuilt from its own arguments, and a record built from arguments has exactly those arguments |
| ProductDtos.BoundaryValuesAccepted | src/main/java/com/product/manager/dto/ProductDto.java:11-16 | Price 0 and quantity 0 are accepted, and any description, null or blank, passes |
| LoginRequests.NewLoginRequest | src/main/java/com/product/manager/dto/LoginRequest.java:6-15 | Accepted iff both username and password are non-null and non-blank, with the values kept untrimmed. The username is checked first. Each failure is a UserValidationException with BAD_REQUEST and its own message |
| RegisterRequests.NewRegisterRequest | src/main/java/com/product/manager/dto/RegisterRequest.java:9-20 | Accepted iff username and password are present and the role set is non-null and non-empty. The checks run username, password, roles. Username and password failures are UserValidationException BAD_REQUEST; a role-set failure is RoleValidationException BAD_REQUEST; individual role names are not examined |
| Catalog.AlreadyExists | src/main/java/com/product/manager/service/ProductService.java:28 | The duplicate-code exception is a ProductValidationException with CONFLICT and a non-blank message |
| Catalog.NotFound | src/main/java/com/product/manager/service/ProductService.java:41 | The missing-code exception is a ProductValidationException with NOT_FOUND and a non-blank message |
| Catalog.DoesNotExist | src/main/java/com/product/manager/service/ProductService.java:86 | The remove-of-missing-code exception is a ProductValidationException with NOT_FOUND and a non-blank message |
| Catalog.InvalidPrice | src/main/java/com/product/manager/service/ProductService.java:107-109 | The bad-price exception is a ProductValidationException with BAD_REQUEST and a non-blank message |
| Catalog.Done | src/main/java/com/product/manager/service/ProductService.java:34 | A data-less success envelope is well formed, with success true and the given status and message |
| Catalog.AddProductStep | src/main/java/com/product/manager/service/ProductService.java:25-35 | Success iff the code is not stored. On failure: CONFLICT and the store unchanged. On success: (201, true, "Product added successfully", null), the entity stored under its code, and every other product unchanged. The outcome is well formed and the store invariant is kept |
| Catalog.GetProductByCode | src/main/java/com/product/manager/service/ProductService.java:37-43 | Success iff the code is stored: (200, true, "Product found", DTO of the stored product). Otherwise NOT_FOUND. The outcome is well formed |
| Catalog.Replaced | src/main/java/com/product/manager/service/ProductService.java:52 | The mapper update copies name, price, quantity and description from the DTO and keeps the entity's code |
| Catalog.ChangeProductStep | src/main/java/com/product/manager/service/ProductService.java:46-56 | Success iff the code is stored. On failure: NOT_FOUND and the store unchanged. On success: (200, true, "Product changed successfully", null), only that product's four mutable fields take the DTO's values, and the key set and all other products are unchanged |
| Catalog.UpdateProductStep | src/main/java/com/product/manager/service/ProductService.java:59-81 | Success iff the code is stored. On failure: NOT_FOUND and the store unchanged. On success: (200, true, "Product updated successfully", null), only that product is patched by the guarded setters, and the store invariant is kept |
| Catalog.RemoveProductStep | src/main/java/com/product/manager/service/ProductService.java:84-93 | Success iff the code is stored. On failure: NOT_FOUND ("does not exist.") and the store unchanged. On success: (200, true, "Product removed successfully", null), and exactly that code is removed |
| Catalog.ChangeProductPriceStep | src/main/java/com/product/manager/service/ProductService.java:106-118 | A null or negative price is BAD_REQUEST with the store unchanged, whether or not the code exists. Then a missing code is NOT_FOUND. Otherwise (200, true, "Product price changed successfully", null) and only that product's price changes |
| Catalog.GetAllProducts | src/main/java/com/product/manager/service/ProductService.java:95-103 | (200, true, "Products retrieved successfully", list). The list has one entry per stored product, contains the DTO of every stored product, and each entry is the DTO of the product stored under its code |
| Catalog.AddThenGet | src/test/java/com/product/manager/controller/ProductControllerIntegrationTest.java:117-132 | After adding a DTO, getting its code returns that same DTO |
| Catalog.RemoveThenGet | src/test/java/com/product/manager/controller/ProductControllerIntegrationTest.java:174 | After removing a code, getting it fails with NOT_FOUND |
| Catalog.ChangeThenGet | src/test/java/com/product/manager/controller/ProductControllerIntegrationTest.java:136-154 | After a successful change, getting the code returns exactly the DTO that was sent |
| Catalog.PriceChangeThenGet | src/test/java/com/product/manager/controller/ProductControllerIntegrationTest.java:199-218 | After a successful price change, getting the code returns the old DTO with only the price replaced |
| Catalog.EmptyPatchChangesNothing | src/main/java/com/product/manager/service/ProductService.java:64-80 | An all-null patch leaves the store unchanged and still returns 200 "Product updated successfully" |
| Catalog.PricePatchChangesOnlyPrice | src/test/java/com/product/manager/service/ProductServiceTest.java:131-143 | A patch carrying only a valid price changes the price and nothing else |
| Catalog.InvalidPatchIgnored | src/main/java/com/product/manager/service/ProductService.java:64-78 | A blank name, a blank description, a negative price and a negative quantity are all silently ignored |
| Catalog.ProductService.constructor | src/main/java/com/product/manager/service/ProductService.java:20-23 | The service starts on an empty store that satisfies the invariant |
| Catalog.ProductService.AddProduct | src/main/java/com/product/manager/service/ProductService.java:25-35 | The new store and the result are those of AddProductStep on the old store, and the invariant is kept |
| Catalog.ProductService.ChangeProduct | src/main/java/com/product/manager/service/ProductService.java:46-56 | The new store and the result are those of ChangeProductStep, and the stored entity is updated field by field |
| Catalog.ProductService.UpdateProduct | src/main/java/com/product/manager/service/ProductService.java:59-81 | The new store and the result are those of UpdateProductStep, and the four guarded setters are applied in turn |
| Catalog.ProductService.RemoveProduct | src/main/java/com/product/manager/service/ProductService.java:84-93 | The new store and the result are those of RemoveProductStep |
| Catalog.ProductService.ChangeProductPrice | src/main/java/com/product/manager/service/ProductService.java:106-118 | The new store and the result are those of ChangeProductPriceStep: the price check comes before the lookup |
| ExceptionHandling.HandleProductValidationException | src/main/java/com/product/manager/exceptions/GlobalExceptionHandler.java:14-26 | Handled iff the exception is a ProductValidationException with a status. The HTTP status and the envelope status both equal the exception's status. The envelope has success false, the exception's message, and data null |
| ExceptionHandling.ServiceFailuresTranslated | src/main/java/com/product/manager/exceptions/GlobalExceptionHandler.java:14-26 | Every exception the product service throws is handled, and gives a well-formed envelope with the exception's message and the same status in the envelope and the HTTP response |
| UserDetailsLookup.PrefixCancels | src/main/java/com/product/manager/service/UserDetailsServiceImpl.java:34 | "ROLE_" prefixing is injective |
| UserDetailsLookup.AuthorityIffRole | src/main/java/com/product/manager/service/UserDetailsServiceImpl.java:33-35 | "ROLE_" + name is an authority iff the account holds the role named name |
| UserDetailsLookup.AuthoritiesCount | src/main/java/com/product/manager/service/UserDetailsServiceImpl.java:33-35 | There are exactly as many authorities as roles |
| UserDetailsLookup.LoadUserByUsername | src/main/java/com/product/manager/service/UserDetailsServiceImpl.java:26-37 | An unknown username fails with UserValidationException NOT_FOUND "User not found with username: " + username. Otherwise the stored username and encoded password are returned unchanged, with one "ROLE_"-prefixed authority per held role and no other authority |
| Jwt.ReplaceAbsent | src/main/java/com/product/manager/util/JwtUtil.java:29 | String.replace leaves a string without the target unchanged |
| Jwt.StripAll | src/main/java/com/product/manager/util/JwtUtil.java:28-30 | The roles claim has one entry per authority, in stream order, each with every "ROLE_" removed |
| Jwt.StripUndoesPrefix | src/main/java/com/product/manager/util/JwtUtil.java:29 | Removing "ROLE_" from "ROLE_" + name gives name back when name does not contain "ROLE_" |
| Jwt.StripConflatesNestedPrefix | src/main/java/com/product/manager/util/JwtUtil.java:29 | Roles named "A" and "ROLE_A" both appear as "A" in the claim |
| Jwt.GenerateToken | src/main/java/com/product/manager/util/JwtUtil.java:20-35 | The subject is the username. The roles claim is the stripped authorities in ascending order. iat is the first clock reading and exp is the second plus 86 400 000 ms, so exp − iat ≥ 86 400 000 ms when the clock does not go backwards. The token is signed with the secret key |
| Jwt.AdminAndUserClaimOrder | src/main/java/com/product/manager/util/JwtUtil.java:28-30 | An account holding ADMIN and USER always gets the roles claim ["ADMIN", "USER"] |
| Jwt.ParseClaims | src/main/java/com/product/manager/util/JwtUtil.java:52-58 | Parsing succeeds iff the token was signed with this key, and then yields its claims. Otherwise a signature exception is thrown |
| Jwt.IsTokenExpired | src/main/java/com/product/manager/util/JwtUtil.java:47-50 | Under the right key, expired iff exp is strictly before now. Under a wrong key it throws |
| Jwt.IsTokenValid | src/main/java/com/product/manager/util/JwtUtil.java:42-45 | Under the right key, valid iff the subject equals the user's username and now ≤ exp. Under a wrong key it throws, so the token is never valid |
| Jwt.IssuedTokenValidUntilExpiry | src/main/java/com/product/manager/util/JwtUtil.java:42-50 | An issued token is valid for its user up to and including exp, and invalid afterwards |
| Jwt.RolesClaimRecoversRoleNames | src/main/java/com/product/manager/util/JwtUtil.java:28-30 | Combined with the prefixing of the user lookup, the roles claim lists exactly the account's role names, one per role, when no role name contains "ROLE_" |
| Auth.ToUpperCase | src/main/java/com/product/manager/service/AuthService.java:52 | Upper-casing keeps the length, maps a–z to A–Z and leaves every other character as it is |
| Auth.ResolveRoles | src/main/java/com/product/manager/service/AuthService.java:51-54 | Success iff every upper-cased requested name is a stored role; the result is the set of those stored roles. Otherwise the result is RuntimeException "Role not found: " + the original name of an unresolved role |
| Auth.ResolvedRolesBounds | src/main/java/com/product/manager/service/AuthService.java:51-54 | Resolved roles are stored roles, and there are no more of them than requested names |
| Auth.CaseVariantsCollapse | src/main/java/com/product/manager/service/AuthService.java:51-54 | "user" and "USER" resolve to the same single role |
| Auth.Login | src/main/java/com/product/manager/service/AuthService.java:35-44 | An unknown username fails with NOT_FOUND before any password check. A password mismatch fails with bad credentials and no token. Success iff both pass, returning (200, true, "Login successful", token), where the token's subject is the username and its roles claim is the stripped authorities in ascending order |
| Auth.Register | src/main/java/com/product/manager/service/AuthService.java:46-64 | An existing username returns (400, false, "Username already exists", null) and saves nothing. An unresolvable role throws and saves nothing. Otherwise exactly one user is added, with the encoded password and the resolved roles, and the result is (201, true, "User registered successfully", null). The role table never changes, and the repository invariant is kept |
| Accounts.Repositories.constructor | src/main/java/com/product/manager/config/DataInitializer.java:18-19 | The repositories start empty and satisfy their invariant |
| Bootstrap.ProvisionedRoles | src/main/java/com/product/manager/config/DataInitializer.java:24-28 | After provisioning, both USER and ADMIN exist |
| Bootstrap.ProvisioningFacts | src/main/java/com/product/manager/config/DataInitializer.java:23-45 | Existing roles are reused and missing ones are created. "admin" (encoded "admin123", {ADMIN}) and "user" (encoded "user123", {USER}) are created only when absent. Existing accounts are untouched, and nothing else is added |
| Bootstrap.RunIsIdempotent | src/main/java/com/product/manager/config/DataInitializer.java:23-45 | Provisioning a second time changes neither table |
| Bootstrap.Run | src/main/java/com/product/manager/config/DataInitializer.java:23-45 | The tables after the step-by-step run equal the provisioning functions of the old tables, and the repository invariant is kept |
| ProductRoutes.RequiredRole | src/main/java/com/product/manager/controller/ProductController.java:32-79 | get-by-code and list require USER; add, change, update, remove and change-price require ADMIN |
| ProductRoutes.WrapOk | src/main/java/com/product/manager/controller/ProductController.java:36 | A returned envelope travels with HTTP 200, whatever its own status; a thrown exception passes through unchanged |
| ProductRoutes.AdmittedIffHoldsRole | src/main/java/com/product/manager/controller/ProductController.java:33 | An account loaded by the user lookup is admitted to a route iff it holds the role the route names |
| ProductRoutes.NoRoleHierarchy | src/main/java/com/product/manager/controller/ProductController.java:40 | An account holding only ADMIN is refused both read routes, and an account holding only USER is refused every write route |
| ProductRoutes.AddAnswersOkAroundCreated | src/test/java/com/product/manager/controller/ProductControllerIntegrationTest.java:106 | A successful add answers HTTP 200 around an envelope whose status is 201 |
| ProductRoutes.ProductController.constructor | src/main/java/com/product/manager/controller/ProductController.java:28-30 | The controller delegates to the given service |
| ProductRoutes.ProductController.AddProduct | src/main/java/com/product/manager/controller/ProductController.java:32-37 | Without ROLE_ADMIN: access denied and the store unchanged. Otherwise the service's add runs on the unchanged request, and its outcome is wrapped with HTTP 200 |
| ProductRoutes.ProductController.GetProductByCode | src/main/java/com/product/manager/controller/ProductController.java:39-44 | Without ROLE_USER: access denied. Otherwise the service's lookup of the same code, wrapped with HTTP 200 |
| ProductRoutes.ProductController.ChangeProduct | src/main/java/com/product/manager/controller/ProductController.java:46-51 | Without ROLE_ADMIN: access denied and the store unchanged. Otherwise the service's change, wrapped with HTTP 200 |
| ProductRoutes.ProductController.UpdateProduct | src/main/java/com/product/manager/controller/ProductController.java:53-58 | Without ROLE_ADMIN: access denied and the store unchanged. Otherwise the service's patch of the same code, wrapped with HTTP 200 |
| ProductRoutes.ProductController.RemoveProduct | src/main/java/com/product/manager/controller/ProductController.java:60-65 | Without ROLE_ADMIN: access denied and the store unchanged. Otherwise the service's remove, wrapped with HTTP 200 |
| ProductRoutes.ProductController.GetAllProducts | src/main/java/com/product/manager/controller/ProductController.java:67-72 | Without ROLE_USER: access denied. Otherwise HTTP 200 around a 200 success envelope listing the DTO of every stored product, one entry per product |
| ProductRoutes.ProductController.ChangeProductPrice | src/main/java/com/product/manager/controller/ProductController.java:74-79 | Without ROLE_ADMIN: access denied and the store unchanged. Otherwise the service's price change, with the price check first, wrapped with HTTP 200 |

## Left out

- The HTTP status of a ProductDto validation error is not modelled. `ProductDto.java:9-18` calls a one-argument `ProductValidationException` constructor that does not exist; the only constructor takes (message, status). The model gives these exceptions no status, so the exception handler produces no envelope for them.
- `ProductService.java:52` calls `productMapper.updateEntityFromDto`, which does not exist in `ProductMapper.java`. The model copies name, price, quantity and description, as the tests expect.
- `UpdateProductDto.java` is not part of this model. The model assumes a record of four nullable fields with no constructor checks, as the tests build it with null fields.
- `Role.java` and `User.java` (the entities) are not part of this model. Their generated ids, and the product's id, are left out; roles are identified by name.
- `Jwt.GenerateToken`, `Jwt.ParseClaims`: JWT compaction, HS256 signing, key derivation (including a too-short key) and the library's own expiry rejection are not modelled. Signature verification is reduced to "signed with the same secret".
- `Jwt.GenerateToken`: the second-granularity truncation of `iat` and `exp` in the encoded token is not modelled. Timestamps stay in milliseconds.
- Password encoding and the authentication manager are parameters (`encode`, `matches`). Any salting the configured encoder does is left out; `encode` is deterministic here.
- `Common.StringLess` orders characters by Unicode scalar value. `String.compareTo` orders UTF-16 code units, which differs only between supplementary characters and U+E000..U+FFFF.
- `Auth.ToUpperCase` upper-cases only ASCII letters. Locale-dependent and non-ASCII case mapping is not modelled.
- `Auth.Register`: a null element in the requested role set is not modelled. Role names are strings.
- `Auth.Login`: it takes a constructed `LoginRequest`. The request-body binding that runs the record's constructor is Spring wiring, modelled on its own as `LoginRequests.NewLoginRequest`.
- `ProductRoutes.ProductController.AddProduct`, `ProductRoutes.ProductController.ChangeProduct`: these take a constructed, valid `ProductDto`. How Jackson reports a failing constructor during body binding is not modelled.
- The 64-bit range of `Long` codes and quantities is not modelled. No arithmetic is done on them.
- The IEEE behaviour of the `Double` price (NaN, negative zero) is not modelled. A price is a real.
- Logging, `@Transactional`, dependency injection, Swagger annotations and the `@PreAuthorize` interception mechanism are left out. Only the role table and the check before delegation are modelled.
- Concurrent requests are left out. Each operation is one atomic step on the store.
- The entity is modelled as a value in a map, so in-place mutation through setters on a managed entity, and any aliasing of that entity, are not captured.
- `AuthController.java` is left out. It delegates to the auth service with the same HTTP-200 wrapping as the product controller.
- The bearer-token request filter and the security configuration are not part of this model.
