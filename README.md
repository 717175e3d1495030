# Stock, users and order messaging of the MSPR4 micro-services, in Dafny

This project models the core of a small e-commerce back end made of three services.

- **Product service** (Java/Spring). `ProductService` is CRUD over the product table.
  `StockService` listens on the `order_events` queue. For each `order_created` message it
  checks every order line against the stock (`checkAndReserve`), decrements the stock when
  every line fits, and answers `stock_validated` or `stock_failed` on the `stock_events` queue.
- **Client service** (Java/Spring). It has:
  - user management (`UserServiceImpl`);
  - public and admin registration (`AuthService`);
  - the start-up seeding of test accounts (`DataInitializer`);
  - the admin-only role change of `UserController.updateUser`;
  - the token endpoints of `AuthController`: bearer-token extraction, logout, token status
    and email availability;
  - the `TokenBlacklistService` of revoked tokens with its expiry sweep.
- **Order service** (Node/Express). `rabbitmq.js` holds the connection loop with its retry
  counter, the consumer that moves an order to `validated`, `failed` or `pending`, and
  `publishOrderEvent`. `auth.js` holds the `authenticateToken` and `requireAdmin` middlewares.

How the model is built:

- Tables are classes holding a `map` from id to row plus the next generated id. Id 0 is
  the id of a row that was never saved. `save` overwrites a stored id and otherwise inserts
  under a fresh one.
- Services are classes whose methods change those maps. Each method is tied to a pure
  function or to an explicit new state, and the properties the code promises are lemmas
  about those functions.
- Java `int` arithmetic and `Integer.parseInt` are written out (module `JavaInt`).
- Opaque collaborators are functions given to the classes:
  - the password encoder;
  - the JWT library (issuing, signature/expiry acceptance, subject, expiry);
  - `jwt.verify` of the order service;
  - what each broker connection attempt meets.
- Clocks are an explicit `now` parameter.
- Calls on the broker and on the order collection are appended to a log.

Where the code and the design description disagree, the model follows the code:

- A reservation is not idempotent per order: a redelivered `order_created` reserves again.
- Nothing keeps stock non-negative. Two lines for the same product are checked separately
  against the stock before the order and can overdraw it (`Stock.RepeatedProductOverdraws`).
- A negative quantity passes the check and adds stock (`Stock.NegativeRequestAddsStock`).
  At the top of the `int` range it wraps (`Stock.NegativeRequestWraps`).
- Every exception in `handleOrderEvent` is caught and logged. Nothing is requeued, and a
  message that fails after the decrements (a null `orderId` or `clientId`) keeps them and
  sends no answer.
- A product's stock is a nullable `Integer`, and a product saved without a quantity holds
  null. An order line naming such a product throws in the check loop, so the stock is
  untouched and no answer is sent: the order is never settled (`Stock.NullStockExample`).

## Model

| member | source | states |
|---|---|---|
| JavaInt.Wrap | product-service/src/main/java/com/example/mspr4/Services/StockService.java:70 | the `int` Java holds for an integer is congruent to it modulo 2^32 and equal to it inside the range |
| JavaInt.Sub | product-service/src/main/java/com/example/mspr4/Services/StockService.java:70 | `int` subtraction is exact when the difference fits and off by exactly 2^32 above or below the range |
| JavaInt.WrapUnique | product-service/src/main/java/com/example/mspr4/Services/StockService.java:70 | exactly one `int` is congruent to a given integer modulo 2^32 |
| JavaInt.WrapOfWrapped | product-service/src/main/java/com/example/mspr4/Services/StockService.java:65-72 | wrapping after each subtraction equals wrapping once at the end |
| JavaInt.SubWrapped | product-service/src/main/java/com/example/mspr4/Services/StockService.java:70 | subtracting in `int` arithmetic from a wrapped value wraps the exact difference |
| JavaInt.Narrow | product-service/src/main/java/com/example/mspr4/Services/StockService.java:54-55 | a parsed value is accepted exactly when it lies in the `int` range |
| JavaInt.DigitsValueDefined | product-service/src/main/java/com/example/mspr4/Services/StockService.java:54-55 | a run of characters has a decimal value exactly when every character is a digit |
| JavaInt.ParseInt | product-service/src/main/java/com/example/mspr4/Services/StockService.java:54-55 | `Integer.parseInt` never accepts empty text, and unsigned text parses to its decimal value |
| JavaInt.DigitsRoundTrip | product-service/src/main/java/com/example/mspr4/Services/StockService.java:54 | the decimal digits of a natural number are non-empty and read back as that number |
| JavaInt.ParseShowRoundTrip | product-service/src/main/java/com/example/mspr4/Services/StockService.java:54-55 | every `int` parses back from the text `toString` gives it |
| JavaInt.ParseIntRejectsNonDigit | product-service/src/main/java/com/example/mspr4/Services/StockService.java:54-55 | text with a non-digit after the first position is a NumberFormatException |
| Products.ProductRepository.FindById | product-service/src/main/java/com/example/mspr4/Services/ProductService.java:30-31 | a product is found exactly when its id is stored, and it is the stored row |
| Products.ProductRepository.Save | product-service/src/main/java/com/example/mspr4/Services/ProductService.java:25 | a stored id is overwritten in place; any other product is inserted under the next generated id |
| Products.ProductRepository.Delete | product-service/src/main/java/com/example/mspr4/Services/ProductService.java:45 | exactly the product's row is removed |
| Products.ProductService.CreateProduct | product-service/src/main/java/com/example/mspr4/Services/ProductService.java:24-26 | the product is saved under its id when that id is stored (generating no id), otherwise under the next generated id; every field but the id is kept and no other row changes |
| Products.ProductService.UpdateProduct | product-service/src/main/java/com/example/mspr4/Services/ProductService.java:29-37 | an unknown id fails with "Produit non trouvé" and saves nothing; otherwise name, description, price and quantity are overwritten and the id is kept |
| Products.ProductService.DeleteProduct | product-service/src/main/java/com/example/mspr4/Services/ProductService.java:41-47 | an unknown id fails with ProductNotFoundException; otherwise exactly that row is removed; no id is generated |
| Products.ProductService.GetProductById | product-service/src/main/java/com/example/mspr4/Services/ProductService.java:51-54 | the stored product, or ProductNotFoundException for the id exactly when it is absent |
| Stock.CheckFrom | product-service/src/main/java/com/example/mspr4/Services/StockService.java:53-62 | the check passes exactly when every line parses and names a product with a non-null stock that is not short; otherwise it stops at the first line that does not, and tells an unknown or short product apart from a line that throws: its entries do not parse, or its product's stock is null |
| Stock.CheckFromIgnoresLaterLines | product-service/src/main/java/com/example/mspr4/Services/StockService.java:53-62 | a check that stops at a line reads nothing after it |
| Stock.CheckIgnoresLaterLines | product-service/src/main/java/com/example/mspr4/Services/StockService.java:53-62 | replacing every line after the failing one leaves the verdict unchanged |
| Stock.Parsed | product-service/src/main/java/com/example/mspr4/Services/StockService.java:65-67 | the decrement loop re-parses to the same lines the check parsed |
| Stock.Reserve | product-service/src/main/java/com/example/mspr4/Services/StockService.java:65-72 | the decrement loop adds or removes no product |
| Stock.AfterCheck | product-service/src/main/java/com/example/mspr4/Services/StockService.java:52-75 | the stock keeps its products, and a failed check leaves it untouched |
| Stock.ReserveEffect | product-service/src/main/java/com/example/mspr4/Services/StockService.java:65-72 | each product with a stock ends lowered by the total its lines request, modulo 2^32, with its other fields kept; a product with a null stock keeps its row |
| Stock.RequestedUnnamed | product-service/src/main/java/com/example/mspr4/Services/StockService.java:65-72 | a product no line names is requested zero times |
| Stock.RequestedDistinct | product-service/src/main/java/com/example/mspr4/Services/StockService.java:65-72 | with distinct products, a product's total request is its own line's quantity |
| Stock.UnmentionedProductsUnchanged | product-service/src/main/java/com/example/mspr4/Services/StockService.java:52-75 | a product the order does not name keeps its row, whatever the verdict |
| Stock.ReserveInRange | product-service/src/main/java/com/example/mspr4/Services/StockService.java:65-72 | a product whose total request keeps it inside the `int` range is lowered by exactly that total |
| Stock.DistinctLinesReserved | product-service/src/main/java/com/example/mspr4/Services/StockService.java:65-72 | when the lines fit and name distinct products with non-negative requests, each named product is lowered by exactly its line's request |
| Stock.DistinctLinesNonNegative | product-service/src/main/java/com/example/mspr4/Services/StockService.java:65-72 | such lines keep a table with no negative stock free of negative stock |
| Stock.DistinctReservation | product-service/src/main/java/com/example/mspr4/Services/StockService.java:52-75 | with distinct products and non-negative requests, a passed check lowers each named product's stock by exactly its request, never below zero, and leaves a table without negative stock without negative stock |
| Stock.RepeatedProductOverdraws | product-service/src/main/java/com/example/mspr4/Services/StockService.java:53-72 | two lines for one product pass the check and together drive its stock negative |
| Stock.NegativeRequestAddsStock | product-service/src/main/java/com/example/mspr4/Services/StockService.java:58-70 | a negative quantity passes the check and increases the stock |
| Stock.NegativeRequestWraps | product-service/src/main/java/com/example/mspr4/Services/StockService.java:70 | a negative request on a stock at the `int` maximum wraps it to the minimum |
| Stock.HandleOrder | product-service/src/main/java/com/example/mspr4/Services/StockService.java:24-50 | a malformed message, or a line that does not parse or names a product with a null stock, changes nothing and sends nothing; a message with both ids sends one answer echoing them, `stock_validated` exactly when the check passed; a missing id keeps the decrements and sends nothing |
| Stock.InfeasibleOrderExample | product-service/src/main/java/com/example/mspr4/Services/StockService.java:24-62 | an order with one short line is answered `stock_failed` and the stock is untouched |
| Stock.NullStockExample | product-service/src/main/java/com/example/mspr4/Services/StockService.java:24-58 | an order naming a product whose stock is null throws in the check: the stock is untouched and no answer is sent |
| Stock.HappyPathExample | product-service/src/main/java/com/example/mspr4/Services/StockService.java:24-75 | an order that fits is answered `stock_validated` and the stock is decremented |
| Stock.StockService.CheckAndReserve | product-service/src/main/java/com/example/mspr4/Services/StockService.java:52-75 | the loops return the verdict of the check on the stock before the call and leave exactly the stock `AfterCheck` describes |
| Stock.StockService.DecrementAll | product-service/src/main/java/com/example/mspr4/Services/StockService.java:65-72 | after a passed check, the decrement loop leaves exactly the stock `AfterCheck` describes and generates no id |
| Stock.StockService.HandleOrderEvent | product-service/src/main/java/com/example/mspr4/Services/StockService.java:24-50 | the listener leaves the stock `HandleOrder` gives, generates no id, and sends exactly its answer, if any |
| Blacklist.UnexpiredExactly | client-service/client-api/src/main/java/com/example/clientapi/service/TokenBlacklistService.java:69-71 | a sweep keeps exactly the tokens whose expiry is not before `now`, with their expiries |
| Blacklist.UnexpiredShrinks | client-service/client-api/src/main/java/com/example/clientapi/service/TokenBlacklistService.java:65-77 | a sweep never adds a token, so the count never grows |
| Blacklist.UnexpiredIdempotent | client-service/client-api/src/main/java/com/example/clientapi/service/TokenBlacklistService.java:65-77 | a second sweep at the same instant removes nothing |
| Blacklist.UnexpiredLater | client-service/client-api/src/main/java/com/example/clientapi/service/TokenBlacklistService.java:28-32 | an hourly sweep removes at least what the earlier ones did, and sweeping twice equals the later sweep |
| Blacklist.RevokedSurvivesSweep | client-service/client-api/src/main/java/com/example/clientapi/service/TokenBlacklistService.java:42-77 | a token revoked with an expiry at or after `now` is still revoked after a sweep at `now` |
| Blacklist.RevokeCount | client-service/client-api/src/main/java/com/example/clientapi/service/TokenBlacklistService.java:42-45 | revoking a new token adds one to the count; revoking a held one adds none |
| Blacklist.TokenBlacklistService.RevokeToken | client-service/client-api/src/main/java/com/example/clientapi/service/TokenBlacklistService.java:42-45 | the token is recorded with its expiry, replacing an earlier expiry |
| Blacklist.TokenBlacklistService.IsTokenRevoked | client-service/client-api/src/main/java/com/example/clientapi/service/TokenBlacklistService.java:53-59 | revoked exactly when the token is held |
| Blacklist.TokenBlacklistService.CleanupExpiredTokens | client-service/client-api/src/main/java/com/example/clientapi/service/TokenBlacklistService.java:65-77 | the map becomes its unexpired part, and the count removed is reported |
| Blacklist.TokenBlacklistService.GetBlacklistedTokensCount | client-service/client-api/src/main/java/com/example/clientapi/service/TokenBlacklistService.java:84-86 | the number of distinct tokens held |
| Blacklist.TokenBlacklistService.ClearBlacklist | client-service/client-api/src/main/java/com/example/clientapi/service/TokenBlacklistService.java:91-94 | no token is held afterwards |
| Users.NewUser | client-service/client-api/src/main/java/com/example/clientapi/service/AuthService.java:81-93 | a new unsaved user carries the given email, role and status and no contact columns |
| Users.UserRepository.ExistsByEmail | client-service/client-api/src/main/java/com/example/clientapi/repository/UserRepository.java:31 | true exactly when some row holds the email |
| Users.UserRepository.ExistsByEmailAndIdNot | client-service/client-api/src/main/java/com/example/clientapi/repository/UserRepository.java:36 | true exactly when a row other than the given id holds the email |
| Users.UserRepository.FindById | client-api/src/main/java/com/example/clientapi/service/impl/UserServiceImpl.java:70 | a user is found exactly when its id is stored, and it is the stored row |
| Users.UserRepository.FindByEmail | client-service/client-api/src/main/java/com/example/clientapi/repository/UserRepository.java:26 | a row holding the email, found exactly when one exists, and the only one when emails are unique |
| Users.UserRepository.Save | client-api/src/main/java/com/example/clientapi/service/impl/UserServiceImpl.java:57 | a stored id is overwritten; any other user is inserted under the next generated id |
| Users.UserRepository.DeleteById | client-api/src/main/java/com/example/clientapi/service/impl/UserServiceImpl.java:170 | exactly that row is removed |
| Users.StoreKeepsUnique | client-api/src/main/java/com/example/clientapi/service/impl/UserServiceImpl.java:142-155 | storing a row whose email no other row holds keeps emails unique |
| UserService.EncodeIfPresent | client-api/src/main/java/com/example/clientapi/service/impl/UserServiceImpl.java:295-297 | a supplied password is encoded and a null one stays null |
| UserService.FromCreateDto | client-api/src/main/java/com/example/clientapi/service/impl/UserServiceImpl.java:288-308 | the new user is unsaved and active, with the requested role and the encoded password exactly when one was given |
| UserService.MergeFieldwise | client-api/src/main/java/com/example/clientapi/service/impl/UserServiceImpl.java:310-347 | each null request field keeps its column and each non-null one replaces it, the password encoded; the id never changes |
| UserService.MergeNothing | client-api/src/main/java/com/example/clientapi/service/impl/UserServiceImpl.java:310-347 | an update with every field null changes nothing |
| UserService.MergeIdempotent | client-api/src/main/java/com/example/clientapi/service/impl/UserServiceImpl.java:310-347 | applying the same update twice equals applying it once |
| UserService.MergeRole | client-api/src/main/java/com/example/clientapi/service/impl/UserServiceImpl.java:310-347 | the role changes exactly when the request carries a different role, and the id is kept |
| UserService.ToDtoHidesOnlyPassword | client-api/src/main/java/com/example/clientapi/service/impl/UserServiceImpl.java:349-367 | two users have the same response view exactly when they differ at most in the password |
| UserService.CreatedDtoEchoesRequest | client-api/src/main/java/com/example/clientapi/service/impl/UserServiceImpl.java:41-63 | the response to a creation echoes the request's fields under the generated id, with status ACTIVE |
| UserService.UserServiceImpl.CreateUser | client-api/src/main/java/com/example/clientapi/service/impl/UserServiceImpl.java:41-63 | a taken email fails with EmailAlreadyExistsException and stores nothing; otherwise the new user is stored under a fresh id and its view returned; emails stay unique |
| UserService.UserServiceImpl.GetUserById | client-api/src/main/java/com/example/clientapi/service/impl/UserServiceImpl.java:67-78 | the stored user's view, or UserNotFoundException exactly when the id is absent |
| UserService.UserServiceImpl.UpdateUser | client-api/src/main/java/com/example/clientapi/service/impl/UserServiceImpl.java:132-159 | an unknown id, or a changed email another user holds, fails and stores nothing; otherwise the merged user replaces the row; emails stay unique |
| UserService.UserServiceImpl.DeleteUser | client-api/src/main/java/com/example/clientapi/service/impl/UserServiceImpl.java:162-172 | an unknown id fails; otherwise exactly that row is removed |
| UserService.UserServiceImpl.ActivateUser | client-api/src/main/java/com/example/clientapi/service/impl/UserServiceImpl.java:208-219 | an unknown id fails; otherwise only that user's status becomes ACTIVE |
| UserService.UserServiceImpl.DeactivateUser | client-api/src/main/java/com/example/clientapi/service/impl/UserServiceImpl.java:222-233 | an unknown id fails; otherwise only that user's status becomes INACTIVE |
| UserService.UserServiceImpl.ChangeUserRole | client-api/src/main/java/com/example/clientapi/service/impl/UserServiceImpl.java:236-249 | an unknown id fails; otherwise only that user's role changes, to the new one |
| UserService.UserServiceImpl.EmailExists | client-api/src/main/java/com/example/clientapi/service/impl/UserServiceImpl.java:253-255 | true exactly when some stored user holds the email |
| UserService.UserServiceImpl.IsOwner | client-api/src/main/java/com/example/clientapi/service/impl/UserServiceImpl.java:280-284 | true exactly when the user exists and holds exactly the authenticated email |
| AuthService.ClientFrom | client-service/client-api/src/main/java/com/example/clientapi/service/AuthService.java:80-93 | a public sign-up builds an unsaved, active CLIENT with the request's email and encoded password |
| AuthService.AdminFrom | client-service/client-api/src/main/java/com/example/clientapi/service/AuthService.java:118-125 | an admin sign-up builds an unsaved, active user with the requested role and no contact columns |
| AuthService.AuthService.RegisterClient | client-service/client-api/src/main/java/com/example/clientapi/service/AuthService.java:71-104 | a taken email fails and stores nothing; otherwise an active client is stored under a fresh id and a token issued for its email is returned; emails stay unique |
| AuthService.AuthService.RegisterAdmin | client-service/client-api/src/main/java/com/example/clientapi/service/AuthService.java:109-137 | a taken email fails and stores nothing; otherwise an active user with the requested role is stored and answered with a token; emails stay unique |
| AuthService.AuthService.EmailExists | client-service/client-api/src/main/java/com/example/clientapi/service/AuthService.java:142-144 | true exactly when a stored user holds the email |
| DataInitializer.SeedUser | client-api/src/main/java/com/example/clientapi/service/DataInitializer.java:130-138 | a seed becomes an unsaved, active user with the seed's email, role and encoded password |
| DataInitializer.Professional | client-api/src/main/java/com/example/clientapi/service/DataInitializer.java:91-100 | the professional client receives its company and contact columns and keeps its id, email, role and status |
| DataInitializer.ProfessionalSeededAfterAdmins | client-api/src/main/java/com/example/clientapi/service/DataInitializer.java:33-40 | seeding the administrators before the clients keeps what the professional client's seeding did |
| DataInitializer.ProfessionalSeededAcross | client-api/src/main/java/com/example/clientapi/service/DataInitializer.java:70-117 | seeding the other clients around the professional client keeps what its seeding did |
| DataInitializer.SeedsChangedCompose | client-api/src/main/java/com/example/clientapi/service/DataInitializer.java:33-40 | two seeding steps compose into one that seeds the union of their emails |
| DataInitializer.SeedRowOverwritten | client-api/src/main/java/com/example/clientapi/service/DataInitializer.java:112-116 | overwriting a seeded row while keeping its email is a seeding step |
| DataInitializer.SeedsChangedTrans | client-api/src/main/java/com/example/clientapi/service/DataInitializer.java:82-100 | two seeding steps of the same emails are one |
| DataInitializer.InactiveSeededAcross | client-api/src/main/java/com/example/clientapi/service/DataInitializer.java:103-116 | seeding other emails after the inactive client keeps its rows INACTIVE |
| DataInitializer.DataInitializer.CreateUserIfNotExists | client-api/src/main/java/com/example/clientapi/service/DataInitializer.java:122-147 | an existing holder of the email is returned and the table is unchanged; otherwise the seed's user is stored under a fresh id |
| DataInitializer.DataInitializer.InitializeAdminUsers | client-api/src/main/java/com/example/clientapi/service/DataInitializer.java:45-65 | the administrator emails are added, no existing row changes, and a second run changes nothing |
| DataInitializer.DataInitializer.InitializeTestClients | client-api/src/main/java/com/example/clientapi/service/DataInitializer.java:70-117 | the client emails are added, only seeded rows change, the professional client gets its company, and the inactive client is INACTIVE |
| DataInitializer.DataInitializer.SeedProfessionalClient | client-api/src/main/java/com/example/clientapi/service/DataInitializer.java:82-100 | the professional client is seeded and receives its company columns only when it has no company |
| DataInitializer.DataInitializer.SeedInactiveClient | client-api/src/main/java/com/example/clientapi/service/DataInitializer.java:103-116 | the inactive client is seeded and saved INACTIVE, whatever its status was |
| DataInitializer.DataInitializer.Run | client-api/src/main/java/com/example/clientapi/service/DataInitializer.java:33-40 | every seeded email is added and only seeded rows change; with unique emails the inactive client is INACTIVE and the professional client's rows are kept or filled in with its company and contact columns; a second run adds no row |
| UserController.IsAdmin | client-api/src/main/java/com/example/clientapi/controller/UserController.java:148-149 | true exactly when some authority is `ROLE_ADMIN` |
| UserController.Forwarded | client-api/src/main/java/com/example/clientapi/controller/UserController.java:151-154 | an admin's request is forwarded unchanged; a non-admin's has no role |
| UserController.ForwardedKeepsOtherFields | client-api/src/main/java/com/example/clientapi/controller/UserController.java:151-154 | no field other than the role is changed |
| UserController.NonAdminKeepsRole | client-api/src/main/java/com/example/clientapi/controller/UserController.java:151-156 | a non-admin's update never changes the stored role |
| UserController.UserController.UpdateUser | client-api/src/main/java/com/example/clientapi/controller/UserController.java:140-160 | an unknown id fails Not Found and an email taken by another user fails as a duplicate, both changing nothing; otherwise the update succeeds and stores the user merged with the forwarded request; without `ROLE_ADMIN` the stored role is unchanged, with it a role field sets the role; no id is generated |
| AuthController.ParseJwt | client-service/client-api/src/main/java/com/example/clientapi/controller/AuthController.java:220-228 | a token is extracted exactly when the header starts with `Bearer `, and the header is that prefix followed by the token |
| AuthController.ParseJwtRoundTrip | client-service/client-api/src/main/java/com/example/clientapi/controller/AuthController.java:220-228 | every token comes back out of its bearer header |
| AuthController.ParseJwtRejects | client-service/client-api/src/main/java/com/example/clientapi/controller/AuthController.java:220-228 | a missing header, a blank one, a lower-case scheme and another scheme give no token |
| AuthController.AuthController.RevocationExpiry | client-service/client-api/src/main/java/com/example/clientapi/security/JwtUtils.java:87-101 | the token's own expiry, or one day from now when it cannot be read |
| AuthController.AuthController.LogoutUser | client-service/client-api/src/main/java/com/example/clientapi/controller/AuthController.java:113-155 | a missing or invalid token is a 400 that revokes nothing; a valid token is revoked, added once, and no longer validates |
| AuthController.AuthController.VerifyToken | client-service/client-api/src/main/java/com/example/clientapi/controller/AuthController.java:184-215 | valid exactly when a token is present, not revoked and accepted, with the username reported only then |
| AuthController.AuthController.CheckEmailAvailability | client-service/client-api/src/main/java/com/example/clientapi/controller/AuthController.java:163-172 | `exists` exactly when a user holds the email, and `available` is its negation |
| AuthController.RevokedTokenFailsVerification | client-service/client-api/src/main/java/com/example/clientapi/security/JwtUtils.java:106-133 | a revoked token is reported invalid, whatever the JWT library says |
| OrderMessaging.StatusFor | order-service/src/utils/rabbitmq.js:28-30 | `validated` exactly for `stock_validated`, `failed` exactly for `stock_failed`, `pending` for anything else |
| OrderMessaging.StockReplyDecidesStatus | order-service/src/utils/rabbitmq.js:25-32 | an answer of the stock service names its order and moves it to `validated` exactly when the stock check passed, otherwise to `failed` |
| OrderMessaging.WithStatus | order-service/src/utils/rabbitmq.js:32 | only the named order's status changes; a missing id changes nothing |
| OrderMessaging.OrderCreated | order-service/src/utils/rabbitmq.js:72-81 | the message is an `order_created` event |
| OrderMessaging.OrderCreatedInjective | order-service/src/utils/rabbitmq.js:72-81 | two orders give the same message exactly when they are equal, so every field is carried |
| OrderMessaging.OutcomeFromBounds | order-service/src/utils/rabbitmq.js:12-57 | from any attempt on, the loop connects at the first success or exits after the last allowed attempt |
| OrderMessaging.LoopOutcomeBounds | order-service/src/utils/rabbitmq.js:5-58 | at most `retries` attempts, stopping at the first success; exit only when all failed; no attempt exactly when `retries` is not positive |
| OrderMessaging.OrderStore.UpdateStatus | order-service/src/utils/rabbitmq.js:32 | the collection becomes `WithStatus` of the old one |
| OrderMessaging.RabbitMQ.Connect | order-service/src/utils/rabbitmq.js:5-58 | test mode skips; otherwise the outcome is the loop outcome, the consumer is registered only on success, and the channel is set by every attempt that created one |
| OrderMessaging.RabbitMQ.OnStockReply | order-service/src/utils/rabbitmq.js:20-39 | a null or unparsable delivery changes nothing; otherwise the order takes the mapped status, then the delivery is acknowledged |
| OrderMessaging.RabbitMQ.PublishOrderEvent | order-service/src/utils/rabbitmq.js:60-84 | nothing in test mode or without a channel; otherwise exactly one `order_created` message for the order, to `order_events` |
| OrderAuth.Split | order-service/src/middleware/auth.js:8 | splitting on spaces always gives at least one piece |
| OrderAuth.SplitJoin | order-service/src/middleware/auth.js:8 | joining the pieces with single spaces gives the header back |
| OrderAuth.SplitPieces | order-service/src/middleware/auth.js:8 | no piece holds a space, and n spaces give n + 1 pieces |
| OrderAuth.TokenOf | order-service/src/middleware/auth.js:7-10 | a token exists exactly when the header has a non-empty second piece, and it holds no space |
| OrderAuth.TokenOfBuilt | order-service/src/middleware/auth.js:8 | any scheme word, a space and a space-free token yield that token |
| OrderAuth.TokenOfShape | order-service/src/middleware/auth.js:8 | a header that yields a token is a first word, a space, the token, and the rest after a space |
| OrderAuth.NoSpaceNoToken | order-service/src/middleware/auth.js:8-15 | a header without a space, such as a bare token, yields no token |
| OrderAuth.Authenticate | order-service/src/middleware/auth.js:6-30 | 401 "Token JWT manquant" without a token; `next` with the payload exactly when the library accepts the token; 403 "Token JWT invalide ou expiré" when it rejects it |
| OrderAuth.AdminGate | order-service/src/middleware/auth.js:35-51 | 401 without a user; `next` exactly for the role `ADMIN`; 403 for any other user |
| OrderAuth.AdminRouteReached | order-service/src/middleware/auth.js:6-51 | a route behind both middlewares is reached exactly when the token is accepted and its payload has the role `ADMIN` |
| OrderAuth.BearerHeaderAuthenticates | order-service/src/middleware/auth.js:6-30 | `Bearer <token>` reaches the library with that token |
| OrderAuth.Exchange.AuthenticateToken | order-service/src/middleware/auth.js:6-30 | the response or the user and the `next` call are exactly those `Authenticate` decides |
| OrderAuth.Exchange.RequireAdmin | order-service/src/middleware/auth.js:35-51 | the response or the `next` call is exactly what `AdminGate` decides, and the user is kept |

## Left out

- JSON decoding by Jackson and `JSON.parse` is not modelled. A message is modelled as already read: either `Malformed` or its fields.
- Password hashing (BCrypt) is an opaque `encode` function, and so are JWT signing, parsing and expiry. The model states how their results are used, not how they are computed.
- A token's blacklist expiry is an instant in seconds. `LocalDateTime` and time zones are left out.
- The hourly scheduler of `TokenBlacklistService` is not modelled. `CleanupExpiredTokens` takes `now` as a parameter.
- Concurrency (the `ConcurrentHashMap`, concurrent listeners, transactions and rollback) is not modelled. Each operation runs alone.
- The order service's connection delay, the sleep between attempts and all logging are left out, because they do not change state.
- `process.exit(1)` is the `Exited` outcome of the connection loop.
- A failure of `findByIdAndUpdate`, such as an invalid `ObjectId`, leaves the delivery unacknowledged. This is not modelled: the update is total.
- A body that parses but whose `data` is missing is treated as unparsable, since both throw before the update.
- `jwt.verify`'s payload is modelled as a map of string claims. A payload that is not an object is left out.
- `AuthController.authenticateUser` (login through Spring Security's authentication manager) is not part of this model.
- The unexpected-error branches are not modelled (the 500 answer of `logoutUser`, the "Erreur de validation" answer of `verifyToken`). They cannot be reached because the collaborators are total functions.
- The product table's `totalStockValue` is not modelled, and neither are the paginated, search and count queries of the services and controllers (`getAllUsers`, `searchUsers` and similar): they only read.
- Bean validation annotations (`@Valid`, `@NotBlank`, `@Email`) are not checked. The model takes every request as already validated.
- The `createdAt`/`updatedAt` timestamps are not modelled.
- `Integer.parseInt` and `Character.isWhitespace` cover ASCII only. Unicode digits and whitespace are not modelled.
- UserService.UserServiceImpl.UpdateUser: the update is computed on a value (`UserService.Merged`) and then stored. The in-place mutation of the loaded entity by `updateEntityFromDto` is not modelled separately.
- Users.UserRepository.FindByEmail: when two rows hold the email, Spring's single-result query throws `IncorrectResultSizeDataAccessException`, so `DataInitializer.createUserIfNotExists` aborts start-up; the model returns one of the holders instead. Every contract that depends on it assumes unique emails.
- OrderMessaging.StockReplyDecidesStatus: it relates the stock service's answer to the order's new status. Transport through the broker, redelivery and reordering are not modelled.
