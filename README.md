# CakeShop core in Dafny

This project models the core of the CakeShop backend: a Spring service selling cakes, with carts, orders, sales (discounts), reviews, categories and pastry chefs, guarded by stateless bearer-token authentication with a logout blacklist.

- **Persistence** is one `Store` object (`Repositories`). It holds one map per table, from identifier to entity, and a counter that hands out fresh identifiers. Each derived query of the Spring Data repositories (`findByUsername`, `existsByNameAndBirthDate`, `findByUserId`, …) is a function or method over these maps.
- **Entities** whose fields the code changes in place (`User`, `Cart`, `Cake`, `Category`, `PastryChef`, `Order`, `Sale`) are classes. `Review`, which is only created and saved, is a datatype (`Models`). Collection fields (`Set<Cake>`, `List<Cake>`) are `set`/`seq` fields that the methods reassign.
- **Services** (`UserService`, `CartService`, `OrderService`, `CategoryService`, `CakeService`, `PastryChefService`, `ReviewService`) are methods on the store. Each returns a `Result`/`Outcome` value. Its contract says which inputs lead to which of the exceptions the code throws, and what a success stores. Exceptions raised only by the database or by JPA are mostly outside the model (see "Left out").
- **Mappers** (`CakeMapper`, `SaleMapper`, `PastryChefMapper`) convert between entities and transfer objects. Their lookups of referenced rows are functions, so the lemmas can state when a conversion fails and what it links.
- **Controllers** (`UserController`, `CakeOrderController`, `CakeController`, `ReviewController`) turn service results into HTTP replies (`Http.Reply`: a bare status, a 200 with a body, or a 201 with a location).
- **Authentication**:
  - `JwtUtil` (`Jwt`) derives and caches the signing key and issues and reads tokens. The token format is an abstract `Codec` whose soundness is the only assumption made about it.
  - `JwtAuthenticationFilter` (`JwtFilter`) extracts and checks the bearer token of each request.
  - `TokenBlacklistService` (`TokenBlacklist`) is the set of revoked tokens.

Clocks, UUIDs and dates are parameters. Prices are `real`.

## Model

| member | source | states |
|---|---|---|
| Jwt.WholeSeconds | src/main/java/com/awbd/cakeshop/utils/JwtUtil.java:54-61 | An instant written as a JWT date keeps only whole seconds: the result is at most the instant, under a second below it, and a multiple of 1000 ms. |
| Jwt.IsValid | src/main/java/com/awbd/cakeshop/utils/JwtUtil.java:77-84 | `validateToken` is false for a revoked token and when the key cannot be built; true only when the token parses. |
| Jwt.UsernameOf | src/main/java/com/awbd/cakeshop/utils/JwtUtil.java:66-68 | `getUsernameFromToken` gives no name when the key cannot be built (every failure reads as null). |
| Jwt.RoleOf | src/main/java/com/awbd/cakeshop/utils/JwtUtil.java:70-75 | `getRoleFromToken` gives no role when the key cannot be built, and a role only for a token that parses. |
| Jwt.IssuedTokenAccepted | src/main/java/com/awbd/cakeshop/utils/JwtUtil.java:51-84 | A token issued for a user and not revoked is valid and gives back the user name and role at every instant before its expiry, rounded down to the second. |
| Jwt.IssuedTokenExpires | src/main/java/com/awbd/cakeshop/utils/JwtUtil.java:77-84 | From its rounded-down expiry on, an issued token is never valid again. |
| Jwt.LifetimeBounds | src/main/java/com/awbd/cakeshop/utils/JwtUtil.java:24-25 | A token lives at most its time-to-live, and loses less than one second of it. |
| Jwt.JwtUtil.SigningKey | src/main/java/com/awbd/cakeshop/utils/JwtUtil.java:34-49 | The key is the one the secret gives, or a refusal when the secret is under 32 UTF-8 bytes. It is cached exactly when it was built, and once cached it is never derived again. |
| Jwt.JwtUtil.GenerateToken | src/main/java/com/awbd/cakeshop/utils/JwtUtil.java:51-64 | A short secret throws `IllegalState`. Otherwise the token is the signature over the subject, the role name, `iat` = now and `exp` = now + ttl. |
| Jwt.JwtUtil.ParseClaims | src/main/java/com/awbd/cakeshop/utils/JwtUtil.java:90-96 | Parsing with the cached or freshly built key gives the verified claims, and no claims on any failure. |
| Jwt.JwtUtil.GetUsernameFromToken | src/main/java/com/awbd/cakeshop/utils/JwtUtil.java:66-68 | Gives the subject of a token that parses, else nothing. |
| Jwt.JwtUtil.GetRoleFromToken | src/main/java/com/awbd/cakeshop/utils/JwtUtil.java:70-75 | Gives the `role` claim looked up by exact name, else nothing. |
| Jwt.JwtUtil.IsTokenBlacklisted | src/main/java/com/awbd/cakeshop/utils/JwtUtil.java:86-88 | True exactly when the shared blacklist holds the token. |
| Jwt.JwtUtil.ValidateToken | src/main/java/com/awbd/cakeshop/utils/JwtUtil.java:77-84 | Equals `IsValid` over the shared blacklist. A revoked token is refused without touching the key cache. |
| TokenBlacklist.TokenBlacklistService.InvalidateToken | src/main/java/com/awbd/cakeshop/controllers/UserController.java:100-102 | Logout adds exactly that token to the revoked set. |
| JwtFilter.ExtractBearer | src/main/java/com/awbd/cakeshop/utils/JwtAuthenticationFilter.java:80-90 | No header, or no case-insensitive `Bearer ` prefix, gives no token. A token that is given is non-empty and trimmed. |
| JwtFilter.ExtractBearerRecoversCredential | src/main/java/com/awbd/cakeshop/utils/JwtAuthenticationFilter.java:80-90 | Whatever the case of the scheme, the padding and one pair of quotes, the exact credential the client sent is extracted. |
| JwtFilter.ExtractBearerAfterScheme | src/main/java/com/awbd/cakeshop/utils/JwtAuthenticationFilter.java:82-87 | Past an accepted scheme, only the rest of the header decides: trimmed, unquoted once, none if empty. |
| JwtFilter.UnquoteRecovers | src/main/java/com/awbd/cakeshop/utils/JwtAuthenticationFilter.java:84-86 | Unquoting gives back a plain credential, whether or not it was wrapped in quotes. |
| JwtFilter.CompactIsPlain | src/main/java/com/awbd/cakeshop/utils/JwtAuthenticationFilter.java:83-87 | A compact JWS token is non-empty, unpadded and unquoted, so extraction leaves it alone. |
| JwtFilter.AuthenticationFor | src/main/java/com/awbd/cakeshop/utils/JwtAuthenticationFilter.java:44-70 | An authentication is only earned from an extracted token, and its principal is that token's subject. |
| JwtFilter.IssuedTokenAuthenticates | src/main/java/com/awbd/cakeshop/utils/JwtAuthenticationFilter.java:44-61 | A token issued for a named user and sent as `Bearer <token>` authenticates that user with `ROLE_<role>` until it expires or is revoked. |
| JwtFilter.ExtractedTokenAuthenticates | src/main/java/com/awbd/cakeshop/utils/JwtAuthenticationFilter.java:46-61 | Any header from which a live, unrevoked, issued token is extracted authenticates its user with the issued role. |
| JwtFilter.BearerCompactRecovered | src/main/java/com/awbd/cakeshop/utils/JwtAuthenticationFilter.java:80-90 | `Bearer <token>` gives back a compact token unchanged. |
| JwtFilter.FilterChain.DoFilter | src/main/java/com/awbd/cakeshop/utils/JwtAuthenticationFilter.java:77 | The chain is entered exactly once more. |
| JwtFilter.JwtAuthenticationFilter.DoFilterInternal | src/main/java/com/awbd/cakeshop/utils/JwtAuthenticationFilter.java:33-78 | An authenticated request passes untouched. Otherwise the context ends up holding exactly `AuthenticationFor` the header, or nothing. The chain runs once either way. |
| JavaLang.Trim | src/main/java/com/awbd/cakeshop/services/UserService.java:43-45 | `trim()` gives a trimmed string no longer than its input. It is empty exactly when every character is at most U+0020, and an already trimmed string is returned unchanged. |
| JavaLang.TrimEmptyIff | src/main/java/com/awbd/cakeshop/services/UserService.java:43-45 | `trim().isEmpty()` holds exactly when the string has no character above U+0020. |
| JavaLang.TrimIdempotent | src/main/java/com/awbd/cakeshop/services/CategoryService.java:28 | Trimming twice is trimming once. |
| JavaLang.TrimPadded | src/main/java/com/awbd/cakeshop/utils/JwtAuthenticationFilter.java:83 | Trimming removes any padding of characters up to U+0020 around a trimmed, non-empty string. |
| JavaLang.BlankAndTrimEmptyDiffer | src/main/java/com/awbd/cakeshop/mappers/CakeMapper.java:117-118 | `isBlank()` and `trim().isEmpty()` disagree both ways: U+2000 is blank but survives trim, and NUL is trimmed but not blank. |
| JavaLang.UpperChar | src/main/java/com/awbd/cakeshop/controllers/UserController.java:55 | Upper-casing yields an ASCII capital only from an ASCII letter, dotless i or long s. |
| JavaLang.ToUpperCase | src/main/java/com/awbd/cakeshop/controllers/UserController.java:55 | A per-character model of `toUpperCase()`: the length is kept and each character is mapped by `UpperChar` alone (ASCII letters, dotless `ı` to `I`, long `ſ` to `S`). |
| JavaLang.StartsWithIgnoresCase | src/main/java/com/awbd/cakeshop/utils/JwtAuthenticationFilter.java:82 | An exact prefix also matches under `regionMatches(true, ...)`. |
| JavaLang.Utf16Length | src/main/java/com/awbd/cakeshop/services/UserService.java:39-41 | `length()` counts UTF-16 units: between one and two per character. |
| JavaLang.Utf8Length | src/main/java/com/awbd/cakeshop/utils/JwtUtil.java:40-41 | `getBytes(UTF_8).length` is between one and four bytes per character. |
| JavaLang.NatToStringRoundTrip | src/main/java/com/awbd/cakeshop/controllers/ReviewController.java:49 | The decimal digits of an identifier read back as that identifier. |
| JavaLang.LongToString | src/main/java/com/awbd/cakeshop/controllers/ReviewController.java:49 | `Long.toString` is non-empty and starts with '-' exactly for a negative number. |
| JavaLang.ListRemove | src/main/java/com/awbd/cakeshop/models/PastryChef.java:49-52 | `List.remove(Object)` leaves a list without the element unchanged, and shortens one that has it by exactly one. |
| JavaLang.ListRemoveCounts | src/main/java/com/awbd/cakeshop/models/Sale.java:70-75 | `List.remove(Object)` takes away exactly one occurrence and nothing else (as multisets). |
| Models.RoleValueOf | src/main/java/com/awbd/cakeshop/controllers/UserController.java:55 | `Role.valueOf` succeeds exactly for "ADMIN" and "USER", case-sensitively, and names the role it returns. |
| Models.RoleNameRoundTrip | src/main/java/com/awbd/cakeshop/utils/JwtUtil.java:53 | `valueOf(role.name())` gives the role back, so the `role` claim a token carries is read back as issued. |
| Models.Cart.ForUser | src/main/java/com/awbd/cakeshop/models/Cart.java:33-35 | A new cart is linked to the user and holds no cakes. |
| Models.Cart.AddCake | src/main/java/com/awbd/cakeshop/models/Cart.java:37-39 | Set insertion; adding a cake already there changes nothing. |
| Models.Cart.RemoveCake | src/main/java/com/awbd/cakeshop/models/Cart.java:41-43 | Set removal; removing an absent cake changes nothing. |
| Models.Cart.SetUserId | src/main/java/com/awbd/cakeshop/models/Cart.java:45-50 | The linked user ends with that identifier. An existing user object is re-keyed in place and keeps its name, password, role and cart; when there is none, a fresh user with no other field set is created first. |
| Models.Order.ForUser | src/main/java/com/awbd/cakeshop/models/Order.java:44-47 | A new order is linked to the user, dated now, with no cakes, total or sale. |
| Models.Order.AddCake | src/main/java/com/awbd/cakeshop/models/Order.java:49-51 | Set insertion; adding a cake already there changes nothing. |
| Models.Order.RemoveCake | src/main/java/com/awbd/cakeshop/models/Order.java:53-55 | Set removal; removing an absent cake changes nothing. |
| Models.Order.SetUserId | src/main/java/com/awbd/cakeshop/models/Order.java:57-62 | As for the cart: the linked user, existing or new, ends with that identifier. An existing one keeps its other fields, and a new one has none set. |
| Models.SaleCodeFrom | src/main/java/com/awbd/cakeshop/models/Sale.java:59-61 | A sale code is 13 characters: `SALE-` then the first eight characters of the UUID upper-cased. |
| Models.Sale.Blank | src/main/java/com/awbd/cakeshop/models/Sale.java:25-47 | A new sale has a generated code, is active, has no categories and no description. |
| Models.Sale.constructor | src/main/java/com/awbd/cakeshop/models/Sale.java:50-56 | The percentage and dates are as given. The sale is active, has a generated code and has no categories. |
| Models.Sale.AddCategory | src/main/java/com/awbd/cakeshop/models/Sale.java:63-68 | Links both sides once: an unlinked category is appended to the sale and the sale to the category. An already linked one is left alone. |
| Models.Sale.RemoveCategory | src/main/java/com/awbd/cakeshop/models/Sale.java:70-75 | Unlinks the first occurrence on both sides, and only when the category is linked. |
| Models.Sale.UpdateStatusIfNeeded | src/main/java/com/awbd/cakeshop/models/Sale.java:78-83 | The sale is active exactly when today lies in the closed range [start, end], and the flag stored is the one returned. |
| Models.Category.Named | src/main/java/com/awbd/cakeshop/models/Category.java:30-33 | A new category has the given name and description and no sales. |
| Models.PastryChef.AddCake | src/main/java/com/awbd/cakeshop/models/PastryChef.java:44-47 | Appends the cake and points it back at this chef. |
| Models.PastryChef.RemoveCake | src/main/java/com/awbd/cakeshop/models/PastryChef.java:49-52 | Drops the first occurrence and detaches the cake, whether or not it was listed. |
| Repositories.Store.FindByUsername | src/main/java/com/awbd/cakeshop/repositories/UserRepository.java:14 | Finds a user exactly when `existsByUsername` holds, and the user found is stored and carries that name. |
| UserService.BCryptHashIsStrong | src/main/java/com/awbd/cakeshop/services/UserService.java:28-29 | Anything the BCrypt pattern accepts is long enough to count as a strong password. |
| UserService.StandardHashMatches | src/main/java/com/awbd/cakeshop/services/UserService.java:28-29 | A hash in the standard `$2a$NN$` form of 53 salt-and-hash characters passes the pattern. |
| UserService.AdminCountOfRows | src/main/java/com/awbd/cakeshop/services/UserService.java:51-56 | The repository's administrator count is the number of administrator rows. |
| UserService.ConsistentRowsInsert | src/main/java/com/awbd/cakeshop/services/UserService.java:58-92 | Storing a complete user under a free name, who is not a fourth administrator, keeps the table consistent: names unique and valid, at most three administrators. |
| UserService.ConsistentRowsRename | src/main/java/com/awbd/cakeshop/services/UserService.java:98-123 | Renaming one user to a free valid name, with or without a new password, keeps the table consistent. |
| UserService.ConsistentRowsRemove | src/main/java/com/awbd/cakeshop/services/UserService.java:125-130 | Dropping a user keeps the table consistent. |
| UserService.CreateRejection | src/main/java/com/awbd/cakeshop/services/UserService.java:58-73 | `create` checks in order: name valid, name free, password strong, role present, administrator limit. The first rule broken decides, and there is no rejection exactly when all pass. |
| UserService.AdminCountOnlyLimitsAdmins | src/main/java/com/awbd/cakeshop/services/UserService.java:71-73 | The administrator count changes the outcome only when an administrator is being created. |
| UserService.Create | src/main/java/com/awbd/cakeshop/services/UserService.java:58-92 | Rejected users change nothing. Otherwise the user is stored under a fresh identifier, with a BCrypt-shaped password kept and any other encoded, and one new empty cart linked to it is stored. The table stays consistent. |
| UserService.SaveWithCart | src/main/java/com/awbd/cakeshop/services/UserService.java:78-87 | The user row and then a new empty cart linked to the saved user are stored, each under the next identifier. |
| UserService.FindById | src/main/java/com/awbd/cakeshop/services/UserService.java:94 | The user stored under the identifier, exactly when there is one. |
| UserService.FoundByIdCarriesId | src/main/java/com/awbd/cakeshop/services/UserService.java:94 | In a consistent user table, the user found by an identifier carries that identifier and a valid name. |
| UserService.UpdateRejection | src/main/java/com/awbd/cakeshop/services/UserService.java:100-115 | `update` checks, in order: a changed name must be free, then valid; a provided password must be strong or hash-shaped. |
| UserService.Update | src/main/java/com/awbd/cakeshop/services/UserService.java:98-123 | An unknown identifier is `UserNotFound`. A rejected update leaves that user's name and password as they were. Otherwise that user is renamed, its password replaced (kept or encoded) only when a non-blank one is provided, and nothing else changes. The table stays consistent. |
| UserService.Delete | src/main/java/com/awbd/cakeshop/services/UserService.java:125-130 | An unknown identifier is `UserNotFound`; otherwise exactly that row goes. |
| UserService.ChangePasswordRejection | src/main/java/com/awbd/cakeshop/services/UserService.java:134-145 | `changePassword` checks, in order: user exists, both passwords given, old password matches, new password strong. |
| UserService.ChangePassword | src/main/java/com/awbd/cakeshop/services/UserService.java:133-149 | A refused change leaves the password as it was. Otherwise the new password is always encoded, even when it looks like a hash, and nothing else changes. |
| UserController.ParseRole | src/main/java/com/awbd/cakeshop/controllers/UserController.java:50-59 | A missing or blank role is USER. Otherwise the trimmed, upper-cased text must be exactly a role name, else `InvalidRole`. |
| UserController.ParseRoleAnyCasePadded | src/main/java/com/awbd/cakeshop/controllers/UserController.java:50-59 | A role name in any case, padded with blanks, parses to that role. |
| UserController.BearerCredential | src/main/java/com/awbd/cakeshop/controllers/UserController.java:100-101 | Logout revokes a token only after a case-sensitive `Bearer `, and only the trimmed rest of the header. |
| UserController.MeResponse | src/main/java/com/awbd/cakeshop/controllers/UserController.java:109-121 | `me` answers 401 without the case-sensitive scheme or for an invalid token, else 200 with the token's name and role. |
| UserController.IssuedTokenPassesMe | src/main/java/com/awbd/cakeshop/controllers/UserController.java:109-121 | An issued token sent back as `Bearer <token>` before it expires, and while it is not revoked, is answered with its user's name and role. |
| UserController.LoginAnswer | src/main/java/com/awbd/cakeshop/controllers/UserController.java:82-95 | A wrong password is 401. A user without a role fails. Otherwise the body carries the user, a freshly signed token and `tokenType` "Bearer". |
| UserController.LoginTokenAuthenticates | src/main/java/com/awbd/cakeshop/controllers/UserController.java:77-96 | The token a successful login hands out authenticates the user who logged in, with that user's role, through the filter until it expires or is revoked. |
| UserController.UserController.NewUser | src/main/java/com/awbd/cakeshop/controllers/UserController.java:65-68 | The new user has exactly the given name, password and role, and nothing else is set. |
| UserController.UserController.RegisterUser | src/main/java/com/awbd/cakeshop/controllers/UserController.java:63-75 | A missing name throws before anything else, then the role is parsed, then `create` decides. A created user is answered with 201 and a location naming its new identifier. |
| UserController.UserController.RegisterParsed | src/main/java/com/awbd/cakeshop/controllers/UserController.java:65-74 | Creation is refused with the first broken rule and nothing stored, or the user is stored as `create` promises and answered with 201 at `/api/users/<id>`. |
| UserController.UserController.Login | src/main/java/com/awbd/cakeshop/controllers/UserController.java:77-96 | Missing fields read as empty and the name is trimmed. An unknown name is 401; a known one is answered by `LoginAnswer` for the user stored under it. |
| UserController.UserController.LoginFound | src/main/java/com/awbd/cakeshop/controllers/UserController.java:83-91 | Once the user is found, the answer is `LoginAnswer` for that user. |
| UserController.UserController.Logout | src/main/java/com/awbd/cakeshop/controllers/UserController.java:98-106 | Always 200. The blacklist grows by `BearerCredential(header)` and by nothing else. |
| UserController.UserController.LogoutCorrected | src/main/java/com/awbd/cakeshop/controllers/UserController.java:98-106 | Always 200. The blacklist grows by exactly the token the filter would extract from the header. |
| UserController.UserController.Me | src/main/java/com/awbd/cakeshop/controllers/UserController.java:109-121 | The answer is `MeResponse` for the header against the current blacklist. |
| UserController.CorrectedLogoutDisarmsHeader | src/main/java/com/awbd/cakeshop/utils/JwtAuthenticationFilter.java:44-51 | After the corrected logout, the same header earns no authentication at all. |
| UserController.LogoutMissesLowerCaseScheme | src/main/java/com/awbd/cakeshop/controllers/UserController.java:100 | With the header `bearer <token>`, logout as written revokes nothing, and the filter still authenticates the token. |
| UserController.LowerCaseSchemeAccepted | src/main/java/com/awbd/cakeshop/utils/JwtAuthenticationFilter.java:82-87 | The filter extracts the token from a lower-case `bearer ` header. |
| UserController.LowerCaseSchemeMatches | src/main/java/com/awbd/cakeshop/utils/JwtAuthenticationFilter.java:82 | `regionMatches(true, ...)` equates `bearer ` with `Bearer `. |
| UserController.LogoutKeepsQuotes | src/main/java/com/awbd/cakeshop/controllers/UserController.java:101 | With the header `Bearer "<token>"`, logout as written revokes the quoted text, and the filter still authenticates the bare token. |
| UserController.QuotedCredentialRecovered | src/main/java/com/awbd/cakeshop/utils/JwtAuthenticationFilter.java:83-86 | The filter extracts the bare token from a quoted credential. |
| CartService.AddCakeRejection | src/main/java/com/awbd/cakeshop/services/CartService.java:48-61 | Checks in order: cart exists, cake not already in the cart, cake exists, stock positive. Each exception is tied to exactly its case (an if-and-only-if per exception). |
| CartService.StockOf | src/main/java/com/awbd/cakeshop/services/CartService.java:56-59 | The stock of the stored cake, exactly when the cake is stored. |
| CartService.CreateCartForUser | src/main/java/com/awbd/cakeshop/services/CartService.java:33-40 | An unknown user is `UserNotFound` and changes nothing. A user who already has a cart is refused as the unique `user_id` column refuses it, changing nothing. Otherwise, and exactly then, a new empty cart for the stored user is saved under a fresh identifier. |
| CartService.GetCartByUserId | src/main/java/com/awbd/cakeshop/services/CartService.java:42-45 | Fails with `CartNotFound` exactly when the user has no cart, and is never empty; on success it gives a stored cart of that user. |
| CartService.AddCakeToCart | src/main/java/com/awbd/cakeshop/services/CartService.java:48-65 | The outcome is the first failing check. On success exactly the stored cake is added to exactly that cart; on failure the cart is unchanged. |
| CartService.AddedCakeIsRefusedAgain | src/main/java/com/awbd/cakeshop/services/CartService.java:52-54 | Once a cake is in the cart, adding it again is refused as already in the cart. |
| CartService.ClearCart | src/main/java/com/awbd/cakeshop/services/CartService.java:68-74 | An unknown cart is `CartNotFound`; otherwise the cart is left with no cakes and keeps its identifier. |
| CartService.GetCakesInCart | src/main/java/com/awbd/cakeshop/services/CartService.java:83-88 | An unknown cart is `CartNotFound` (if and only if); otherwise exactly the cart's cakes. |
| CartService.CalculateTotalPrice | src/main/java/com/awbd/cakeshop/services/CartService.java:76-81 | An unknown cart is `CartNotFound` (if and only if). A cart with no cakes makes `SUM` null, which the `double` query cannot return (`AopInvocation`). Otherwise the sum of the cart's cake prices, the total without a sale. |
| CartService.AddedCakeRaisesTotal | src/main/java/com/awbd/cakeshop/repositories/CartRepository.java:26-27 | Adding a cake not yet in the cart raises the summed price by exactly that cake's price. |
| OrderService.Charge | src/main/java/com/awbd/cakeshop/services/OrderService.java:66-72 | A cake costs its price, or its price reduced by the percentage when the sale covers its category. |
| OrderService.TotalRemove | src/main/java/com/awbd/cakeshop/services/OrderService.java:66-72 | The total over a set does not depend on which cake is taken first, so the loop's iteration order is irrelevant. |
| OrderService.TotalWithoutSale | src/main/java/com/awbd/cakeshop/services/OrderService.java:52-55 | Without a sale the total is the sum of the prices. |
| OrderService.UncoveredSaleChangesNothing | src/main/java/com/awbd/cakeshop/services/OrderService.java:63-72 | A sale that covers none of the cakes' categories leaves the total at full price. |
| OrderService.SaleNeverRaisesTotal | src/main/java/com/awbd/cakeshop/services/OrderService.java:63-72 | With non-negative prices and a percentage between 0 and 100, the discounted total lies between 0 and the full-price total. |
| OrderService.ChargeBounds | src/main/java/com/awbd/cakeshop/services/OrderService.java:68 | A discounted charge lies between 0 and the full price. |
| OrderService.SumCharges | src/main/java/com/awbd/cakeshop/services/OrderService.java:50-72 | The loop adds up exactly the total of the order's cakes under the sale, or without one. |
| OrderService.FirstMissing | src/main/java/com/awbd/cakeshop/services/OrderService.java:44-48 | No identifier is missing exactly when every listed identifier is stored; a missing one is a listed, unstored identifier. |
| OrderService.CakesOf | src/main/java/com/awbd/cakeshop/services/OrderService.java:44-48 | The set of stored cakes named by the identifiers: every one of them, and no other. |
| OrderService.CollectCakes | src/main/java/com/awbd/cakeshop/services/OrderService.java:44-48 | The loop stops at the first unknown identifier. When none is unknown, the order gains exactly the cakes named. |
| OrderService.FirstMissingAt | src/main/java/com/awbd/cakeshop/services/OrderService.java:44-48 | The first unknown identifier is the one the loop stops at. |
| OrderService.CreateOrderRejection | src/main/java/com/awbd/cakeshop/services/OrderService.java:35-48 | Checks in order: user exists, list non-empty, every cake exists. Each exception is tied to its case. |
| OrderService.CreateOrder | src/main/java/com/awbd/cakeshop/services/OrderService.java:34-77 | Any failure saves nothing. A saved order belongs to the user and holds the set of the listed cakes. Its total is the total under the sale, or the sum of prices without one. It is stored under the next identifier. A sale another order already carries is refused by the unique `sale_id` column (`DataIntegrityViolation`). Users, carts, cakes, categories, chefs, sales and reviews are left alone. |
| OrderService.PriceAndSave | src/main/java/com/awbd/cakeshop/services/OrderService.java:50-76 | An unknown sale throws `SaleNotFound` and saves nothing. A sale already carried by a stored order is refused by the unique `sale_id` column and saves nothing. Otherwise the order carries the sale and its total and is saved. |
| OrderService.DiscountOf | src/main/java/com/awbd/cakeshop/services/OrderService.java:63-64 | A sale grants its percentage on its categories. |
| OrderService.OrdersOfUser | src/main/java/com/awbd/cakeshop/services/OrderService.java:79-84 | Exactly the stored orders whose user has that identifier. |
| OrderService.GetUserOrderHistory | src/main/java/com/awbd/cakeshop/services/OrderService.java:79-84 | A null user is `UserNotFound`; otherwise exactly that user's orders. |
| OrderService.GetAllOrders | src/main/java/com/awbd/cakeshop/services/OrderService.java:86-88 | Every stored order. |
| OrderService.ResolveCakes | src/main/java/com/awbd/cakeshop/services/OrderService.java:109-114 | Succeeds exactly when every identifier is stored, with the set of cakes named. Otherwise `CakeNotFound` for one of the unknown identifiers. |
| OrderService.UpdateOrder | src/main/java/com/awbd/cakeshop/services/OrderService.java:95-118 | An unknown order is `OrderNotFound`. A new, different user is set before the cake check, so it stays even when that check fails. Missing or empty identifiers are `EmptyCart`. Otherwise the cakes become the set found. |
| CakeOrderController.CakeIdsOf | src/main/java/com/awbd/cakeshop/controllers/CakeOrderController.java:70-72 | One identifier per cake of the cart, covering exactly the cart's identifiers. |
| CakeOrderController.CakeIdsRemove | src/main/java/com/awbd/cakeshop/controllers/CakeOrderController.java:70-72 | The identifiers of a set are those of the rest plus the removed cake's. |
| CakeOrderController.DiscountId | src/main/java/com/awbd/cakeshop/controllers/CakeOrderController.java:74 | No request body gives no sale; a body gives its `discountId`, itself possibly absent. |
| CakeOrderController.Checkout | src/main/java/com/awbd/cakeshop/controllers/CakeOrderController.java:65-77 | `CheckedOut`: a missing cart is `CartNotFound`, and an empty cart is `IllegalState`. A non-empty cart gives exactly the outcome `createOrder` has for the cart's cake identifiers and the requested sale: `UserNotFound`, `CakeNotFound`, `SaleNotFound` or `DataIntegrityViolation`, or the saved order with the user, `now`, the cakes and the total. Any failure changes nothing. On success the cart ends empty. |
| CakeOrderController.OrderCart | src/main/java/com/awbd/cakeshop/controllers/CakeOrderController.java:70-77 | `Ordered`: the outcome is `createOrder`'s for the cart's cake identifiers and the requested sale, success and every failure. The cart is emptied only after the order is saved, so a failed order leaves the cart as it was. |
| CakeOrderController.PlaceOrder | src/main/java/com/awbd/cakeshop/controllers/CakeOrderController.java:70-76 | `Ordered`: the order is created from exactly the cart's cake identifiers and `DiscountId(request)`. An unknown user, no cakes, an unknown cake, an unknown or already used sale fail as `createOrder` does and change nothing. Otherwise the saved order has the total under the sale. |
| CakeOrderController.AsReply | src/main/java/com/awbd/cakeshop/controllers/CakeOrderController.java:76-80 | A created order is answered with 200 and that order; a thrown exception propagates unchanged. |
| CakeOrderController.OrderReply | src/main/java/com/awbd/cakeshop/controllers/CakeOrderController.java:65-80 | For a known caller, the reply is `AsReply` of the checkout's outcome, which is `CheckedOut`. A failure changes nothing; a 200 empties the cart. |
| CakeOrderController.CakeOrderController.Caller | src/main/java/com/awbd/cakeshop/controllers/CakeOrderController.java:59-63 | The caller is found exactly when the token after `Bearer ` names a stored user, and is that user. |
| CakeOrderController.CakeOrderController.CreateOrder | src/main/java/com/awbd/cakeshop/controllers/CakeOrderController.java:52-81 | 401 without the case-sensitive scheme. An unknown caller is `UserNotFound`. For a known caller the reply is `AsReply` of the checkout outcome (`CheckedOut`) for that caller's cart and the requested sale. Failures change nothing. A 200 carries an order of exactly the caller's former cart cakes, and that cart is now empty. |
| CakeOrderController.CakeOrderController.GetUserOrderHistory | src/main/java/com/awbd/cakeshop/controllers/CakeOrderController.java:84-102 | 401 without the scheme. `UserNotFound` exactly for an unknown caller, and no other failure. Otherwise 204 for no orders, else exactly the caller's orders. |
| CakeOrderController.CakeOrderController.GetAllOrders | src/main/java/com/awbd/cakeshop/controllers/CakeOrderController.java:106-113 | 204 exactly when there are no orders, else all of them. |
| CategoryService.TrimmedName | src/main/java/com/awbd/cakeshop/services/CategoryService.java:27-28 | Null stays null. Otherwise the name is trimmed, no longer than before, and unchanged when already trimmed. |
| CategoryService.TrimmedNameIdempotent | src/main/java/com/awbd/cakeshop/services/CategoryService.java:28 | A trimmed name is its own trimmed form. |
| CategoryService.CreateRejection | src/main/java/com/awbd/cakeshop/services/CategoryService.java:30-40 | An empty or missing trimmed name is `IllegalArgument`, a taken one `CategoryAlreadyExists`; each exception is tied to exactly its case. |
| CategoryService.UpdateRejection | src/main/java/com/awbd/cakeshop/services/CategoryService.java:75-83 | An empty or missing name is `IllegalArgument`. A name that is someone else's is `DuplicateCategory`. The category's own name is always allowed. |
| CategoryService.KeepingOwnNameAllowed | src/main/java/com/awbd/cakeshop/services/CategoryService.java:78-79 | Keeping its own name is never a duplicate. |
| CategoryService.WellNamedInsert | src/main/java/com/awbd/cakeshop/services/CategoryService.java:36-45 | Storing a trimmed, non-empty, unused name keeps category names unique and trimmed. |
| CategoryService.WellNamedRename | src/main/java/com/awbd/cakeshop/services/CategoryService.java:78-88 | Renaming to a trimmed, non-empty name no other category has keeps the table well named. |
| CategoryService.CreateCategory | src/main/java/com/awbd/cakeshop/services/CategoryService.java:25-51 | Refused exactly as `CreateRejection` says, changing nothing. Otherwise stored under a fresh identifier with the trimmed name. Names stay unique and trimmed. |
| CategoryService.SaveNamed | src/main/java/com/awbd/cakeshop/services/CategoryService.java:42-45 | The category gets the trimmed name and the next identifier, and is stored. |
| CategoryService.GetCategoryById | src/main/java/com/awbd/cakeshop/services/CategoryService.java:53-56 | `CategoryNotFound` exactly for an unknown identifier, else the stored category. |
| CategoryService.Delete | src/main/java/com/awbd/cakeshop/services/CategoryService.java:63-68 | `CategoryNotFound` for an unknown identifier; otherwise exactly that row goes. The table stays well named. |
| CategoryService.Update | src/main/java/com/awbd/cakeshop/services/CategoryService.java:70-91 | An unknown identifier is refused before the name is looked at. Refusals follow `UpdateRejection`. Only that category's name and description change. The table stays well named. |
| CategoryService.Rename | src/main/java/com/awbd/cakeshop/services/CategoryService.java:85-88 | The category takes the new name and description and no other category changes. |
| SaleMapper.CategoryIds | src/main/java/com/awbd/cakeshop/mappers/SaleMapper.java:37-39 | One identifier per linked category, in order. |
| SaleMapper.ToDto | src/main/java/com/awbd/cakeshop/mappers/SaleMapper.java:25-44 | Every field is copied. `categoryIds` is absent exactly when the sale has no category, and otherwise lists the linked categories' identifiers. |
| SaleMapper.KeptOnlyKept | src/main/java/com/awbd/cakeshop/mappers/SaleMapper.java:84-88 | The first loop keeps only listed categories the sale held. |
| SaleMapper.KeptIds | src/main/java/com/awbd/cakeshop/mappers/SaleMapper.java:84-88 | After the first loop the linked identifiers are the old ones intersected with the listed ones. |
| SaleMapper.KeptNoDuplicates | src/main/java/com/awbd/cakeshop/mappers/SaleMapper.java:84-88 | Dropping categories never introduces a duplicate link. |
| SaleMapper.KeptStep | src/main/java/com/awbd/cakeshop/mappers/SaleMapper.java:84-88 | One more iteration of the first loop keeps or drops exactly one category. |
| SaleMapper.Unlink | src/main/java/com/awbd/cakeshop/mappers/SaleMapper.java:86 | `removeCategory` on a category the part before it does not hold removes exactly that occurrence. |
| SaleMapper.DropUnlisted | src/main/java/com/awbd/cakeshop/mappers/SaleMapper.java:83-88 | The first loop leaves exactly the held categories whose identifier is listed, in order. |
| SaleMapper.DropIfUnlisted | src/main/java/com/awbd/cakeshop/mappers/SaleMapper.java:85-87 | One step of the first loop advances the kept prefix by one. |
| SaleMapper.LinkedIdsHave | src/main/java/com/awbd/cakeshop/mappers/SaleMapper.java:92-93 | `alreadyLinked` holds exactly when a linked category carries the identifier. |
| SaleMapper.LinkedIdsAppend | src/main/java/com/awbd/cakeshop/mappers/SaleMapper.java:97 | Appending a category adds exactly its identifier. |
| SaleMapper.GrownAppend | src/main/java/com/awbd/cakeshop/mappers/SaleMapper.java:95-97 | Appending an unlinked stored category keeps the list an extension by stored categories without duplicates. |
| SaleMapper.LinkOne | src/main/java/com/awbd/cakeshop/mappers/SaleMapper.java:92-98 | An already linked identifier is skipped. An unknown one is `EntityNotFound`. Otherwise its category is appended and the linked identifiers grow by exactly it. |
| SaleMapper.LinkListed | src/main/java/com/awbd/cakeshop/mappers/SaleMapper.java:91-99 | Fails with `EntityNotFound` exactly when some listed identifier is neither linked nor stored. Otherwise the linked identifiers grow by exactly the listed ones. Links are only appended, new ones are stored categories, and no duplicate appears. |
| SaleMapper.ToEntity | src/main/java/com/awbd/cakeshop/mappers/SaleMapper.java:46-63 | Fails exactly when a listed identifier is not stored. Otherwise the new sale has the DTO's fields, is active unless told otherwise, and is linked to exactly the listed categories; `toDto` gives back the same fields and identifier set. |
| SaleMapper.KeptCoversListed | src/main/java/com/awbd/cakeshop/mappers/SaleMapper.java:83-99 | Dropping the unlisted categories first does not change which listed identifiers can be found. |
| SaleMapper.Relink | src/main/java/com/awbd/cakeshop/mappers/SaleMapper.java:81-100 | The two loops together link the sale to exactly the listed categories, or fail with `EntityNotFound` exactly when a listed identifier is neither linked nor stored. |
| SaleMapper.Overwrite | src/main/java/com/awbd/cakeshop/mappers/SaleMapper.java:72-79 | Percentage, dates and description are always written; the active flag only when given. |
| SaleMapper.UpdateEntityFromDto | src/main/java/com/awbd/cakeshop/mappers/SaleMapper.java:71-101 | Plain fields first. With no list the links stay. With a list, success leaves `toDto` reporting exactly the listed identifiers. A failure is `EntityNotFound`. Duplicates never appear. |
| CakeService.CakesInStock | src/main/java/com/awbd/cakeshop/services/CakeService.java:36-38 | Exactly the stored cakes with positive stock. |
| CakeService.Update | src/main/java/com/awbd/cakeshop/services/CakeService.java:49-69 | An unknown identifier is `EntityNotFound` (if and only if). Otherwise the five scalar fields are copied, the category and chef only when `data` has one, and the identifier is kept. |
| CakeService.InStockMovesOnlyUpdated | src/main/java/com/awbd/cakeshop/services/CakeService.java:36-69 | An update of one cake moves only that cake into or out of the in-stock list, by its new stock. |
| CakeMapper.ToDto | src/main/java/com/awbd/cakeshop/mappers/CakeMapper.java:29-50 | The category identifier is present exactly when there is a category. The chef identifier is present exactly when there is a chef, and the chef's name only then. |
| CakeMapper.ResolveChef | src/main/java/com/awbd/cakeshop/mappers/CakeMapper.java:109-124 | Equals `ChefLookup`: a given identifier wins, and an unknown one is `EntityNotFound`. Otherwise a non-blank name is trimmed and matched ignoring case: no match is `EntityNotFound`, several the non-unique error. Neither given means null. |
| CakeMapper.ChefLookupFinds | src/main/java/com/awbd/cakeshop/mappers/CakeMapper.java:109-124 | The lookup is null exactly when the DTO names no chef. A chef found by identifier carries it. A chef found by name is the only stored chef with that name ignoring case. |
| CakeMapper.Lookups | src/main/java/com/awbd/cakeshop/mappers/CakeMapper.java:62-69 | The category is looked up first, then the chef; the first failure decides. |
| CakeMapper.ToEntity | src/main/java/com/awbd/cakeshop/mappers/CakeMapper.java:52-75 | Fails exactly when a lookup fails, with that lookup's error. Otherwise it gives a new, unsaved cake with the DTO's fields, the category named and the chef resolved. |
| CakeMapper.Build | src/main/java/com/awbd/cakeshop/mappers/CakeMapper.java:53-72 | A new cake with the DTO's scalar fields, the given category and the given chef. |
| CakeMapper.MappedRoundTrip | src/main/java/com/awbd/cakeshop/mappers/CakeMapper.java:29-75 | `toDto(toEntity(d))` gives back the scalar fields and the category and chef identifiers. A chef named only by name comes back with an identifier. |
| CakeMapper.CopyScalars | src/main/java/com/awbd/cakeshop/mappers/CakeMapper.java:84-90 | The five scalar fields are written. |
| CakeMapper.UpdateEntityFromDto | src/main/java/com/awbd/cakeshop/mappers/CakeMapper.java:83-103 | Scalars are written first and stay written. Fails exactly when a lookup fails. A refused chef keeps the new category and the old chef. On success the category and chef change only when the DTO names one. |
| CakeMapper.SetCategory | src/main/java/com/awbd/cakeshop/mappers/CakeMapper.java:92-96 | Fails exactly when the named category is not stored. The category changes only when one is named and found. |
| CakeMapper.SetChef | src/main/java/com/awbd/cakeshop/mappers/CakeMapper.java:99-102 | Fails exactly when `resolveChef` throws. The chef changes only to a non-null chef it picks. |
| CakeController.GetAllCakes | src/main/java/com/awbd/cakeshop/controllers/CakeController.java:39-55 | A category filter wins. Otherwise a non-blank search text selects the name search. Otherwise all cakes. Each case holds if and only if. |
| CakeController.CategoryFilterIgnoresSearch | src/main/java/com/awbd/cakeshop/controllers/CakeController.java:44-47 | With a category filter the search text makes no difference. |
| CakeController.GetOne | src/main/java/com/awbd/cakeshop/controllers/CakeController.java:58-68 | 404 exactly for an unknown identifier, else 200 with the cake's DTO. |
| CakeController.MapThenUpdate | src/main/java/com/awbd/cakeshop/controllers/CakeController.java:94-96 | A refused mapping throws before the cake is looked up, and an unknown cake is `EntityNotFound`. On success the stored cake carries what the DTO says and keeps its identifier. |
| CakeController.UpdateCake | src/main/java/com/awbd/cakeshop/controllers/CakeController.java:92-102 | As written, the 404 answer is never given: every mapping or lookup error escapes. |
| CakeController.UpdateCakeCorrected | src/main/java/com/awbd/cakeshop/controllers/CakeController.java:92-102 | Only an ambiguous chef name still throws. An unknown cake is answered with 404. |
| CakeController.DeleteCake | src/main/java/com/awbd/cakeshop/controllers/CakeController.java:112-118 | The row goes, if there is one, and the answer is always 204. |
| PastryChefService.Create | src/main/java/com/awbd/cakeshop/services/PastryChefService.java:20-25 | An already stored (name, birth date) pair is `PastryChefAlreadyExists` and changes nothing. A chef without a name then fails on the `NOT NULL` name column (`DataIntegrityViolation`) and changes nothing. Otherwise the chef is stored under a fresh identifier. Pairs stay unique, stored chefs stay named, and a repeated create is refused. |
| PastryChefService.GetById | src/main/java/com/awbd/cakeshop/services/PastryChefService.java:27-30 | `PastryChefNotFound` exactly for an unknown identifier, else the stored chef. |
| PastryChefService.Update | src/main/java/com/awbd/cakeshop/services/PastryChefService.java:36-45 | `PastryChefNotFound` exactly for an unknown identifier. A missing new name fails on the `NOT NULL` name column (`DataIntegrityViolation`) and leaves the row as it was. Otherwise the stored chef takes the new name, biography and birth date and keeps its identifier and cakes. Stored chefs stay named. |
| PastryChefService.Delete | src/main/java/com/awbd/cakeshop/services/PastryChefService.java:47-52 | `PastryChefNotFound` exactly for an unknown identifier; otherwise exactly that row goes. |
| PastryChefService.DeleteKeepsUnique | src/main/java/com/awbd/cakeshop/services/PastryChefService.java:47-52 | Deleting a chef keeps the (name, birth date) pairs unique. |
| PastryChefMapper.CakeIdList | src/main/java/com/awbd/cakeshop/mappers/PastryChefMapper.java:33-35 | One identifier per cake, in order. |
| PastryChefMapper.ToDto | src/main/java/com/awbd/cakeshop/mappers/PastryChefMapper.java:25-40 | `cakeIds` is absent exactly when the chef has no cakes; otherwise it lists their identifiers in order. |
| PastryChefMapper.FindCakes | src/main/java/com/awbd/cakeshop/mappers/PastryChefMapper.java:49-52 | Fails with `EntityNotFound` exactly when some listed identifier is unknown. Otherwise gives the stored cakes in the listed order. |
| PastryChefMapper.FoundAreStored | src/main/java/com/awbd/cakeshop/mappers/PastryChefMapper.java:49-52 | Every cake found is a stored cake. |
| PastryChefMapper.FoundCarryIds | src/main/java/com/awbd/cakeshop/mappers/PastryChefMapper.java:49-52 | The cakes found carry the listed identifiers. |
| PastryChefMapper.ListedIdsComeBack | src/main/java/com/awbd/cakeshop/mappers/PastryChefMapper.java:25-58 | A chef holding the cakes found for a non-empty list converts back to that list. |
| PastryChefMapper.AddAll | src/main/java/com/awbd/cakeshop/mappers/PastryChefMapper.java:54 | The cakes are appended in order and each points at the chef. |
| PastryChefMapper.RemoveAll | src/main/java/com/awbd/cakeshop/mappers/PastryChefMapper.java:77-80 | Removing over a copy empties the list, duplicates included, and detaches every cake it held. |
| PastryChefMapper.ToEntity | src/main/java/com/awbd/cakeshop/mappers/PastryChefMapper.java:42-58 | An unknown identifier is `EntityNotFound` before any cake is linked. Otherwise a new chef with the DTO's fields and exactly the listed cakes, each linked back to it. No other stored cake changes chef. |
| PastryChefMapper.UpdateEntityFromDto | src/main/java/com/awbd/cakeshop/mappers/PastryChefMapper.java:66-84 | The fields are always written. An unknown listed identifier is `EntityNotFound` and leaves the list and every cake untouched. On success the list is exactly the cakes found, each pointing at the chef, and cakes dropped from the list point at no chef. Every other stored cake keeps its chef. |
| ReviewService.ByCake | src/main/java/com/awbd/cakeshop/services/ReviewService.java:25-27 | Exactly the stored reviews of that cake. |
| ReviewService.Add | src/main/java/com/awbd/cakeshop/services/ReviewService.java:29-42 | An unknown cake is `IllegalArgument` (if and only if) and changes nothing. Otherwise a review of that cake with exactly the rating and comment is stored under a fresh identifier. Its user is null exactly when the name is absent or unknown, and otherwise is the user with that name. |
| ReviewService.AddedReviewListedUnderItsCake | src/main/java/com/awbd/cakeshop/services/ReviewService.java:25-42 | An added review joins its own cake's listing and no other, and every other cake's listing stays as it was. |
| ReviewController.BearerToken | src/main/java/com/awbd/cakeshop/controllers/ReviewController.java:37 | There is a token exactly when the header starts with `Bearer ` case-sensitively, and the header is that prefix followed by the token. |
| ReviewController.BearerTokenRoundTrip | src/main/java/com/awbd/cakeshop/controllers/ReviewController.java:37 | Whatever follows the exact scheme is the token, untrimmed. |
| ReviewController.LowerCaseSchemeGivesNoToken | src/main/java/com/awbd/cakeshop/controllers/ReviewController.java:37 | A lower-case scheme gives no token, so the review has no author. |
| ReviewController.AuthorName | src/main/java/com/awbd/cakeshop/controllers/ReviewController.java:37-38 | No token gives no author; otherwise the author is the token's subject. |
| ReviewController.ReviewLocation | src/main/java/com/awbd/cakeshop/controllers/ReviewController.java:49 | The location starts with `/api/cakes/` and ends with `/reviews/<id>`. |
| ReviewController.ReviewController.Create | src/main/java/com/awbd/cakeshop/controllers/ReviewController.java:33-51 | A rating outside 1..5 is 400 and saves nothing. An unknown cake is `IllegalArgument`. Otherwise the review is saved as `Add` promises, by the token's user when stored, and answered with 201 at its location. Users, carts, cakes, categories, chefs, orders and sales are left alone. |

## Left out

- The jjwt library: the compact serialisation, HMAC and base64url are an abstract `Codec`. Only its soundness (a token encoded with a key decodes with the same key to the same claims) is stated, as a predicate that callers require.
- Concurrency: the `volatile` double-checked locking around the cached signing key is modelled as a single-threaded cache. The concurrent set behind the blacklist is a plain `set`.
- Password hashing: BCrypt's `encode` and `matches` are uninterpreted functions, carried by a `PasswordEncoder` parameter.
- SQL aggregates and ordering:
  - `calculateTotalPrice` (`SUM`) is the sum of the prices over the cart's set of cakes. An empty cart is modelled as the proxy's `AopInvocationException` for a null primitive return.
  - `ORDER BY` results (`getByCake`, order histories) are sets.
  - `LIKE` search and the `updateStock` query are not modelled.
- JavaLang.ToUpperCase: a per-character model under a locale-neutral mapping. Special casing that changes the length (`ß` to `SS`, ligatures) and the default locale (the Turkish dotted `İ`) are left out.
- `findByNameIgnoreCase` is modelled as per-character ASCII case-insensitive equality. Full Unicode case folding is left out.
- JPA cascades, `orphanRemoval` and `@Transactional` are not modelled. Order creation and cart clearing are two separate store updates, and foreign-key failures on delete are not raised.
- When a cake moves between chefs, the previous chef's list is not updated. Only the links the mapper writes itself are modelled.
- Floating point: prices and discounts are `real`, so `double` rounding is not modelled.
- A review's `createdAt` is the `now` parameter.
- Logging is left out.
- `toDtoList` is left out: it maps a list element-wise with `toDto`, which is modelled.
- The field-copy mappers for carts, categories, orders and reviews are left out. Their replies carry the entity itself.
- The thin controllers are not part of this model, because each only forwards to a modelled service: `CakeCartController`, `CakeCategoryController`, `PastryChefController`, `PageController`, and `WebSecurityConfig`, whose route rules are configuration.
- Pure repository delegations are left out, because each is one repository call: `addCake`, `searchCakes`, `getAvailableCakes`, `getCakesByCategoryId`, `updateCakeStock`, `CakeService.deleteCake`, `getAll`, `CakeService.findById`, `getOrderById`, `getCakesInCategory`, `CakeOrderController.updateOrder` and `ReviewController.list`.
- Models.Sale.Blank: the percentage and dates of a sale built with `new Sale()` are null in Java until they are set. The model gives them placeholder values and promises nothing about them.
- Saving an entity that already has an identifier only replaces the map entry, so JPA merge semantics are not modelled.
- Duplicates in `createCategory`, `UserService.create` and `PastryChefService.create` are refused only by their explicit existence checks. The category name and the chef's name and birth date have no unique constraint. The constraints on the user table are not modelled, since `User.java` is not part of this model. The unique `user_id` of a cart and the unique `sale_id` of an order have no explicit check. A duplicate on either is modelled as `DataIntegrityViolation`, which the database raises on `save`.
- The `NOT NULL` name of a pastry chef is modelled as `DataIntegrityViolation` in `PastryChefService.create` and `update`. The other `NOT NULL` columns are not checked on `save`. A sale's columns are written by `SaleService`, which is not part of this model. A cake's category is written only by `addCake`, which is left out, and `CakeService.update` sets the category only when one is given. An order's user is always a stored user.
- PastryChefService.Update: a `save` refused for a missing name leaves the stored row as it was. In Java, the loaded entity object still holds the written fields in memory; the model, whose store objects stand for the rows, does not show that.
- `User.java` and `Review.java` are not part of this model. Their fields are taken from their uses in the services.
- `SaleDTO`, `OrderRequestDTO` and `RegisterRequestDTO` are not part of this model. Their fields are taken from their uses.
- `SaleService` is not part of this model. The sale lookup it provides is the store's sale map.
- `TokenBlacklistService` is not part of this model as a file. It is modelled as a set of revoked tokens, with the behaviour its callers rely on.
- `UserMapper` and `OrderMapper` are not part of this model.
- Checkout of a user without a cart: the exception message at `CakeOrderController.java:67` reads "not found or empty", but `getCartByUserId` (`CartService.java:42-45`) throws `CartNotFoundException` first, so only an empty cart gives `IllegalState`.

## Findings

| source | as written | input that shows it | evidently intended | confidence | as-written member | corrected member |
|---|---|---|---|---|---|---|
| src/main/java/com/awbd/cakeshop/controllers/UserController.java:98-106 | Logout revokes the header's text after a case-sensitive `Bearer `, with the quotes left in. The filter accepts any case of the scheme and strips quotes. | the header `bearer <token>`, or `Bearer "<token>"` | logout revokes exactly the token that the filter accepts for the same header | not executed | UserController.UserController.Logout, UserController.LogoutMissesLowerCaseScheme, UserController.LogoutKeepsQuotes | UserController.UserController.LogoutCorrected, UserController.CorrectedLogoutDisarmsHeader |
| src/main/java/com/awbd/cakeshop/controllers/CakeController.java:92-102 | `updateCake` catches only `NoSuchElementException` and `IllegalArgumentException`. The mapper and the service throw `EntityNotFoundException`, so the 404 branch is dead. | an unknown cake id, with a transfer object that names no category and no chef | an unknown cake is answered with 404 | not executed | CakeController.UpdateCake | CakeController.UpdateCakeCorrected |
