# Accounts and catalog service: a Dafny model

This project models the request-handling core of a small Express and Prisma
service. The service has two halves:

- an account half mounted at `/auth`: registration with a mailed one-time
  code, activation, login that records a session, refresh of the access
  token, promotion to Admin, and the administrative listing, read, update
  and delete of users;
- a session registry: read or delete the caller's newest session;
- a catalog half mounted at `/products`, with categories beside it: create,
  list with filters, order and offset, read, update and delete of products
  and categories, each request body checked by a Joi object schema first.

The store is kept in memory. The user, session, product and category tables
are sequences of rows in table order. Two classes hold them,
`Accounts.AccountTables` and `Catalog.CatalogTables`, and each class keeps
its primary keys distinct (and, for users, the email column). A handler
that writes is a method. Its `modifies` clause names only the table it
touches, and its `ensures` says, per outcome code, what the new table is. A
handler that only reads is a function of the table values.

bcrypt, the one-time-code library and the token library are function
values in `Crypto.Primitives`:

- `Crypto.Sound` states the equations the service relies on: a digest
  matches its plaintext, and a token verifies under its own key until it
  expires and never under another key;
- `Crypto.Compact` states that tokens never contain a space, as the compact
  serialization of section 7.1 of RFC 7515 guarantees.

The clock, fresh row ids, salts, the client address and the mail outcome
are parameters.

The request bodies go through a model of Joi (`Joi`). It checks the type
of each key, then its rules in order. It reports every violation
(`abortEarly: false`), fills its messages from the schema's overrides, and
rejects keys the schema does not name. A key the body repeats is read with
its last value, as `JSON.parse` builds the object. Routing has its own model
(`Paths`, `Routes`): the two route tables are constants, Express matches a
request against them by segments, and the middleware chain runs on the
route that matches.

Where the code and the service's written description disagree, the model
follows the code:

- `register` returns the stored row, digest included;
- the user listing reads the query keys `sort` and `order`, defaulting to
  `createdAt` and `desc`, not `sortBy` and `sortOrder`;
- login signs with the literal keys, refresh verifies and signs with the
  environment key or the literal, and the role gate verifies with the
  literal. `TokenFlow` states when these agree.

## Model

| member | source | states |
|---|---|---|
| Accounts.ParseRole | routes/user.js:54 | a name is a role exactly when it is one of Admin, User, Ceo, SuperAdmin, and the role's name is that name |
| Accounts.ParseStatus | routes/user.js:232 | a name is a status exactly when it is Active or Inactive, and the status's name is that name |
| Accounts.RoleNameRoundTrip | routes/user.js:54 | every role's name parses back to that role |
| Accounts.StatusNameRoundTrip | routes/user.js:232 | every status's name parses back to that status |
| Accounts.Public | controller/user.js:226-235 | the selected columns keep the row's id, email, role and status; the digest is not among them |
| Accounts.NewRow | controller/user.js:42-43 | the inserted row has the new id and the body's email, is Inactive, has the body's role or User, and its stored digest matches the plaintext |
| Accounts.Register | controller/user.js:24-60 | a taken email answers 405 before validation and writes nothing; an invalid body answers 422 with the validator's message; otherwise exactly the new row is appended and the code is mailed, and a failed mail answers 500 with the row kept; the 200 reply carries the stored row |
| Accounts.VerifyOtp | controller/user.js:62-90 | an unknown email answers 405 and a wrong code 403, neither writing; the right code makes that user Active and changes nothing else; an already Active user is not written and still gets 200 |
| Accounts.LoginTokens | controller/user.js:107-117 | the access token verifies under "access_secret" for 15 minutes and the refresh token under "refresh_secret" for 7 days, both over `{id, role}` |
| Accounts.Login | controller/user.js:92-131 | an unknown email answers 404 and a wrong password 401, neither adding a session; otherwise exactly one session (user id, address, user agent, time) is appended and both tokens are returned; status is not consulted |
| Accounts.AccessTokenGenerate | controller/user.js:133-140 | the token verifies under `ACCESS_KEY` or the literal for exactly 15 minutes |
| Accounts.RefreshTokenGenerate | controller/user.js:142-149 | the token verifies under `REFRESH_KEY` or the literal for exactly 7 days |
| Accounts.GetNewAccessToken | controller/user.js:165-189 | 400 exactly when the token does not verify under `REFRESH_KEY` or the literal; 404 exactly when it verifies but names no user; otherwise 200 with a new access token over the current row's `{id, email, role}` |
| Accounts.PromoteToAdmin | controller/user.js:151-163 | a missing id answers 400 and writes nothing; otherwise that user's role becomes Admin and nothing else changes, whoever calls |
| Accounts.PageNumber | controller/user.js:209 | the page is never 0: a missing, unparsable or zero page reads as 1 |
| Accounts.PageSize | controller/user.js:210 | the limit is never 0: a missing, unparsable or zero limit reads as 10 |
| Accounts.ServePage | controller/user.js:211-249 | the page skips `(page - 1) * limit` rows and keeps at most `limit` (counted from the end when the limit is negative), each without its digest; the total counts every match and `totalPages` is the ceiling of total over limit |
| Accounts.FindAll | controller/user.js:191-253 | 403 exactly when the caller is not Admin; 200 exactly when the caller is Admin and the store accepts the filter, column (any column of the row, digest included), direction and offset; the 200 page is the served page of the matching users in the requested order |
| Accounts.ListedUsersSpec | controller/user.js:213-237 | the listed users are exactly the matching ones (status, role, case-sensitive search in full name or email), each as often as stored, ordered by the requested column and direction |
| Accounts.FindOne | controller/user.js:255-280 | 404 exactly when no row has the id; otherwise 200 with that row's selected columns |
| Accounts.ApplyPatch | controller/user.js:307-310 | each field present in the patch replaces the stored one and each absent field keeps it; the password column takes the digest when there is one; the id and creation time never change |
| Accounts.PatchDigest | controller/user.js:290-292 | a digest is computed exactly when the patch has a non-empty password, and it matches that password |
| Accounts.Update | controller/user.js:282-319 | 422 on an invalid patch; 403 for a caller neither SuperAdmin nor Admin; 403 for a missing target; 400 when the new email is another user's; otherwise only the target's patched fields change, the password hashed |
| Accounts.UpdateKeepsEmailsDistinct | controller/user.js:307-310 | an update whose email clashes with nobody keeps the email column unique |
| Accounts.Remove | controller/user.js:321-345 | 404 for a missing target; 403 for an Admin target and for any role but User; 200 exactly when the target is a User, and then only that user is deleted |
| Params.OrFallback | controller/user.js:209-210 | `parseInt(x) \|\| fallback` is the parsed value when it is a non-zero integer and the fallback otherwise |
| Params.OrDefault | controller/category.js:33-44 | a missing parameter takes its default, a parsed one keeps its value, and only an unparsable one gives no number |
| Params.Offsets | controller/product.js:64-65 | the category and product listings take the limit or 10 and skip `(page - 1) * take`, with page defaulting to 1; there are no offsets exactly when page or limit is unparsable |
| Crypto.OrLiteral | controller/user.js:135 | the key is the variable when it is set and non-empty, the literal otherwise |
| Crypto.CodeSecret | controller/user.js:45 | the code secret is the secret key followed by the email, with "undefined" when the key is unset |
| Crypto.SignedVerifies | controller/user.js:168-171 | a token verifies under its signing key exactly until it expires, giving back its claims |
| Crypto.VerifiesIffSameKey | controller/user.js:168-171 | an unexpired token verifies under a key exactly when that key signed it |
| Sessions.NewestIndex | controller/session.js:18-21 | finds none exactly when the caller has no session; otherwise one of the caller's sessions with the greatest creation time |
| Sessions.GetAll | controller/session.js:16-35 | 404 with "Session not found!" exactly when the caller has no session; otherwise 200 with a session of the caller that no other session of the caller postdates; nothing is written |
| Sessions.Remove | controller/session.js:37-60 | with no session for the caller, 404 and no change; otherwise exactly the caller's newest session is removed and the reply is "Session deleted successfully" |
| Sessions.AfterRemoveCurrentIsSecondNewest | controller/session.js:39-51 | after the removal the caller's current session is the newest of the caller's other sessions, or none when there were none |
| Sessions.RemoveKeepsOthersCurrent | controller/session.js:49-51 | removing one caller's newest session keeps every other user's having a session and its current creation time |
| RoleAuth.BearerToken | middleware/roleAuth.js:5 | the token has no space; a missing header and a header without a space give the empty token |
| RoleAuth.BearerTokenOf | middleware/roleAuth.js:5 | `scheme token` gives back the token, whatever the scheme word |
| RoleAuth.BearerTokenEmptyIff | middleware/roleAuth.js:5 | the token is empty exactly when the header splits into fewer than two words or its second word is empty |
| RoleAuth.NoTokenAfterScheme | middleware/roleAuth.js:5-8 | `scheme`, `scheme ` and `scheme  token` (two spaces) give the empty token, which the gate refuses |
| RoleAuth.Decide | middleware/roleAuth.js:5-21 | 401 exactly when the token is empty or does not verify under "access_secret"; 403 exactly when it verifies with a role outside the list; admitted exactly when the role is in the list, with the token's id and role |
| RoleAuth.EmptyAllowListRefuses | middleware/roleAuth.js:12 | an empty allow-list refuses every request |
| RoleAuth.RoleMiddleware | middleware/roleAuth.js:3-22 | on admission it sets the user id and role and calls next once, leaving the status as it was; on refusal it sets the status to the code and changes nothing else |
| Paths.RootHasNoSegments | routes/user.js:279 | the path "/" has no segments |
| Paths.OneSegment | routes/user.js:308 | a path of one non-empty segment without a slash has exactly that segment |
| Paths.TwoSegments | routes/user.js:206 | a path of two slash-free segments, the second non-empty, has exactly those two segments |
| Routes.RoutesEnforceGuards | routes/user.js:279-403 | every registered /auth and /products route runs exactly its handler's chain: none for open handlers; authentication then the role gate with Admin for list, read and delete of users and delete of products; Admin or SuperAdmin for user and product updates |
| Routes.UndocumentedOpenRoutes | routes/user.js:162-206 | the routes whose doc lists BearerAuth but which run no middleware are exactly get-access-token and promoteToAdmin in /auth, and create in /products |
| Routes.RunChain | routes/product.js:184-189 | a chain lets its handler run exactly when every middleware passes; a stopped chain stops with the code of one of them |
| Routes.HandlerRunsIff | routes/product.js:184-211 | a gated handler runs exactly when authentication passed and the bearer token verifies with a role in its allow-list; an open handler always runs |
| Routes.AuthenticationFirst | routes/user.js:371-376 | when authentication answers a gated request, the role gate never decides it |
| Routes.Resolve | routes/user.js:73-403 | the first registered route whose verb and pattern match the segments, or none when no route matches |
| Routes.Dispatch | routes/user.js:73-403 | the first registered route whose verb and path match the request, or none when no route matches |
| Routes.ResolveAt | routes/user.js:73-403 | a matching route with no matching route before it is the one chosen |
| Routes.PromoteIsReachable | routes/user.js:206 | `PATCH /promoteToAdmin/<id>` reaches promoteToAdmin, which has no middleware |
| Routes.GetByIdIsFindOne | routes/user.js:308 | `GET /<id>` reaches findOne for every non-empty id |
| Routes.PatchByIdIsUpdate | routes/user.js:371-376 | `PATCH /<id>` reaches update for every non-empty id, "promoteToAdmin" included |
| Routes.DeleteByIdIsRemove | routes/user.js:403 | `DELETE /<id>` reaches remove for every non-empty id |
| Routes.GetRootIsFindAll | routes/user.js:279 | `GET /` reaches findAll and not findOne |
| TokenFlow.LoginAccessPassesGate | controller/user.js:107-111 | within 15 minutes a login's access token is admitted by the gate with the user's id and role when the role is in the list, and refused with 403 otherwise |
| TokenFlow.LoginAccessExpires | controller/user.js:107-111 | after 15 minutes a login's access token is refused with 401 |
| TokenFlow.LoginRefreshAccepted | controller/user.js:113-171 | within 7 days a login's refresh token is accepted by the refresh endpoint exactly when `REFRESH_KEY` is unset, empty or equal to the literal, and answers 400 otherwise |
| TokenFlow.RefreshedAccessAtGate | controller/user.js:135-136 | a refreshed access token is refused by the gate with 401 when `ACCESS_KEY` differs from the literal; otherwise the gate decides on the current row's role |
| TokenFlow.CodeStableWithinStep | controller/user.js:22 | the mailed code stays the same within one 1800-second step |
| Joi.Lookup | controller/product.js:10 | a key is undefined exactly when no member has it; otherwise the value is that of the last member with the key, as `JSON.parse` keeps the last duplicate |
| Joi.StringCodes | validation/product.js:34-39 | a non-string is `string.base` alone and "" is `string.empty` alone; otherwise the min, max and pattern failures are each reported exactly when that rule fails |
| Joi.NumberCodes | validation/product.js:41-45 | a non-number is `number.base`; without conversion min and precision failures are each reported exactly when they fail; with conversion the rounded value is checked against min only |
| Joi.CodesEmptyIff | validation/product.js:33-52 | without conversion a value fails no rule exactly when it meets every rule of its key |
| Joi.DetailsAt | validation/product.js:3-31 | one detail per failure code, in order: detail `i` names the key, the `i`-th code and the schema's message for that code |
| Joi.ChildEmptyIff | validation/product.js:56 | the schema's keys report nothing exactly when each key reports nothing |
| Joi.UnknownKeys | validation/product.js:55 | a key is listed exactly when some member has it and the schema does not name it |
| Joi.UnknownDetails | validation/product.js:55 | nothing is reported exactly when every member is named by the schema; the `i`-th report is `"key" is not allowed` (`object.unknown`) for the `i`-th unnamed key |
| Joi.UnknownInKeyOrder | validation/product.js:55 | the unnamed keys are reported in `Object.keys` order of the parsed object: array-index keys first in ascending numeric order, then the other keys in the order the body first names them |
| Joi.UnknownReportedOnce | validation/product.js:55 | an unnamed key is reported once however often the body repeats it, as the parsed object holds it once |
| ProductValidation.IndexKeyReportedFirst | validation/product.js:54-57 | for `{"name":"Tea","price":1,"categoryId":"c1","x":1,"0":2}` the create schema as written reports `"0" is not allowed` first and `"x" is not allowed` second, so the create handler answers 400 with the text about "0" |
| Joi.ValidIff | validation/product.js:54-57 | without conversion a body is valid exactly when every schema key holds and every member is named by the schema |
| Joi.AllViolationsReported | validation/product.js:56 | every violation of every key is among the reported details |
| Joi.Optional | validation/product.js:61-63 | the update schema has the same keys and rules, each made optional |
| Joi.EmptyBodyValidWhenOptional | validation/product.js:59-66 | every all-optional schema accepts `{}` |
| ProductValidation.NameClassIff | validation/product.js:5 | a character is in the name class exactly when it is an ASCII letter, a digit, JavaScript whitespace, an apostrophe or a hyphen |
| ProductValidation.NameRule | validation/product.js:34-39 | a name passes exactly when it is a string of 2 to 100 UTF-16 units, all from the name class |
| ProductValidation.PriceRule | validation/product.js:41-45 | without conversion a price passes exactly when it is a number of at least 0.01 with at most two decimal places |
| ProductValidation.CategoryIdRule | validation/product.js:47-51 | a category id passes exactly when it is a string of 2 to 50 UTF-16 units, with no character restriction |
| ProductValidation.NamedIff | validation/product.js:33-52 | the product schemas name exactly name, price and categoryId |
| ProductValidation.NameHolds | validation/product.js:34-39 | the name key holds exactly when a present name passes its rule, or it is absent and optional |
| ProductValidation.PriceHolds | validation/product.js:41-45 | the price key holds exactly when a present price passes its rule, or it is absent and optional |
| ProductValidation.CategoryIdHolds | validation/product.js:47-51 | the categoryId key holds exactly when a present id passes its rule, or it is absent and optional |
| ProductValidation.Schema | validation/product.js:59-63 | the schema with every key required is the create schema, and with every key optional the update schema |
| ProductValidation.SchemaHolds | validation/product.js:33-52 | all keys hold exactly when each of name, price and categoryId holds |
| ProductValidation.CreateValidIff | validation/product.js:54-57 | a create body is valid exactly when it has all three keys, each passing its rule, and no other key |
| ProductValidation.SchemaKeysIff | validation/product.js:55 | every member is named by a product schema exactly when the body has only name, price and categoryId |
| ProductValidation.UpdateValidIff | validation/product.js:59-66 | the intended update schema: a body is valid exactly when each of the three keys it has passes its rule, the price with at most two places, and it has no other key |
| ProductValidation.UpdateValidAsWrittenIff | validation/product.js:59-66 | the update schema as written: a body is valid exactly when each of the three keys it has passes, the price only needing to be a number of at least 0.005, and it has no other key |
| ProductValidation.EmptyUpdateValid | validation/product.js:59-66 | `{}` passes the update schema, with and without conversion |
| ProductValidation.ValidCreateIsTruthy | controller/product.js:17-21 | after a create body valid as written, name, price and categoryId are all truthy |
| ProductValidation.PriceAsWritten | validation/product.js:41-45 | with Joi's default conversion a number price passes exactly when it is at least 0.005, whatever its places |
| ProductValidation.PriceHoldsAsWritten | validation/product.js:41-45 | with conversion the price key reports nothing exactly when a present price is a number of at least 0.005, or it is absent and optional |
| ProductValidation.StringKeyIgnoresConvert | validation/product.js:56 | string keys report the same with and without conversion |
| ProductValidation.HoldsIffNoDetails | validation/product.js:33-52 | without conversion a key reports nothing exactly when it holds |
| ProductValidation.ChildrenAsWritten | validation/product.js:33-52 | with conversion the keys of the create or update schema report nothing exactly when name, price and categoryId each report nothing |
| ProductValidation.StringKeyAsWritten | validation/product.js:34-51 | with conversion name and categoryId report nothing exactly when a present value passes its rule, or it is absent and optional |
| ProductValidation.CreateValidAsWrittenIff | validation/product.js:54-57 | as written, a create body is valid exactly when name and categoryId pass, price is a number of at least 0.005 with any places, and no other key is present |
| ProductValidation.ThreePlacePriceAccepted | validation/product.js:41-45 | the body `{name: "Tea", price: 12.345, categoryId: "c1"}` passes the schema as written but fails the two-place rule |
| ProductValidation.ThreePlaceUpdateAccepted | validation/product.js:59-66 | the update body `{price: 12.345}` passes the update schema as written but fails the two-place rule |
| CategoryValidation.NameOnlyKeys | validation/category.js:27 | every member is named by a category schema exactly when it is "name" |
| CategoryValidation.CreateValidIff | validation/category.js:26-29 | a create body is valid exactly when it has a passing name and no other key |
| CategoryValidation.UpdateValidIff | validation/category.js:31-38 | an update body is valid exactly when any name it has passes and it has no other key |
| CategoryValidation.EmptyUpdateValid | validation/category.js:31-38 | `{}` passes the update schema |
| CategoryValidation.ValidCreateIsTruthy | controller/category.js:17-19 | after a valid create body the name is truthy |
| Catalog.CatalogTables.InsertProduct | controller/product.js:23-29 | the new product is appended and the keys stay distinct |
| Catalog.CatalogTables.ReplaceProduct | controller/product.js:135-145 | only the row at that position is replaced, keeping its key |
| Catalog.CatalogTables.RemoveProduct | controller/product.js:165-167 | only the row at that position is removed |
| Catalog.CatalogTables.InsertCategory | controller/category.js:21-23 | the new category is appended and the keys stay distinct |
| Catalog.CatalogTables.ReplaceCategory | controller/category.js:91-94 | only the row at that position is replaced, keeping its key |
| Catalog.CatalogTables.RemoveCategory | controller/category.js:106-108 | only the row at that position is removed |
| Catalog.CategoryOf | controller/product.js:92-94 | the joined category is a stored category with the product's category id, or none exactly when no category has that id |
| Catalog.Views | controller/product.js:72-74 | every product of a list is joined with its own category, in order |
| Products.Submitted | controller/product.js:23-29 | for a body valid as written, the new product has the new id and exactly the body's name, price and categoryId, the price unrounded |
| Products.CreateProduct | controller/product.js:8-35 | the body is checked by the schema as written: an invalid body answers 400 with the first detail; a falsy name, price or categoryId answers 400; otherwise exactly the submitted product is appended and returned with 201; nothing checks the category |
| Products.FalsyTestUnreachable | controller/product.js:17-21 | a body the schema as written accepts never fails the handler's falsy test |
| Products.GetAllProducts | controller/product.js:37-84 | 200 exactly when the store accepts column, direction and offsets, else 500; the 200 list is the skip/take window of the matching products in order, each with its category |
| Products.ListedProductsSpec | controller/product.js:50-75 | the listed products are exactly the matching ones (category, price bounds, case-insensitive name search), each as often as stored, ordered by the requested column and direction |
| Products.ListedPageMatches | controller/product.js:50-78 | every product of a served page is stored, matches every given filter and has its own category joined |
| Products.GetProductById | controller/product.js:86-105 | 404 exactly when no product has the id; otherwise 200 with that product and its category |
| Products.Patched | controller/product.js:135-141 | for a body valid as written, each key present replaces the stored field, an absent key leaves it, and the id is kept |
| Products.UpdateProduct | controller/product.js:107-151 | the body is checked by the update schema as written: 400 on an invalid body, then 404 for a missing product, then 400 for a given but unknown category; otherwise only that product's supplied fields change and it is returned with its category |
| Products.EmptyUpdateKeepsRow | controller/product.js:135-141 | `{}` is a valid update and leaves the product as it was |
| Products.DeleteProduct | controller/product.js:153-173 | 404 and no change for a missing id; otherwise exactly that product is removed |
| Products.DeleteRemovesOnlyTarget | controller/product.js:165-167 | after the removal no row has the id and every other row remains |
| Categories.CreateCategory | controller/category.js:8-29 | an invalid body answers 400 with the first detail; a falsy name answers 400; otherwise exactly one category with the submitted name is appended and returned with 201 |
| Categories.GetAllCategories | controller/category.js:31-57 | 200 exactly when the store accepts the direction and offsets, else 500; the 200 list is the skip/take window of the matching categories in name order |
| Categories.ListedCategoriesSpec | controller/category.js:35-48 | the listed categories are exactly those whose name contains the search case-insensitively, each as often as stored, ordered by name in the requested direction |
| Categories.PageIsWindow | controller/category.js:43-50 | with a positive limit the page holds at most `limit` categories, starting at position `(page - 1) * limit` of the ordered matches |
| Categories.GetCategoryById | controller/category.js:59-75 | 404 exactly when no category has the id; otherwise 200 with that category |
| Categories.UpdateCategory | controller/category.js:77-100 | 400 on an invalid body, then 400 when no truthy name is given, then 500 for a missing category; otherwise only that category's name changes |
| Categories.EmptyRenameRefused | controller/category.js:81-89 | `{}` passes the update schema and is then refused by the name test |
| Categories.DeleteCategory | controller/category.js:102-114 | 500 and no change for a missing id; otherwise exactly that category is removed |
| Tables.Slice | controller/product.js:64-77 | a negative skip is rejected; otherwise a non-negative take keeps at most take rows from position skip, and a negative take keeps at most `-take` rows ending `skip` rows before the end |
| Tables.EndWindowReversed | controller/product.js:64-77 | a negative take is the forward window of the reversed rows, reversed back |
| Tables.Ceil | controller/user.js:247 | `Math.ceil(n / d)` for a divisor of either sign |
| Ordering.Sort | controller/product.js:67-68 | the ordered rows are a permutation of the given rows |
| Ordering.SortSorted | controller/product.js:67-68 | the ordered rows are ordered by the key in the requested direction |
| Text.Split | middleware/roleAuth.js:5 | at least one part, no part holds the separator, and joining the parts gives back the string |
| Text.ContainsAt | controller/user.js:217-221 | a string contains another exactly when the other occurs at some position |
| Text.Lower | controller/product.js:61 | every character is mapped to its lower case |

## Left out

- Mail, logging, `dotenv`, the `sendSms` import and the Express and Swagger setup are I/O. The mail's outcome is an input of `Accounts.Register`; the mail itself is its `mail` result.
- Concurrency: every handler runs whole, with no interleaving of the `await`s. Check-then-act races between requests are not modelled.
- bcrypt, the one-time-code library and the token library are abstract functions with only the equations of `Crypto.Sound` and `Crypto.Compact`. There is no claim about code drift windows.
- `middleware/auth.js`, `validation/user.js`, `routes/category.js` and `routes/session.js` are not part of this model:
  - the authentication middleware is an outcome given to `Routes.RunChain`;
  - the user schemas are the functions in `Accounts.UserValidators`;
  - the category and session routes are not tabled.
- Database constraints the model cannot see are not enforced: foreign keys from products to categories and the deletes they would block or cascade. The unique email column is the exception: `Accounts.Update` answers 400 on a clash.
- Accounts.Remove: deletes the user row and leaves that user's sessions in place. The store would either refuse the delete (400 through the handler's catch) or cascade it, depending on a schema that is not part of this model; `Accounts.AccountTables.Valid` does not relate sessions to users.
- Joi.Validate: a body is the members of a JSON object. A non-object JSON body such as `[]`, which the body parser accepts and Joi refuses with `object.base` (400), is not modelled.
- Accounts.FindAll: the `updatedAt` column is not modelled, so `sort=updatedAt` answers 500 in the model. Enum columns order by the declaration order the route documentation lists; a missing avatar orders before every avatar ascending, as MongoDB orders null. The case-insensitive filters need PostgreSQL or MongoDB; on PostgreSQL NULL orders last ascending instead.
- Response texts: messages are kept without their trailing emoji, and the body shapes (`message`, `error_message`, `data`) are one `Message`, `Row` or `Profile` payload each.
- Floating point: prices are exact decimals (`real`). Query numbers arrive parsed as `Params.NumParam` (absent, unparsable or an integer). The price bounds of the product listing arrive as decimals, so an unparsable `minPrice` is not modelled.
- Joi's conversion of numeric strings is not modelled: a string price is `number.base`. Joi's `number.unsafe` check for numbers beyond 2^53 is not modelled either.
- Case folding is ASCII only, and text order is by code point. The store's collation may differ.
- Rows with equal sort keys: the model keeps an insertion order; the store promises none.
- The `authLogger` ReferenceError after the 403 of `findAll` is dropped; only the 403 is modelled.
- The Express router: it is modelled without URL decoding and without empty segments such as `//`. Exceptions a handler throws inside `next` are not modelled.
- Accounts.Register: the 500 text on a failed mail is fixed, not the transport's own message.
- Sessions.RemoveKeepsOthersCurrent: states that other users keep a current session with the same creation time, not the same row, because a tie between rows with equal times may resolve to another row.
- Categories.DeleteCategory: states only the code of a missing id, not the store's error text.
- Products.GetAllProducts and Categories.GetAllCategories: the 500 text of a rejected query is fixed, not the store's message.

## Findings

| source | as written | input that shows it | evidently intended | confidence | as-written member | corrected member |
|---|---|---|---|---|---|---|
| validation/product.js:41-45 | `Joi.number().min(0.01).precision(2)` validated with Joi's default `convert: true` rounds the price to two places before `min` runs and skips the precision rule. Any number of at least 0.005 passes, with any number of places. | `{ "name": "Tea", "price": 12.345, "categoryId": "c1" }` passes; the product is stored with price 12.345 | a price of at least 0.01 with at most two decimal places, as the message "Price can have up to two decimal places" says | medium; not executed | ProductValidation.CreateValidAsWrittenIff | ProductValidation.CreateValidIff |
| validation/product.js:59-66 | the update schema makes the same price key optional, so it inherits the rounding | `{ "price": 12.345 }` passes; the product's price becomes 12.345 | a supplied price of at least 0.01 with at most two decimal places | medium; not executed | ProductValidation.UpdateValidAsWrittenIff | ProductValidation.UpdateValidIff |

`ProductValidation.ThreePlacePriceAccepted` and
`ProductValidation.ThreePlaceUpdateAccepted` exhibit the inputs above. The
handlers `Products.CreateProduct` and `Products.UpdateProduct` run the
schemas as written (`ProductValidation.ProductCheckAsWritten` and
`ProductValidation.ProductUpdateCheckAsWritten`), so they accept such a price
and store it. The intended reading is `ProductValidation.ProductCheck` and
`ProductValidation.ProductUpdateCheck`, which validate without conversion.
The category schema has no number key, so conversion makes no difference to
it (`ProductValidation.StringKeyIgnoresConvert`).
