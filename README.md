# dmm-account identity layer in Dafny

This project models the account identity layer of the `dmm-account` package:

- the field rules for usernames, passwords, tokens and audit op types;
- the account controller: its guard, its cache lookup by username, `create`, `update`, `verifyPassword` and `verifyToken`;
- the audit-log controller's `create`;
- the `register` API, which creates an account and logs a REGISTER entry about it.

Every operation ends in the same catch block. With `throwErrorFlag` true it throws; otherwise it returns a sentinel (`null` or `false`). Most operations rethrow the error they caught. `checkModel` instead throws a fresh ACCOUNT_NOT_EXIST whatever the base guard raised. `AccountError.Caught` models that block, and an `Outcome` is either a returned value or a thrown error.

Arguments are JavaScript values (`Values.Value`): `undefined`, `null`, booleans, numbers, strings and plain objects. That keeps the value checker's type tests visible.

Account instances are a `class`, because `update` assigns their fields in place. The process cache holds references to those instances, so an update without save is seen through the cache but not in the table. The account table is a sequence of rows that only `create` and a save write. The audit log is a class holding its table and its auto-increment counter.

Modules:

| file | module | source |
|---|---|---|
| `values.dfy` | `Values` | JavaScript values and truthiness |
| `account_error.dfy` | `AccountError` | `lib/error/accountError.js` and the shared catch block |
| `account_constant.dfy` | `AccountConstant` | `lib/constant/accountConstant.js` and the value checker it is read by |
| `account_controller.dfy` | `AccountController` | `lib/controller/accountController.js`, with the column defaults of `lib/model/accountModel.js` |
| `account_log_controller.dfy` | `AccountLogController` | `lib/controller/accountLogController.js` |
| `account_api.dfy` | `AccountApi` | `lib/api/accountApi.js` (`register`) |

The value checker `checkValue` belongs to a utility package whose source is not part of this model. It is modelled as the package's rules are used here:

- A string rule accepts `undefined` and `null` only when it allows them. Any other non-string fails.
- A string must be non-empty and within its `gte`/`lte` length bounds.
- A string must not be refused by the rule's `checkHandler`, which refuses only by returning `false`.
- A number rule checks its bounds and its `list`.
- A boolean needs a boolean.

## Model

| member | source | states |
|---|---|---|
| AccountError.Code | lib/error/accountError.js:9-13 | not-exist, password-mismatch and token-mismatch carry the distinct codes 10001, 10003 and 10005 |
| AccountError.Caught | lib/controller/accountController.js:337-346 | the catch block throws the caught error exactly when `throwErrorFlag` is true and otherwise returns the operation's sentinel |
| AccountConstant.UsernameOk | lib/constant/accountConstant.js:13-22 | a username passes iff it is null, a string whose first character is an ASCII letter, or undefined where the rule is spread with `allowUndefined` |
| AccountConstant.UsernameCheckHandler | lib/constant/accountConstant.js:16-20 | the handler falls off its end (returns undefined) iff the name starts with an ASCII letter, and otherwise returns false |
| AccountConstant.UsernameOnlyFirstCharacter | lib/constant/accountConstant.js:16-20 | the username handler looks at the first character only: any tail gives the same verdict |
| AccountConstant.PasswordOk | lib/constant/accountConstant.js:24-29 | a password passes iff it is a string of exactly 64 characters (or an allowed undefined); null and the empty string fail |
| AccountConstant.TokenOk | lib/constant/accountConstant.js:31-36 | a token passes iff it is a string of exactly 32 characters (or an allowed undefined) |
| AccountConstant.OpTypeOk | lib/constant/accountConstant.js:45-56 | an op type passes iff it is a number among 1, 2, 3, 101, 102, 103, 104 |
| AccountConstant.OpTypesDistinct | lib/constant/accountConstant.js:38-44 | the seven op codes are pairwise distinct |
| AccountConstant.TokenTypeOk | lib/controller/accountController.js:742-757 | the token kind passes iff it is the number 1 |
| AccountConstant.RuleExamples | lib/constant/accountConstant.js:13-36 | "a1_!" and null pass the username rule, "1abc", "" and undefined fail; empty tokens and passwords fail even when undefined is allowed |
| AccountController.NewRow | lib/model/accountModel.js:15-36 | a created row has the next id and is well-formed; a supplied username, password or token is stored as given, and omitted ones take their defaults (null username, empty password and token) |
| AccountController.CheckModel | lib/controller/accountController.js:45-93 | the guard passes iff the model is present; otherwise it throws AccountNotExist or returns false |
| AccountController.MatchesIsStrictEquality | lib/controller/accountController.js:150-152 | the cache filter holds iff the instance's `username` property is strictly equal to the argument: null matches only a null username |
| AccountController.CacheFilter | lib/controller/accountController.js:148-157 | the filtered list holds exactly the cached accounts whose username equals the argument, and its head is the first such account |
| AccountController.CacheFilterAppend | lib/controller/accountController.js:148-157 | filtering a cache extended by one account extends the result by that account exactly when it matches |
| AccountController.GetModelFromCacheByUsername | lib/controller/accountController.js:110-193 | an invalid username is refused; otherwise it finds an account iff one is cached with that username, and that is the first one; a miss gives AccountNotExist when `checkModelFlag` is true or omitted, and null for any other flag value |
| AccountController.AddedAccountIsFound | lib/controller/accountController.js:322-332 | an account just added to the cache is found by its username, and is exactly the one found when no earlier cached account shares the name |
| AccountController.ResolveFlag | lib/controller/accountController.js:243-245 | a given cache or save flag is kept; an omitted one takes the request state's flag when that is defined, otherwise true |
| AccountController.CreateCheck | lib/controller/accountController.js:247-308 | create proceeds iff username, password, token and cache flag all pass their rules; the username is checked first |
| AccountController.AccountStore.Create | lib/controller/accountController.js:214-351 | a failed check writes nothing; otherwise exactly one well-formed row with the next id is inserted, and the instance is cached iff the resolved cache flag is true |
| AccountController.UpdateCheck | lib/controller/accountController.js:410-480 | update proceeds iff the account is present and every field and the save flag pass their rules; a missing account fails with AccountNotExist before any field check |
| AccountController.ApplyUpdate | lib/controller/accountController.js:482-493 | a field given as undefined keeps its value, any other given value (null included for the username) replaces it, and the id never changes |
| AccountController.Account.Assign | lib/controller/accountController.js:482-493 | the instance's fields become the partial update of their old values: only supplied fields are assigned |
| AccountController.ApplyUpdateProperties | lib/controller/accountController.js:482-493 | a valid partial update keeps a row well-formed, is idempotent, and an all-undefined update is the identity |
| AccountController.SaveRow | lib/controller/accountController.js:496-502 | saving replaces exactly the row with the instance's id and leaves every other row unchanged |
| AccountController.RowsValidSave | lib/controller/accountController.js:496-502 | saving a well-formed instance keeps ids ascending and every row well-formed, and removes no id |
| AccountController.RowsValidInsert | lib/model/accountModel.js:15-20 | inserting a well-formed row under the next auto-increment id keeps the table valid |
| AccountController.AccountStore.Update | lib/controller/accountController.js:374-521 | a failed check changes nothing; otherwise the instance becomes the partial update of its old fields, the cache is unchanged, and the table is written iff the resolved save flag is true |
| AccountController.VerifyPassword | lib/controller/accountController.js:539-613 | the result is true iff the account is present, its password is 64 characters long and equals the argument; an absent account fails with AccountNotExist, a refused argument with the password's InvalidValue, a mismatch with AccountPasswordMismatch |
| AccountController.VerifyToken | lib/controller/accountController.js:706-802 | as written: success iff the account is present, the kind is 1 and the 32-character token equals `tokenA`; success returns undefined; an absent account fails with AccountNotExist, then a refused kind or token with its InvalidValue, then a mismatch with AccountTokenMismatch; an empty stored token never succeeds |
| AccountController.TokenCheck | lib/controller/accountController.js:742-786 | on a present account: the kind is checked first, then the token, then equality with `tokenA`, with the matching errors; success returns undefined |
| AccountController.VerifyTokenSuccessIsFalsy | lib/controller/accountController.js:776-796 | with `throwErrorFlag` false, a matching and a mismatching token both come back falsy (undefined and false) |
| AccountController.VerifyTokenCorrected | lib/controller/accountController.js:706-802 | success returns true, and with `throwErrorFlag` false the result is truthy iff the token matches |
| AccountLogController.DefaultEmpty | lib/controller/accountLogController.js:43-44 | an omitted ip or transaction id becomes the empty string; a given one is kept |
| AccountLogController.DefaultObject | lib/model/accountLogModel.js:45-50 | an omitted `opData` is stored as the empty object; a given one is kept |
| AccountLogController.LogCheck | lib/controller/accountLogController.js:66-146 | an entry passes iff account id, operating user id, op type, ip and transaction id all pass, checked in that order |
| AccountLogController.AccountLog.Create | lib/controller/accountLogController.js:37-180 | a failed check appends nothing; otherwise exactly one entry is appended, with the next id, the defaulted ip and transaction id, and the op data as given (an omitted one as the empty object) |
| AccountApi.RegisterEntry | lib/api/accountApi.js:76-89 | the registration entry has the given log id, the account as both subject and actor, op type REGISTER, payload `{username}`, and the request's ip and transaction id defaulted to the empty string |
| AccountApi.Register | lib/api/accountApi.js:43-108 | a refused username creates and logs nothing; otherwise one account with only its username set is created and, if the entry passes, exactly one REGISTER entry about it is appended and the account is returned |

## Left out

- Password hashing (`encryptPassword`) and token generation (`generateToken`) are left out: they are a digest and a random-string generator. The model takes passwords and tokens as given strings.
- The base package (`@dmm/base`) is not part of this model. That covers the id, ip and transaction-id rules, the cache's `getModelListFromCache`/`addModelToCache`, and the model base class. The log is parameterised by the three rules (`AccountLogController.BaseRules`). The cache is a sequence that create appends to. Every id create hands out is fresh, so appending and replace-by-id agree.
- The utility package's `checkValue` is not part of this model. It is modelled by `CheckString`, `CheckNumber` and `CheckBoolean` as described above. Failures it raises are `InvalidValue(param)`, not its own error codes.
- Persistence failures, transactions and rollback are not modelled: inserts and saves always succeed. `AccountApi.Register` states that a failed log append leaves the created account in place. Undoing it is the caller's transaction's job.
- Username uniqueness and `ACCOUNT_USERNAME_EXIST` are not modelled: the controller never checks them. `AccountController.AddedAccountIsFound` states what a duplicate name then means for the lookup.
- The log's and model's timestamps (clock) and the table's storage widths are not modelled. That includes `BIGINT UNSIGNED` ids and `STRING(255)` columns. Ids are unbounded naturals, and JavaScript numbers are integers here.
- Logging, `async`/`await` and concurrent requests are not modelled: every operation runs to completion alone.
- The shared catch block takes `throwErrorFlag` as a boolean. The source's `=== true` test makes any non-boolean value behave as false; that case is not modelled. (`checkModelFlag` is modelled as a value: an omitted one means true and any non-boolean means false.)
- AccountConstant.PasswordOk, AccountConstant.TokenOk: lengths are counted in Unicode scalar values, while JavaScript's `length` counts UTF-16 code units. A 64-unit password that holds a character outside the Basic Multilingual Plane passes the source's rule but fails `PasswordOk`; tokens are affected the same way. Hashes and generated tokens are ASCII, where the two counts agree.
- A missing `ctx` is not modelled. Create, update and the log append read `ctx.state?.transaction` (lib/controller/accountController.js:240 and 403, lib/controller/accountLogController.js:65). With no `ctx` that throws a TypeError, which the catch block rethrows or turns into the sentinel. Only `register` reads `ctx?.ip` defensively. The model always takes a context, whose absent fields are `undefined`.
- The other error codes of `lib/error/accountError.js` (validate-fail, not-enabled, the uniqueness and login errors) are not raised by the modelled operations and are left out.

Three points where the source's comments or declarations promise more than its code does; the model follows the code:

- Token verification guards on an empty stored token by testing `account.token` (lib/controller/accountController.js:776). The model has no `token` property, so that guard never fires. The 32-character token rule still makes an empty `tokenA` fail to match, as `AccountController.VerifyToken` states.
- Token verification is documented as returning a Boolean (lib/controller/accountController.js:704). It falls off the end and returns `undefined` on success (see Findings).
- `ACCOUNT_USERNAME_EXIST` is declared (lib/error/accountError.js:15) but never raised: no modelled operation checks that a username is unused, and the account model declares no unique index. The model lets two accounts share a username.

## Findings

| source | as written | input that shows it | evidently intended | confidence | as-written member | corrected member |
|---|---|---|---|---|---|---|
| lib/controller/accountController.js:780-787 | on success `verifyToken` falls off the end of its `try` block and returns `undefined`, which is falsy like the `false` a mismatch returns when `throwErrorFlag` is false | an account with a 32-character `tokenA`, `type` 1, `token` equal to `tokenA`, `throwErrorFlag` false: returns `undefined`; the same call with another 32-character token returns `false` | return `true` on success, as the documented `@returns {Boolean}` and `verifyPassword` do | high; not executed | AccountController.VerifyTokenSuccessIsFalsy | AccountController.VerifyTokenCorrected |
