/** Registration (lib/api/accountApi.js): create an account from a username,
    then record one REGISTER entry about it in the audit log. */
module AccountApi {
  import opened Values
  import opened AccountError
  import opened AccountConstant
  import opened AccountController
  import opened AccountLogController

  /** The payload of a registration entry, `{username}`. */
  function RegisterData(username: Value): Value {
    Obj(map["username" := username])
  }

  /** The entry a registration appends for the account with the given id:
      the account acts on itself. */
  function RegisterEntry(logId: nat, accountId: nat, username: Value, ctx: Ctx): (e: LogEntry)
    ensures e.id == logId
    ensures e.accountId == e.opUserId == Num(accountId)
    ensures e.opType == Num(OP_TYPE_REGISTER) && e.opData == RegisterData(username)
    ensures e.ip == DefaultEmpty(ctx.ip) && e.transactionId == DefaultEmpty(ctx.transactionId)
  {
    LogEntry(logId, Num(accountId), Num(accountId), Num(OP_TYPE_REGISTER), RegisterData(username),
             DefaultEmpty(ctx.ip), DefaultEmpty(ctx.transactionId))
  }

  /** Creates the account (only the username supplied, errors thrown), then
      appends its REGISTER entry (errors thrown); either failure ends in the
      shared catch block. A failed create appends nothing; a failed append
      leaves the created account in place, for the caller's transaction to
      undo. */
  method Register(store: AccountStore, log: AccountLog, username: Value, throwErrorFlag: bool, ctx: Ctx)
    returns (r: Outcome<Account?>)
    requires store.Valid() && log.Valid()
    modifies store, log
    ensures store.Valid() && log.Valid()
    ensures
      var created := CreateCheck(username, Undefined, Undefined, ResolveFlag(Undefined, ctx.useCacheFlag));
      && (created.Err? ==>
            && r == Caught(created.error, throwErrorFlag, null)
            && store.rows == old(store.rows) && store.cache == old(store.cache) && store.nextId == old(store.nextId)
            && log.entries == old(log.entries) && log.nextId == old(log.nextId))
      && (created.Ok? ==>
            var id := old(store.nextId);
            var oldCache := old(store.cache);
            var logged := LogCheck(log.rules, Num(id), Num(id), Num(OP_TYPE_REGISTER),
                                   DefaultEmpty(ctx.ip), DefaultEmpty(ctx.transactionId));
            && store.rows == old(store.rows) + [NewRow(id, username, Undefined, Undefined)]
            && store.nextId == id + 1
            && (!created.value ==> store.cache == oldCache)
            && (created.value ==>
                  && |store.cache| == |oldCache| + 1 && store.cache[..|oldCache|] == oldCache
                  && store.cache[|oldCache|].Row() == NewRow(id, username, Undefined, Undefined))
            && (logged.Err? ==>
                  && r == Caught(logged.error, throwErrorFlag, null)
                  && log.entries == old(log.entries) && log.nextId == old(log.nextId))
            && (logged.Ok? ==>
                  && r.Ok? && r.value != null && fresh(r.value)
                  && r.value.Row() == NewRow(id, username, Undefined, Undefined)
                  && r.value.password == "" && r.value.tokenA == ""
                  && (created.value ==> store.cache[|oldCache|] == r.value)
                  && log.entries == old(log.entries) + [RegisterEntry(old(log.nextId), id, username, ctx)]
                  && log.nextId == old(log.nextId) + 1))
  {
    var created := store.Create(username, Undefined, Undefined, Undefined, true, ctx);
    if created.Err? {
      r := Caught(created.error, throwErrorFlag, null);
      return;
    }
    var account := created.value;
    var logged := log.Create(Num(account.id), Num(account.id), Num(OP_TYPE_REGISTER), RegisterData(username),
                             ctx.ip, ctx.transactionId, true);
    if logged.Err? {
      r := Caught(logged.error, throwErrorFlag, null);
      return;
    }
    r := Ok(account);
  }

  /** A client of the contracts above: registering "bob" on an empty store
      yields account 1 with empty password and token and one REGISTER entry. */
  method RegistrationExample() {
    var store := new AccountStore();
    var log := new AccountLog(BaseRules((v: Value) => v.Num? && v.n > 0, (v: Value) => v.Str?, (v: Value) => v.Str?));
    var ctx := Ctx(Undefined, Undefined, Undefined, Undefined);
    var bob := Register(store, log, Str("bob"), true, ctx);
    assert bob.Ok? && bob.value != null;
    assert bob.value.Row() == AccountRow(1, Some("bob"), "", "");
    assert log.entries == [LogEntry(1, Num(1), Num(1), Num(101), Obj(map["username" := Str("bob")]), Str(""), Str(""))];
    assert store.cache == [bob.value];
  }

  /** A client of the contracts above: a username that does not start with a
      letter creates and logs nothing. */
  method RefusedRegistrationExample() {
    var store := new AccountStore();
    var log := new AccountLog(BaseRules((v: Value) => v.Num? && v.n > 0, (v: Value) => v.Str?, (v: Value) => v.Str?));
    var ctx := Ctx(Undefined, Undefined, Undefined, Undefined);
    var bad := Register(store, log, Str("1bob"), false, ctx);
    assert bad == Ok(null);
    assert store.rows == [] && log.entries == [];
  }
}
