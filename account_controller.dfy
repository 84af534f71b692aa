/** The account controller (lib/controller/accountController.js): its guard,
    its cache lookup, create, update and the password and token checks.

    An account instance is an object whose fields `update` assigns in place;
    the persisted table is a sequence of rows that only create and a save
    write; the process cache is a sequence of references to instances, so an
    in-place update of a cached instance is seen through the cache at once. */
module AccountController {
  import opened Values
  import opened AccountError
  import opened AccountConstant

  /** A row of the account table. `None` is a null username. */
  datatype AccountRow = AccountRow(id: nat, username: Option<string>, password: string, tokenA: string)

  /** What a stored account may hold: a username that passes its rule or
      null, an unset or 64-character password, an unset or 32-character token. */
  predicate WellFormedRow(row: AccountRow) {
    && (row.username.Some? ==> UsernameOk(Str(row.username.value), false))
    && (row.password == "" || |row.password| == PASSWORD_LENGTH)
    && (row.tokenA == "" || |row.tokenA| == TOKEN_LENGTH)
  }

  /** An account model instance. */
  class Account {
    const id: nat
    var username: Option<string>
    var password: string
    var tokenA: string

    function Row(): AccountRow
      reads this
    {
      AccountRow(id, username, password, tokenA)
    }

    ghost predicate Valid()
      reads this
    {
      WellFormedRow(Row())
    }

    constructor (row: AccountRow)
      requires WellFormedRow(row)
      ensures Row() == row && Valid()
    {
      id := row.id;
      username := row.username;
      password := row.password;
      tokenA := row.tokenA;
    }

    /** Assigns the supplied fields in place, leaving undefined ones alone. */
    method Assign(username: Value, password: Value, tokenA: Value)
      modifies this
      ensures Row() == ApplyUpdate(old(Row()), username, password, tokenA)
    {
      if username != Undefined {
        this.username := StoredUsername(username);
      }
      if password != Undefined {
        this.password := StoredString(password);
      }
      if tokenA != Undefined {
        this.tokenA := StoredString(tokenA);
      }
    }
  }

  /** A property read on an account; the model has no `token` property, so
      reading it yields `undefined`. */
  function Property(row: AccountRow, name: string): Value {
    if name == "id" then Num(row.id)
    else if name == "username" then (if row.username.Some? then Str(row.username.value) else Null)
    else if name == "password" then Str(row.password)
    else if name == "tokenA" then Str(row.tokenA)
    else Undefined
  }

  /** The request context as the controller reads it: `ctx.state.useCacheFlag`
      and `ctx.state.autoSaveFlag` (undefined when there is no state), and the
      request's `ip` and `transactionId`. */
  datatype Ctx = Ctx(useCacheFlag: Value, autoSaveFlag: Value, ip: Value, transactionId: Value)

  /** An omitted flag takes the context's flag when that is defined, else true. */
  function ResolveFlag(flag: Value, stateFlag: Value): (r: Value)
    ensures r != Undefined
    ensures flag != Undefined ==> r == flag
    ensures flag == Undefined ==> r == (if stateFlag != Undefined then stateFlag else Bool(true))
  {
    if flag != Undefined then flag
    else if stateFlag != Undefined then stateFlag
    else Bool(true)
  }

  /** The value a validated username argument is stored as (undefined takes
      the column default, null). */
  function StoredUsername(v: Value): Option<string> {
    if v.Str? then Some(v.s) else None
  }

  /** The value a validated password or token argument is stored as
      (undefined takes the column default, the empty string). */
  function StoredString(v: Value): string {
    if v.Str? then v.s else ""
  }

  /** The row a successful create inserts. */
  function NewRow(id: nat, username: Value, password: Value, tokenA: Value): (row: AccountRow)
    requires UsernameOk(username, true) && PasswordOk(password, true) && TokenOk(tokenA, true)
    ensures row.id == id && WellFormedRow(row)
    ensures username.Str? ==> row.username == Some(username.s)
    ensures !username.Str? ==> row.username == None
    ensures password == Undefined ==> row.password == ""
    ensures tokenA == Undefined ==> row.tokenA == ""
    ensures password.Str? ==> row.password == password.s
    ensures tokenA.Str? ==> row.tokenA == tokenA.s
  {
    AccountRow(id, StoredUsername(username), StoredString(password), StoredString(tokenA))
  }

  /** The guard: an account model passes when it is present. */
  function CheckModel(model: Account?, throwErrorFlag: bool): (r: Outcome<bool>)
    ensures r == Ok(true) <==> model != null
    ensures model == null && throwErrorFlag ==> r == Err(AccountNotExist)
    ensures model == null && !throwErrorFlag ==> r == Ok(false)
  {
    if model != null then Ok(true) else Caught(AccountNotExist, throwErrorFlag, false)
  }

  /** The cache filter `item.username === username`. */
  predicate Matches(item: Account, username: Value)
    reads item
  {
    match username
    case Null => item.username.None?
    case Str(s) => item.username == Some(s)
    case _ => false
  }

  /** The filter is strict equality of the instance's `username` property
      with the argument: null matches only a null username, and no other
      kind of value matches at all. */
  lemma MatchesIsStrictEquality(item: Account, username: Value)
    ensures Matches(item, username) <==> Property(item.Row(), "username") == username
  {
  }

  /** `i` is the position of the first cached account that matches. */
  ghost predicate IsFirstMatch(cache: seq<Account>, username: Value, i: int)
    reads cache
  {
    && 0 <= i < |cache|
    && Matches(cache[i], username)
    && forall j | 0 <= j < i :: !Matches(cache[j], username)
  }

  /** The cached accounts that match, in cache order. */
  function CacheFilter(cache: seq<Account>, username: Value): (r: seq<Account>)
    reads cache
    ensures |r| <= |cache|
    ensures forall k | 0 <= k < |r| :: r[k] in cache && Matches(r[k], username)
    ensures forall i | 0 <= i < |cache| && Matches(cache[i], username) :: cache[i] in r
    ensures |r| > 0 ==> exists i :: IsFirstMatch(cache, username, i) && cache[i] == r[0]
    ensures (forall i | 0 <= i < |cache| :: !Matches(cache[i], username)) ==> r == []
    decreases |cache|
  {
    if cache == [] then []
    else
      var rest := CacheFilter(cache[1..], username);
      if Matches(cache[0], username) then
        assert IsFirstMatch(cache, username, 0);
        [cache[0]] + rest
      else
        assert |rest| > 0 ==> exists i :: IsFirstMatch(cache, username, i) && cache[i] == rest[0] by {
          if |rest| > 0 {
            var i :| IsFirstMatch(cache[1..], username, i) && cache[1..][i] == rest[0];
            assert IsFirstMatch(cache, username, i + 1);
          }
        }
        rest
  }

  /** Filtering a cache with one more account at its end adds that account
      at the end of the result when it matches. */
  lemma {:induction false} CacheFilterAppend(cache: seq<Account>, a: Account, username: Value)
    ensures CacheFilter(cache + [a], username)
         == CacheFilter(cache, username) + (if Matches(a, username) then [a] else [])
    decreases |cache|
  {
    if cache == [] {
      assert CacheFilter([a], username) == (if Matches(a, username) then [a] else []) + CacheFilter([], username);
    } else {
      assert (cache + [a])[1..] == cache[1..] + [a];
      CacheFilterAppend(cache[1..], a, username);
    }
  }

  /** The first account in the cache with the given username (null matches
      a null username), or null; a miss fails with AccountNotExist when
      `checkModelFlag` is true or omitted (any other value counts as false). */
  function GetModelFromCacheByUsername(cache: seq<Account>, username: Value, checkModelFlag: Value, throwErrorFlag: bool): (r: Outcome<Account?>)
    reads cache
    ensures !UsernameOk(username, false) ==> r == Caught(InvalidValue(Username), throwErrorFlag, null)
    ensures UsernameOk(username, false) ==>
      (r.Ok? && r.value != null <==> exists i | 0 <= i < |cache| :: Matches(cache[i], username))
    ensures r.Ok? && r.value != null ==> exists i :: IsFirstMatch(cache, username, i) && cache[i] == r.value
    ensures UsernameOk(username, false) && (forall i | 0 <= i < |cache| :: !Matches(cache[i], username)) ==>
      r == (if checkModelFlag == Undefined || checkModelFlag == Bool(true)
            then Caught(AccountNotExist, throwErrorFlag, null) else Ok(null))
  {
    if !UsernameOk(username, false) then Caught(InvalidValue(Username), throwErrorFlag, null)
    else
      var list := CacheFilter(cache, username);
      var model := if |list| > 0 then list[0] else null;
      var guard := CheckModel(model, true);
      if (checkModelFlag == Undefined || checkModelFlag == Bool(true)) && guard.Err? then Caught(guard.error, throwErrorFlag, null)
      else Ok(model)
  }

  /** An account just added to the cache is found by its username: the
      lookup yields an account with that username, and yields exactly the
      new account when no earlier cached account has it. Usernames are not
      unique, so an earlier account with the same name is found first. */
  lemma {:induction false} AddedAccountIsFound(cache: seq<Account>, a: Account, name: string)
    requires UsernameOk(Str(name), false) && a.username == Some(name)
    ensures var found := GetModelFromCacheByUsername(cache + [a], Str(name), Bool(true), true);
      found.Ok? && found.value != null && found.value.username == Some(name)
    ensures (forall k | 0 <= k < |cache| :: cache[k].username != Some(name)) ==>
      GetModelFromCacheByUsername(cache + [a], Str(name), Bool(true), true) == Ok(a)
  {
    var username := Str(name);
    assert Matches(a, username);
    CacheFilterAppend(cache, a, username);
  }

  /** The value checks of create, in the source's order; on success the
      resolved cache flag. */
  function CreateCheck(username: Value, password: Value, tokenA: Value, useCacheFlag: Value): (r: Outcome<bool>)
    ensures r.Ok? <==>
      UsernameOk(username, true) && PasswordOk(password, true) && TokenOk(tokenA, true) && CheckBoolean(useCacheFlag)
    ensures r.Ok? ==> r.value == useCacheFlag.b
    ensures r.Err? ==> r.error.InvalidValue?
    ensures !UsernameOk(username, true) ==> r == Err(InvalidValue(Username))
  {
    if !UsernameOk(username, true) then Err(InvalidValue(Username))
    else if !PasswordOk(password, true) then Err(InvalidValue(Password))
    else if !TokenOk(tokenA, true) then Err(InvalidValue(TokenA))
    else if !CheckBoolean(useCacheFlag) then Err(InvalidValue(UseCacheFlag))
    else Ok(useCacheFlag.b)
  }

  /** The checks of update, in the source's order: the account guard first,
      then each field; on success the resolved save flag. */
  function UpdateCheck(account: Account?, username: Value, password: Value, tokenA: Value, autoSaveFlag: Value): (r: Outcome<bool>)
    ensures r.Ok? <==>
      && account != null
      && UsernameOk(username, true) && PasswordOk(password, true) && TokenOk(tokenA, true)
      && CheckBoolean(autoSaveFlag)
    ensures r.Ok? ==> r.value == autoSaveFlag.b
    ensures account == null ==> r == Err(AccountNotExist)
    ensures account != null && r.Err? ==> r.error.InvalidValue?
  {
    var guard := CheckModel(account, true);
    if guard.Err? then Err(guard.error)
    else if !UsernameOk(username, true) then Err(InvalidValue(Username))
    else if !PasswordOk(password, true) then Err(InvalidValue(Password))
    else if !TokenOk(tokenA, true) then Err(InvalidValue(TokenA))
    else if !CheckBoolean(autoSaveFlag) then Err(InvalidValue(AutoSaveFlag))
    else Ok(autoSaveFlag.b)
  }

  /** A partial update: a field given as undefined keeps its value, any
      other given value overwrites it. */
  function ApplyUpdate(row: AccountRow, username: Value, password: Value, tokenA: Value): (r: AccountRow)
    ensures r.id == row.id
    ensures username == Undefined ==> r.username == row.username
    ensures password == Undefined ==> r.password == row.password
    ensures tokenA == Undefined ==> r.tokenA == row.tokenA
    ensures username.Str? ==> r.username == Some(username.s)
    ensures username.Null? ==> r.username == None
    ensures password.Str? ==> r.password == password.s
    ensures tokenA.Str? ==> r.tokenA == tokenA.s
  {
    AccountRow(
      row.id,
      if username != Undefined then StoredUsername(username) else row.username,
      if password != Undefined then StoredString(password) else row.password,
      if tokenA != Undefined then StoredString(tokenA) else row.tokenA)
  }

  /** An update whose fields pass their rules keeps a well-formed row
      well-formed, and applying it twice is applying it once. */
  lemma ApplyUpdateProperties(row: AccountRow, username: Value, password: Value, tokenA: Value)
    requires WellFormedRow(row)
    requires UsernameOk(username, true) && PasswordOk(password, true) && TokenOk(tokenA, true)
    ensures WellFormedRow(ApplyUpdate(row, username, password, tokenA))
    ensures ApplyUpdate(ApplyUpdate(row, username, password, tokenA), username, password, tokenA)
         == ApplyUpdate(row, username, password, tokenA)
    ensures ApplyUpdate(row, Undefined, Undefined, Undefined) == row
  {
  }

  /** Saving an instance writes its fields over the row with its id. */
  function SaveRow(rows: seq<AccountRow>, row: AccountRow): (r: seq<AccountRow>)
    ensures |r| == |rows|
    ensures forall i | 0 <= i < |rows| :: r[i].id == rows[i].id
    ensures forall i | 0 <= i < |rows| && rows[i].id == row.id :: r[i] == row
    ensures forall i | 0 <= i < |rows| && rows[i].id != row.id :: r[i] == rows[i]
  {
    seq(|rows|, i requires 0 <= i < |rows| => if rows[i].id == row.id then row else rows[i])
  }

  /** The password check: the account must be present, the supplied value
      must pass the 64-character rule and equal the stored password. */
  function VerifyPassword(account: Account?, password: Value, throwErrorFlag: bool): (r: Outcome<bool>)
    reads account
    ensures r == Ok(true) <==>
      account != null && |account.password| == PASSWORD_LENGTH && password == Str(account.password)
    ensures r.Err? <==> throwErrorFlag && r != Ok(true)
    ensures account == null ==> r == Caught(AccountNotExist, throwErrorFlag, false)
    ensures account != null && !PasswordOk(password, false) ==> r == Caught(InvalidValue(Password), throwErrorFlag, false)
    ensures account != null && PasswordOk(password, false) && password.s != account.password ==>
      r == Caught(AccountPasswordMismatch, throwErrorFlag, false)
  {
    if account == null then Caught(AccountNotExist, throwErrorFlag, false)
    else if !PasswordOk(password, false) then Caught(InvalidValue(Password), throwErrorFlag, false)
    else if account.password != password.s then Caught(AccountPasswordMismatch, throwErrorFlag, false)
    else Ok(true)
  }

  /** The token check on a present account, as written: the guard reads the
      absent `token` property, and success falls off the end and returns
      undefined. */
  function TokenCheck(row: AccountRow, tokenType: Value, token: Value, throwErrorFlag: bool): (r: Outcome<Value>)
    ensures r == Ok(Undefined) <==>
      tokenType == Num(1) && |row.tokenA| == TOKEN_LENGTH && token == Str(row.tokenA)
    ensures r.Ok? ==> r.value == Undefined || (r.value == Bool(false) && !throwErrorFlag)
    ensures r.Err? <==> throwErrorFlag && r != Ok(Undefined)
    ensures !TokenTypeOk(tokenType) ==> r == Caught(InvalidValue(TokenType), throwErrorFlag, Bool(false))
    ensures TokenTypeOk(tokenType) && !TokenOk(token, false) ==> r == Caught(InvalidValue(Token), throwErrorFlag, Bool(false))
    ensures TokenTypeOk(tokenType) && TokenOk(token, false) && token.s != row.tokenA ==>
      r == Caught(AccountTokenMismatch, throwErrorFlag, Bool(false))
  {
    if !TokenTypeOk(tokenType) then Caught(InvalidValue(TokenType), throwErrorFlag, Bool(false))
    else if !TokenOk(token, false) then Caught(InvalidValue(Token), throwErrorFlag, Bool(false))
    else if Property(row, "token") == Str("") then Caught(AccountTokenMismatch, throwErrorFlag, Bool(false))
    else if tokenType == Num(1) && Property(row, "tokenA") != token then Caught(AccountTokenMismatch, throwErrorFlag, Bool(false))
    else Ok(Undefined)
  }

  /** The token check as written: the account guard, then the checks on its
      row. An empty stored token never matches, through the token rule
      rather than the dead guard. */
  function VerifyToken(account: Account?, tokenType: Value, token: Value, throwErrorFlag: bool): (r: Outcome<Value>)
    reads account
    ensures r == Ok(Undefined) <==>
      account != null && tokenType == Num(1) && |account.tokenA| == TOKEN_LENGTH && token == Str(account.tokenA)
    ensures r.Ok? ==> r.value == Undefined || (r.value == Bool(false) && !throwErrorFlag)
    ensures r.Err? <==> throwErrorFlag && r != Ok(Undefined)
    ensures account != null && account.tokenA == "" ==> r != Ok(Undefined)
    ensures account == null ==> r == Caught(AccountNotExist, throwErrorFlag, Bool(false))
    ensures account != null && !TokenTypeOk(tokenType) ==> r == Caught(InvalidValue(TokenType), throwErrorFlag, Bool(false))
    ensures account != null && TokenTypeOk(tokenType) && !TokenOk(token, false) ==>
      r == Caught(InvalidValue(Token), throwErrorFlag, Bool(false))
    ensures account != null && TokenTypeOk(tokenType) && TokenOk(token, false) && token.s != account.tokenA ==>
      r == Caught(AccountTokenMismatch, throwErrorFlag, Bool(false))
  {
    if account == null then Caught(AccountNotExist, throwErrorFlag, Bool(false))
    else TokenCheck(account.Row(), tokenType, token, throwErrorFlag)
  }

  /** The token check with success returning `true`, as its documented
      boolean result and the password check promise. */
  function VerifyTokenCorrected(account: Account?, tokenType: Value, token: Value, throwErrorFlag: bool): (r: Outcome<Value>)
    reads account
    ensures r == Ok(Bool(true)) <==>
      account != null && tokenType == Num(1) && |account.tokenA| == TOKEN_LENGTH && token == Str(account.tokenA)
    ensures !throwErrorFlag ==> r.Ok? && (Truthy(r.value) <==> r == Ok(Bool(true)))
  {
    match VerifyToken(account, tokenType, token, throwErrorFlag)
    case Ok(v) => if v == Undefined then Ok(Bool(true)) else Ok(v)
    case Err(e) => Err(e)
  }

  /** With `throwErrorFlag` false the token check as written answers a
      matching token and a mismatching one alike with a falsy value. */
  lemma VerifyTokenSuccessIsFalsy(account: Account, other: string)
    requires |account.tokenA| == TOKEN_LENGTH && |other| == TOKEN_LENGTH && other != account.tokenA
    ensures VerifyToken(account, Num(1), Str(account.tokenA), false) == Ok(Undefined)
    ensures VerifyToken(account, Num(1), Str(other), false) == Ok(Bool(false))
    ensures !Truthy(VerifyToken(account, Num(1), Str(account.tokenA), false).value)
    ensures !Truthy(VerifyToken(account, Num(1), Str(other), false).value)
  {
  }

  predicate HasRow(rows: seq<AccountRow>, id: nat) {
    exists i | 0 <= i < |rows| :: rows[i].id == id
  }

  /** Row ids are ascending and below the next id; every row is well-formed. */
  ghost predicate RowsValid(rows: seq<AccountRow>, nextId: nat) {
    && (forall i | 0 <= i < |rows| :: rows[i].id < nextId && WellFormedRow(rows[i]))
    && (forall i, j | 0 <= i < j < |rows| :: rows[i].id < rows[j].id)
  }

  /** Every cached instance is well-formed and has a row. */
  ghost predicate CacheValid(cache: seq<Account>, rows: seq<AccountRow>)
    reads cache
  {
    forall k | 0 <= k < |cache| :: cache[k].Valid() && HasRow(rows, cache[k].id)
  }

  /** Inserting a well-formed row with the next id keeps the table valid and
      keeps every earlier row's id present. */
  lemma RowsValidInsert(rows: seq<AccountRow>, nextId: nat, row: AccountRow)
    requires RowsValid(rows, nextId) && row.id == nextId && WellFormedRow(row)
    ensures RowsValid(rows + [row], nextId + 1)
    ensures forall id | HasRow(rows, id) :: HasRow(rows + [row], id)
    ensures HasRow(rows + [row], row.id)
  {
    forall id | HasRow(rows, id) ensures HasRow(rows + [row], id) {
      var i :| 0 <= i < |rows| && rows[i].id == id;
      assert (rows + [row])[i].id == id;
    }
    assert (rows + [row])[|rows|].id == row.id;
  }

  /** Saving a well-formed row keeps the table valid and every id present. */
  lemma RowsValidSave(rows: seq<AccountRow>, nextId: nat, row: AccountRow)
    requires RowsValid(rows, nextId) && WellFormedRow(row)
    ensures RowsValid(SaveRow(rows, row), nextId)
    ensures forall id | HasRow(rows, id) :: HasRow(SaveRow(rows, row), id)
  {
    var saved := SaveRow(rows, row);
    forall id | HasRow(rows, id) ensures HasRow(saved, id) {
      var i :| 0 <= i < |rows| && rows[i].id == id;
      assert saved[i].id == id;
    }
  }

  /** The account table, its auto-increment counter, and the process cache. */
  class AccountStore {
    var rows: seq<AccountRow>
    var cache: seq<Account>
    var nextId: nat

    /** Row ids are ascending and below the counter, every row is
        well-formed, and every cached instance is well-formed and has a row. */
    ghost predicate Valid()
      reads this, cache
    {
      1 <= nextId && RowsValid(rows, nextId) && CacheValid(cache, rows)
    }

    constructor ()
      ensures Valid()
      ensures rows == [] && cache == [] && nextId == 1
    {
      rows, cache, nextId := [], [], 1;
    }

    /** Validates the fields, inserts one row with the next id, and caches
        the new instance when the resolved cache flag is true. */
    method Create(username: Value, password: Value, tokenA: Value, useCacheFlag: Value, throwErrorFlag: bool, ctx: Ctx)
      returns (r: Outcome<Account?>)
      requires Valid()
      modifies this
      ensures Valid()
      ensures var check := CreateCheck(username, password, tokenA, ResolveFlag(useCacheFlag, ctx.useCacheFlag));
        && (check.Err? ==>
              && r == Caught(check.error, throwErrorFlag, null)
              && rows == old(rows) && cache == old(cache) && nextId == old(nextId))
        && (check.Ok? ==>
              && r.Ok? && r.value != null && fresh(r.value) && r.value.Valid()
              && r.value.Row() == NewRow(old(nextId), username, password, tokenA)
              && rows == old(rows) + [r.value.Row()]
              && nextId == old(nextId) + 1
              && cache == (if check.value then old(cache) + [r.value] else old(cache)))
    {
      var check := CreateCheck(username, password, tokenA, ResolveFlag(useCacheFlag, ctx.useCacheFlag));
      if check.Err? {
        r := Caught(check.error, throwErrorFlag, null);
        return;
      }
      var row := NewRow(nextId, username, password, tokenA);
      var account := new Account(row);
      RowsValidInsert(rows, nextId, row);
      rows := rows + [row];
      nextId := nextId + 1;
      if check.value {
        cache := cache + [account];
      }
      forall k | 0 <= k < |cache|
        ensures cache[k].Valid() && HasRow(rows, cache[k].id)
      {
        if k < |old(cache)| {
          assert cache[k] == old(cache)[k] && old(cache)[k].Valid();
        } else {
          assert cache[k] == account;
        }
      }
      r := Ok(account);
    }

    /** Checks the account and the supplied fields, overwrites only the
        fields that were supplied, and writes the row back only when the
        resolved save flag is true. */
    method Update(account: Account?, username: Value, password: Value, tokenA: Value,
                  autoSaveFlag: Value, throwErrorFlag: bool, ctx: Ctx)
      returns (r: Outcome<bool>)
      requires Valid()
      requires account != null ==> account.Valid()
      modifies this, account
      ensures Valid()
      ensures account != null ==> account.Valid()
      ensures cache == old(cache) && nextId == old(nextId)
      ensures var check := UpdateCheck(account, username, password, tokenA, ResolveFlag(autoSaveFlag, ctx.autoSaveFlag));
        && (check.Err? ==>
              && r == Caught(check.error, throwErrorFlag, false)
              && rows == old(rows)
              && (account != null ==> account.Row() == old(account.Row())))
        && (check.Ok? ==>
              && r == Ok(true)
              && account.Row() == ApplyUpdate(old(account.Row()), username, password, tokenA)
              && rows == (if check.value then SaveRow(old(rows), account.Row()) else old(rows)))
    {
      var check := UpdateCheck(account, username, password, tokenA, ResolveFlag(autoSaveFlag, ctx.autoSaveFlag));
      if check.Err? {
        r := Caught(check.error, throwErrorFlag, false);
        return;
      }
      ghost var before := account.Row();
      ApplyUpdateProperties(before, username, password, tokenA);
      assert forall k | 0 <= k < |cache| :: HasRow(rows, cache[k].id);
      account.Assign(username, password, tokenA);
      if check.value {
        RowsValidSave(rows, nextId, account.Row());
        rows := SaveRow(rows, account.Row());
      }
      forall k | 0 <= k < |cache|
        ensures cache[k].Valid()
      {
        if cache[k] != account {
          assert old(cache[k].Valid());
        }
      }
      r := Ok(true);
    }
  }

  /** A client of the contracts above: an update without save changes the
      cached instance, which then verifies against the new password, but
      not its row. */
  method UnsavedUpdateExample(password: string)
    requires |password| == PASSWORD_LENGTH
  {
    var store := new AccountStore();
    var ctx := Ctx(Undefined, Undefined, Undefined, Undefined);
    var created := store.Create(Str("alice"), Undefined, Undefined, Undefined, true, ctx);
    var alice := created.value;
    assert store.cache == [alice] && store.rows == [AccountRow(1, Some("alice"), "", "")];
    var unsaved := store.Update(alice, Undefined, Str(password), Undefined, Bool(false), true, ctx);
    assert unsaved == Ok(true) && store.rows[0].password == "";
    assert store.cache[0].password == password;
    assert VerifyPassword(alice, Str(password), false) == Ok(true);
  }

  /** A client of the contracts above: an update with the default save flag
      writes the new password to the row at once. */
  method SavedUpdateExample(password: string)
    requires |password| == PASSWORD_LENGTH
  {
    var store := new AccountStore();
    var ctx := Ctx(Undefined, Undefined, Undefined, Undefined);
    var created := store.Create(Str("alice"), Undefined, Undefined, Undefined, false, ctx);
    var alice := created.value;
    assert store.rows == [AccountRow(1, Some("alice"), "", "")];
    var saved := store.Update(alice, Undefined, Str(password), Undefined, Undefined, true, ctx);
    assert saved == Ok(true) && store.rows == [AccountRow(1, Some("alice"), password, "")];
  }

  /** A client of the contracts above: an update refused by the username
      rule changes neither the instance nor the table. */
  method RejectedUpdateExample() {
    var store := new AccountStore();
    var ctx := Ctx(Undefined, Undefined, Undefined, Undefined);
    var created := store.Create(Str("alice"), Undefined, Undefined, Undefined, true, ctx);
    var alice := created.value;
    var rejected := store.Update(alice, Str("9lives"), Undefined, Undefined, Undefined, false, ctx);
    assert rejected == Ok(false) && alice.username == Some("alice");
    assert store.rows == [AccountRow(1, Some("alice"), "", "")];
  }
}
