/** The audit log (lib/controller/accountLogController.js): one operation
    that checks every field of an entry and then appends exactly one row to
    the log table. */
module AccountLogController {
  import opened Values
  import opened AccountError
  import opened AccountConstant

  /** The id, ip and transaction-id rules come from the shared base
      package, whose definitions are not part of this model; the log is
      parameterised by them. */
  datatype BaseRules = BaseRules(idOk: Value -> bool, ipOk: Value -> bool, transactionIdOk: Value -> bool)

  /** A row of the log table. A given `opData` is stored exactly as given. */
  datatype LogEntry = LogEntry(
    id: nat, accountId: Value, opUserId: Value, opType: Value, opData: Value,
    ip: Value, transactionId: Value)

  /** An omitted `ip` or `transactionId` defaults to the empty string. */
  function DefaultEmpty(v: Value): (r: Value)
    ensures v == Undefined ==> r == Str("")
    ensures v != Undefined ==> r == v
  {
    if v == Undefined then Str("") else v
  }

  /** An omitted `opData` takes the column default, the empty object. */
  function DefaultObject(v: Value): (r: Value)
    ensures v == Undefined ==> r == Obj(map[])
    ensures v != Undefined ==> r == v
  {
    if v == Undefined then Obj(map[]) else v
  }

  /** The field checks in the source's order: account id, operating user
      id, op type, ip, transaction id. */
  function LogCheck(rules: BaseRules, accountId: Value, opUserId: Value, opType: Value, ip: Value, transactionId: Value): (r: Outcome<()>)
    ensures r.Ok? <==>
      && rules.idOk(accountId) && rules.idOk(opUserId) && OpTypeOk(opType)
      && rules.ipOk(ip) && rules.transactionIdOk(transactionId)
    ensures r.Err? ==> r.error.InvalidValue?
    ensures !rules.idOk(accountId) ==> r == Err(InvalidValue(AccountId))
    ensures rules.idOk(accountId) && !rules.idOk(opUserId) ==> r == Err(InvalidValue(OpUserId))
    ensures rules.idOk(accountId) && rules.idOk(opUserId) && !OpTypeOk(opType) ==> r == Err(InvalidValue(OpType))
    ensures rules.idOk(accountId) && rules.idOk(opUserId) && OpTypeOk(opType) && !rules.ipOk(ip) ==>
      r == Err(InvalidValue(Ip))
    ensures (rules.idOk(accountId) && rules.idOk(opUserId) && OpTypeOk(opType) && rules.ipOk(ip)
             && !rules.transactionIdOk(transactionId)) ==> r == Err(InvalidValue(TransactionId))
  {
    if !rules.idOk(accountId) then Err(InvalidValue(AccountId))
    else if !rules.idOk(opUserId) then Err(InvalidValue(OpUserId))
    else if !OpTypeOk(opType) then Err(InvalidValue(OpType))
    else if !rules.ipOk(ip) then Err(InvalidValue(Ip))
    else if !rules.transactionIdOk(transactionId) then Err(InvalidValue(TransactionId))
    else Ok(())
  }

  /** Every field of a stored entry passed its check. */
  predicate EntryChecked(rules: BaseRules, e: LogEntry) {
    LogCheck(rules, e.accountId, e.opUserId, e.opType, e.ip, e.transactionId).Ok?
  }

  /** The log table and its auto-increment counter. */
  class AccountLog {
    const rules: BaseRules
    var entries: seq<LogEntry>
    var nextId: nat

    /** Ids ascend and stay below the counter; every entry passed its checks. */
    ghost predicate Valid()
      reads this
    {
      && 1 <= nextId
      && (forall i | 0 <= i < |entries| :: entries[i].id < nextId && EntryChecked(rules, entries[i]))
      && (forall i, j | 0 <= i < j < |entries| :: entries[i].id < entries[j].id)
    }

    constructor (rules: BaseRules)
      ensures Valid()
      ensures this.rules == rules && entries == [] && nextId == 1
    {
      this.rules := rules;
      entries, nextId := [], 1;
    }

    /** Checks every field, then appends exactly one entry, an omitted
        `opData` stored as the empty object; a failed check appends nothing. */
    method Create(accountId: Value, opUserId: Value, opType: Value, opData: Value,
                  ip: Value, transactionId: Value, throwErrorFlag: bool)
      returns (r: Outcome<bool>)
      requires Valid()
      modifies this
      ensures Valid()
      ensures
        var ip', transactionId' := DefaultEmpty(ip), DefaultEmpty(transactionId);
        var check := LogCheck(rules, accountId, opUserId, opType, ip', transactionId');
        && (check.Err? ==>
              r == Caught(check.error, throwErrorFlag, false) && entries == old(entries) && nextId == old(nextId))
        && (check.Ok? ==>
              && r == Ok(true)
              && entries == old(entries) + [LogEntry(old(nextId), accountId, opUserId, opType, DefaultObject(opData), ip', transactionId')]
              && nextId == old(nextId) + 1)
    {
      var ip', transactionId' := DefaultEmpty(ip), DefaultEmpty(transactionId);
      var check := LogCheck(rules, accountId, opUserId, opType, ip', transactionId');
      if check.Err? {
        r := Caught(check.error, throwErrorFlag, false);
        return;
      }
      entries := entries + [LogEntry(nextId, accountId, opUserId, opType, DefaultObject(opData), ip', transactionId')];
      nextId := nextId + 1;
      r := Ok(true);
    }
  }
}
