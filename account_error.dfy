/** The failures the account layer raises and the `throwErrorFlag`
    convention every operation shares (lib/error/accountError.js). */
module AccountError {

  /** The argument a failed value check was about. */
  datatype Param =
    | Username | Password | TokenA | UseCacheFlag | AutoSaveFlag
    | TokenType | Token
    | AccountId | OpUserId | OpType | Ip | TransactionId

  datatype Error =
    | InvalidValue(param: Param)   // raised by the value checker
    | AccountNotExist
    | AccountPasswordMismatch
    | AccountTokenMismatch

  const ACCOUNT_NOT_EXIST_CODE := 10001
  const ACCOUNT_PASSWORD_MISSMATCH_CODE := 10003
  const ACCOUNT_TOKEN_MISMATCH_CODE := 10005

  /** The stable numeric code an account error carries; distinct errors
      carry distinct codes. */
  function Code(e: Error): (c: int)
    requires !e.InvalidValue?
    ensures c == ACCOUNT_NOT_EXIST_CODE <==> e == AccountNotExist
    ensures c == ACCOUNT_PASSWORD_MISSMATCH_CODE <==> e == AccountPasswordMismatch
    ensures c == ACCOUNT_TOKEN_MISMATCH_CODE <==> e == AccountTokenMismatch
  {
    match e
    case AccountNotExist => ACCOUNT_NOT_EXIST_CODE
    case AccountPasswordMismatch => ACCOUNT_PASSWORD_MISSMATCH_CODE
    case AccountTokenMismatch => ACCOUNT_TOKEN_MISMATCH_CODE
  }

  /** What a call ends with: a returned value, or a thrown error. */
  datatype Outcome<+T> = Ok(value: T) | Err(error: Error)

  /** The catch block every operation ends with: rethrow when
      `throwErrorFlag` is true, otherwise return the operation's sentinel. */
  function Caught<T>(e: Error, throwErrorFlag: bool, sentinel: T): (r: Outcome<T>)
    ensures r.Err? <==> throwErrorFlag
    ensures r.Err? ==> r.error == e
    ensures r.Ok? ==> r.value == sentinel
  {
    if throwErrorFlag then Err(e) else Ok(sentinel)
  }
}
