/** The field rules of the account layer (lib/constant/accountConstant.js)
    and the value checker that applies them.

    A rule is a record the checker reads, as in the source: the username,
    password and token rules spread the non-empty-string rule and add a
    custom handler, length bounds or `allowNull`; operations spread them
    again with `allowUndefined: true` when an argument is optional. */
module AccountConstant {
  import opened Values

  const PASSWORD_LENGTH: nat := 64
  const TOKEN_LENGTH: nat := 32

  const OP_TYPE_CREATE := 1
  const OP_TYPE_UPDATE := 2
  const OP_TYPE_DELETE := 3
  const OP_TYPE_REGISTER := 101
  const OP_TYPE_LOGIN := 102
  const OP_TYPE_LOGOUT := 103
  const OP_TYPE_PASSWORD := 104

  const OP_TYPE_LIST: seq<int> := [
    OP_TYPE_CREATE, OP_TYPE_UPDATE, OP_TYPE_DELETE,
    OP_TYPE_REGISTER, OP_TYPE_LOGIN, OP_TYPE_LOGOUT, OP_TYPE_PASSWORD
  ]

  /** What a rule's `checkHandler` hands back: `false`, or nothing at all. */
  datatype HandlerResult = ReturnsFalse | ReturnsUndefined

  /** A rule for a value of string type; every one used here spreads the
      non-empty-string rule, so the empty string always fails. */
  datatype StringRule = StringRule(
    allowNull: bool,
    allowUndefined: bool,
    gte: Option<nat>,
    lte: Option<nat>,
    checkHandler: Option<string -> HandlerResult>)

  /** A rule for a value of number type. */
  datatype NumberRule = NumberRule(gte: Option<int>, lte: Option<int>, list: Option<seq<int>>)

  /** The value checker on a string-typed rule: `undefined` and `null` pass
      only when the rule allows them, any other non-string fails, and a
      string must be non-empty, within the length bounds, and not refused
      by the handler (a handler refuses only by returning `false`). */
  predicate CheckString(v: Value, rule: StringRule) {
    match v
    case Undefined => rule.allowUndefined
    case Null => rule.allowNull
    case Str(s) =>
      && s != ""
      && (rule.gte.Some? ==> |s| >= rule.gte.value)
      && (rule.lte.Some? ==> |s| <= rule.lte.value)
      && (rule.checkHandler.Some? ==> rule.checkHandler.value(s) != ReturnsFalse)
    case _ => false
  }

  /** The value checker on a number-typed rule. */
  predicate CheckNumber(v: Value, rule: NumberRule) {
    match v
    case Num(n) =>
      && (rule.gte.Some? ==> n >= rule.gte.value)
      && (rule.lte.Some? ==> n <= rule.lte.value)
      && (rule.list.Some? ==> n in rule.list.value)
    case _ => false
  }

  /** The value checker on a boolean-typed value without a rule. */
  predicate CheckBoolean(v: Value) {
    v.Bool?
  }

  predicate IsAsciiLetter(c: char) {
    'a' <= c <= 'z' || 'A' <= c <= 'Z'
  }

  /** The regular expression `^[a-zA-Z]` applied to a string. */
  predicate StartsWithLetter(s: string) {
    |s| > 0 && IsAsciiLetter(s[0])
  }

  /** The username handler: it returns `false` when the name does not start
      with a letter and otherwise falls off its end. */
  function UsernameCheckHandler(s: string): (r: HandlerResult)
    ensures r == ReturnsUndefined <==> |s| > 0 && ('a' <= s[0] <= 'z' || 'A' <= s[0] <= 'Z')
  {
    if !StartsWithLetter(s) then ReturnsFalse else ReturnsUndefined
  }

  const USERNAME_RULE := StringRule(
    allowNull := true, allowUndefined := false,
    gte := None, lte := None, checkHandler := Some(UsernameCheckHandler))

  const PASSWORD_RULE := StringRule(
    allowNull := false, allowUndefined := false,
    gte := Some(PASSWORD_LENGTH), lte := Some(PASSWORD_LENGTH), checkHandler := None)

  const TOKEN_RULE := StringRule(
    allowNull := false, allowUndefined := false,
    gte := Some(TOKEN_LENGTH), lte := Some(TOKEN_LENGTH), checkHandler := None)

  const OP_TYPE_RULE := NumberRule(gte := None, lte := None, list := Some(OP_TYPE_LIST))

  /** The token-kind rule of token verification: a number from 1 to 1. */
  const TOKEN_TYPE_RULE := NumberRule(gte := Some(1), lte := Some(1), list := None)

  /** The username rule, optionally spread with `allowUndefined: true`. */
  function UsernameOk(v: Value, allowUndefined: bool): (ok: bool)
    ensures ok <==>
      || (v == Undefined && allowUndefined)
      || v == Null
      || (v.Str? && |v.s| > 0 && IsAsciiLetter(v.s[0]))
  {
    CheckString(v, USERNAME_RULE.(allowUndefined := allowUndefined))
  }

  /** The password rule, optionally spread with `allowUndefined: true`. */
  function PasswordOk(v: Value, allowUndefined: bool): (ok: bool)
    ensures ok <==> (v == Undefined && allowUndefined) || (v.Str? && |v.s| == PASSWORD_LENGTH)
  {
    CheckString(v, PASSWORD_RULE.(allowUndefined := allowUndefined))
  }

  /** The token rule, optionally spread with `allowUndefined: true`. */
  function TokenOk(v: Value, allowUndefined: bool): (ok: bool)
    ensures ok <==> (v == Undefined && allowUndefined) || (v.Str? && |v.s| == TOKEN_LENGTH)
  {
    CheckString(v, TOKEN_RULE.(allowUndefined := allowUndefined))
  }

  /** The op-type rule: membership in the list of the seven op codes. */
  function OpTypeOk(v: Value): (ok: bool)
    ensures ok <==> v.Num? && v.n in {1, 2, 3, 101, 102, 103, 104}
  {
    CheckNumber(v, OP_TYPE_RULE)
  }

  /** The token-kind rule: only the number 1 passes. */
  function TokenTypeOk(v: Value): (ok: bool)
    ensures ok <==> v == Num(1)
  {
    CheckNumber(v, TOKEN_TYPE_RULE)
  }

  /** The seven op codes are pairwise distinct. */
  lemma OpTypesDistinct()
    ensures |OP_TYPE_LIST| == 7
    ensures forall i, j | 0 <= i < j < |OP_TYPE_LIST| :: OP_TYPE_LIST[i] != OP_TYPE_LIST[j]
  {
  }

  /** The username rule looks at the first character only: replacing
      everything after it never changes the verdict. */
  lemma UsernameOnlyFirstCharacter(s: string, tail: string)
    requires |s| > 0
    ensures UsernameOk(Str(s), false) == UsernameOk(Str(s[..1] + tail), false)
  {
  }

  /** Concrete verdicts of the field rules. */
  lemma RuleExamples()
    ensures UsernameOk(Str("a1_!"), false)
    ensures !UsernameOk(Str("1abc"), false)
    ensures !UsernameOk(Str(""), false)
    ensures UsernameOk(Null, false) && !UsernameOk(Undefined, false)
    ensures !TokenOk(Str(""), true) && !PasswordOk(Str(""), true)
    ensures !PasswordOk(Null, true)
  {
  }
}
