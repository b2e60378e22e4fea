/** JSON texts as token sequences, after sections 2 to 5 of RFC 8259, and the values they denote. */
module JsonGrammar {

  datatype Token =
    | StringToken(text: string)
    | NumberToken(text: string)
    | NullToken | TrueToken | FalseToken
    | LBrace | RBrace | LBracket | RBracket | Colon | Comma
    | Eof
    | Invalid(text: string)

  /** A value of the host language; a number stands for itself as it is written. */
  datatype Value =
    | VNull
    | VBool(b: bool)
    | VNum(num: string)
    | VStr(str: string)
    | VArr(items: seq<Value>)
    | VObj(props: map<string, Value>)

  /** A JSON text as the grammar derives it. */
  datatype Tree =
    | JNull
    | JTrue
    | JFalse
    | JNum(text: string)
    | JStr(text: string)
    | JArr(items: seq<Tree>)
    | JObj(members: seq<Member>)
  datatype Member = Member(key: string, value: Tree)

  function Tokens(t: Tree): seq<Token>
    decreases t, 1
  {
    match t
    case JNull => [NullToken]
    case JTrue => [TrueToken]
    case JFalse => [FalseToken]
    case JNum(text) => [NumberToken(text)]
    case JStr(text) => [StringToken(text)]
    case JArr(items) => [LBracket] + ItemTokens(items) + [RBracket]
    case JObj(members) => [LBrace] + MemberTokens(members) + [RBrace]
  }

  /** Values separated by commas. */
  function ItemTokens(ts: seq<Tree>): seq<Token>
    decreases ts, 0
  {
    if ts == [] then []
    else if |ts| == 1 then Tokens(ts[0])
    else ItemTokens(ts[..|ts| - 1]) + [Comma] + Tokens(ts[|ts| - 1])
  }

  /** Members separated by commas. */
  function MemberTokens(ms: seq<Member>): seq<Token>
    decreases ms, 0
  {
    if ms == [] then []
    else if |ms| == 1 then [StringToken(ms[0].key), Colon] + Tokens(ms[0].value)
    else MemberTokens(ms[..|ms| - 1]) + [Comma]
         + ([StringToken(ms[|ms| - 1].key), Colon] + Tokens(ms[|ms| - 1].value))
  }

  /** Set a property of a plain object; `__proto__` is not a property of its own. */
  function Assign(props: map<string, Value>, key: string, v: Value): map<string, Value> {
    if key == "__proto__" then props else props[key := v]
  }

  /** The value a JSON text denotes; `unescape` turns the text of a string token into its content. */
  function Eval(t: Tree, unescape: string -> string): Value
    decreases t, 1
  {
    match t
    case JNull => VNull
    case JTrue => VBool(true)
    case JFalse => VBool(false)
    case JNum(text) => VNum(text)
    case JStr(text) => VStr(unescape(text))
    case JArr(items) => VArr(EvalItems(items, unescape))
    case JObj(members) => VObj(EvalMembers(members, unescape))
  }

  function EvalItems(ts: seq<Tree>, unescape: string -> string): (r: seq<Value>)
    ensures |r| == |ts|
    ensures forall i :: 0 <= i < |ts| ==> r[i] == Eval(ts[i], unescape)
    decreases ts, 0
  {
    if ts == [] then []
    else EvalItems(ts[..|ts| - 1], unescape) + [Eval(ts[|ts| - 1], unescape)]
  }

  function EvalMembers(ms: seq<Member>, unescape: string -> string): map<string, Value>
    decreases ms, 0
  {
    if ms == [] then map[]
    else Assign(EvalMembers(ms[..|ms| - 1], unescape), unescape(ms[|ms| - 1].key),
                Eval(ms[|ms| - 1].value, unescape))
  }

  /** Of several members with one key the last one counts. */
  lemma {:induction false} LastMemberWins(ms: seq<Member>, unescape: string -> string, i: nat)
    requires i < |ms| && unescape(ms[i].key) != "__proto__"
    requires forall j :: i < j < |ms| ==> unescape(ms[j].key) != unescape(ms[i].key)
    ensures var props := EvalMembers(ms, unescape);
            unescape(ms[i].key) in props && props[unescape(ms[i].key)] == Eval(ms[i].value, unescape)
    decreases |ms|
  {
    if i + 1 < |ms| {
      assert ms[..|ms| - 1][i] == ms[i];
      LastMemberWins(ms[..|ms| - 1], unescape, i);
    }
  }
}
