/** The table-driven JSON parser: one loop over a state stack, a value stack and one token of
    lookahead. */
module JsonParser {
  import opened JsonGrammar

  // ----- the tables -----

  /** The symbol number of a token. */
  function Sym(t: Token): int {
    match t
    case StringToken(_) => 4
    case NumberToken(_) => 6
    case NullToken => 8
    case TrueToken => 10
    case FalseToken => 11
    case Eof => 14
    case LBrace => 17
    case RBrace => 18
    case Colon => 21
    case Comma => 22
    case LBracket => 23
    case RBracket => 24
    case Invalid(_) => -1
  }

  function TextOf(t: Token): string {
    match t
    case StringToken(text) => text
    case NumberToken(text) => text
    case NullToken => "null"
    case TrueToken => "true"
    case FalseToken => "false"
    case Eof => ""
    case LBrace => "{"
    case RBrace => "}"
    case Colon => ":"
    case Comma => ","
    case LBracket => "["
    case RBracket => "]"
    case Invalid(text) => text
  }

  datatype Action = Shift(state: int) | Reduce(rule: int) | Accept | NoAction

  /** The symbols a value may be followed by. */
  predicate EndsValue(sym: int) {
    sym == 14 || sym == 18 || sym == 22 || sym == 24
  }

  /** States in which a value is expected. */
  predicate WantsValue(state: int) {
    state == 0 || state == 15 || state == 26 || state == 28
  }

  /** Shifts of the tokens that start a value. */
  function ValueShift(sym: int): Action {
    if sym == 4 then Shift(12)
    else if sym == 6 then Shift(13)
    else if sym == 8 then Shift(9)
    else if sym == 10 then Shift(10)
    else if sym == 11 then Shift(11)
    else if sym == 17 then Shift(14)
    else if sym == 23 then Shift(15)
    else NoAction
  }

  /** The rule a state reduces by before a symbol that ends a value, or 0. */
  function ValueRule(state: int): int {
    match state
    case 3 => 7 case 4 => 8 case 5 => 9 case 6 => 10 case 7 => 11 case 8 => 12
    case 9 => 3 case 10 => 4 case 11 => 5 case 12 => 1 case 13 => 2
    case 17 => 13 case 21 => 18 case 24 => 14 case 27 => 19
    case _ => 0
  }

  function ActionAt(state: int, sym: int): Action {
    if ValueRule(state) != 0 then
      if EndsValue(sym) || (state == 12 && sym == 21) then Reduce(ValueRule(state)) else NoAction
    else match state
      case 0 => ValueShift(sym)
      case 1 => if sym == 1 then Accept else NoAction
      case 2 => if sym == 14 then Shift(16) else NoAction
      case 14 => if sym == 4 then Shift(12) else if sym == 18 then Shift(17) else NoAction
      case 15 => if sym == 24 then Shift(21) else ValueShift(sym)
      case 16 => if sym == 1 then Reduce(6) else NoAction
      case 18 => if sym == 18 then Shift(24) else if sym == 22 then Shift(25) else NoAction
      case 19 => if sym == 18 || sym == 22 then Reduce(16) else NoAction
      case 20 => if sym == 21 then Shift(26) else NoAction
      case 22 => if sym == 22 then Shift(28) else if sym == 24 then Shift(27) else NoAction
      case 23 => if sym == 22 || sym == 24 then Reduce(20) else NoAction
      case 25 => if sym == 4 then Shift(12) else NoAction
      case 26 => ValueShift(sym)
      case 28 => ValueShift(sym)
      case 29 => if sym == 18 || sym == 22 then Reduce(17) else NoAction
      case 30 => if sym == 18 || sym == 22 then Reduce(15) else NoAction
      case 31 => if sym == 22 || sym == 24 then Reduce(21) else NoAction
      case _ => NoAction
  }

  /** The state after a nonterminal, or -1. */
  function GotoAt(state: int, sym: int): int {
    if WantsValue(state) && sym == 3 then 5
    else if WantsValue(state) && sym == 5 then 6
    else if WantsValue(state) && sym == 7 then 3
    else if WantsValue(state) && sym == 9 then 4
    else if WantsValue(state) && sym == 15 then 7
    else if WantsValue(state) && sym == 16 then 8
    else if sym == 13 then
      if state == 0 then 2 else if state == 15 then 23 else if state == 26 then 30
      else if state == 28 then 31 else -1
    else if state == 0 && sym == 12 then 1
    else if state == 15 && sym == 25 then 22
    else if state == 14 && sym == 3 then 20
    else if state == 14 && sym == 19 then 18
    else if state == 14 && sym == 20 then 19
    else if state == 25 && sym == 3 then 20
    else if state == 25 && sym == 20 then 29
    else -1
  }

  function RuleSym(rule: int): int {
    match rule
    case 1 => 3 case 2 => 5 case 3 => 7 case 4 => 9 case 5 => 9 case 6 => 12
    case 7 => 13 case 8 => 13 case 9 => 13 case 10 => 13 case 11 => 13 case 12 => 13
    case 13 => 15 case 14 => 15 case 15 => 20 case 16 => 19 case 17 => 19
    case 18 => 16 case 19 => 16 case 20 => 25 case _ => 25
  }

  function RuleLength(rule: int): (n: nat)
    ensures 1 <= n <= 3
  {
    match rule
    case 6 => 2 case 13 => 2 case 14 => 3 case 15 => 3 case 17 => 3
    case 18 => 2 case 19 => 3 case 21 => 3 case _ => 1
  }

  /** The semantic action of a rule on the values of its right-hand side. */
  function Perform(rule: int, yytext: string, args: seq<Value>, unescape: string -> string): Value
    requires |args| == RuleLength(rule)
  {
    match rule
    case 1 => VStr(unescape(yytext))
    case 2 => VNum(yytext)
    case 3 => VNull
    case 4 => VBool(true)
    case 5 => VBool(false)
    case 6 => args[0]
    case 13 => VObj(map[])
    case 14 => args[1]
    case 15 => VArr([args[0], args[2]])
    case 16 => SetMember(map[], args[0])
    case 17 => if args[0].VObj? then SetMember(args[0].props, args[2]) else args[0]
    case 18 => VArr([])
    case 19 => args[1]
    case 20 => VArr([args[0]])
    case 21 => if args[0].VArr? then VArr(args[0].items + [args[2]]) else args[0]
    case _ => args[0]
  }

  /** Store a member, which is a two-element array of key and value. */
  function SetMember(props: map<string, Value>, pair: Value): Value {
    if pair.VArr? && |pair.items| == 2 && pair.items[0].VStr?
    then VObj(Assign(props, pair.items[0].str, pair.items[1])) else VObj(props)
  }

  // ----- the machine -----

  /** A stack entry: a symbol, its value, and the state entered with it. */
  datatype Entry = Entry(sym: int, val: Value, state: int)

  /** The stack above the initial state 0, the tokens not yet shifted, and the text of the token
      shifted last. */
  datatype Config = Config(stack: seq<Entry>, input: seq<Token>, yytext: string)

  datatype Outcome = Next(c: Config) | Done(v: Value) | Thrown

  function Top(stack: seq<Entry>): int {
    if stack == [] then 0 else stack[|stack| - 1].state
  }

  /** The action in a configuration; state 16 acts without looking at the input. */
  function ActionOf(c: Config): Action {
    if Top(c.stack) == 16 then Reduce(6)
    else ActionAt(Top(c.stack), if c.input == [] then 1 else Sym(c.input[0]))
  }

  function Values(stack: seq<Entry>): (r: seq<Value>)
    ensures |r| == |stack|
    ensures forall i :: 0 <= i < |stack| ==> r[i] == stack[i].val
  {
    seq(|stack|, i requires 0 <= i < |stack| => stack[i].val)
  }

  function ReduceBy(c: Config, rule: int, unescape: string -> string): Outcome {
    var n := RuleLength(rule);
    if |c.stack| < n then Thrown
    else
      var below, args := c.stack[..|c.stack| - n], Values(c.stack[|c.stack| - n..]);
      var v := Perform(rule, c.yytext, args, unescape);
      if rule == 6 then Done(v)
      else Next(c.(stack := below + [Entry(RuleSym(rule), v, GotoAt(Top(below), RuleSym(rule)))]))
  }

  function Step(c: Config, unescape: string -> string): Outcome {
    match ActionOf(c)
    case Shift(s) =>
      if c.input == [] then Thrown
      else
        var t := c.input[0];
        Next(Config(c.stack + [Entry(Sym(t), VStr(TextOf(t)), s)], c.input[1..], TextOf(t)))
    case Reduce(rule) => ReduceBy(c, rule, unescape)
    case Accept => Done(VBool(true))
    case NoAction => Thrown
  }

  /** How many one-symbol reductions a state can still start. */
  function Rank(state: int): nat {
    if 9 <= state <= 13 then 3
    else if 3 <= state <= 8 then 2
    else if state == 2 || state == 19 || state == 23 || state == 30 || state == 31 then 1
    else 0
  }

  lemma UnitReductionsDescend(state: int, sym: int, below: int)
    requires ActionAt(state, sym).Reduce? && RuleLength(ActionAt(state, sym).rule) == 1
    ensures Rank(GotoAt(below, RuleSym(ActionAt(state, sym).rule))) < Rank(state)
  {
  }

  /** What the loop returns. */
  function Run(c: Config, unescape: string -> string): Outcome
    decreases |c.input|, |c.stack|, Rank(Top(c.stack))
  {
    match Step(c, unescape)
    case Done(v) => Done(v)
    case Thrown => Thrown
    case Next(c') =>
      StepDescends(c, unescape);
      Run(c', unescape)
  }

  lemma StepDescends(c: Config, unescape: string -> string)
    requires Step(c, unescape).Next?
    ensures var c' := Step(c, unescape).c;
            |c'.input| < |c.input| ||
            (c'.input == c.input && (|c'.stack| < |c.stack| ||
             (|c'.stack| == |c.stack| && Rank(Top(c'.stack)) < Rank(Top(c.stack)))))
  {
    var a := ActionOf(c);
    if a.Reduce? && RuleLength(a.rule) == 1 {
      var sym := if c.input == [] then 1 else Sym(c.input[0]);
      UnitReductionsDescend(Top(c.stack), sym, Top(c.stack[..|c.stack| - 1]));
    }
  }
}
