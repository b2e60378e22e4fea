/** Soundness of the JSON parser: whatever it accepts starts with a JSON text, and the value it
    returns is the one that text denotes.  The loop itself, which throws on everything else. */
module JsonSound {
  import opened JsonGrammar
  import opened JsonParser
  import JsonComplete

  /** What a stack entry was built from. */
  datatype Node =
    | NToken(t: Token)
    | NString(text: string)
    | NNumber(text: string)
    | NNull
    | NBool(b: bool)
    | NValue(tree: Tree)
    | NObject(members: seq<Member>)
    | NArray(items: seq<Tree>)
    | NMember(m: Member)
    | NMembers(members: seq<Member>)
    | NItems(items: seq<Tree>)

  function SymOf(n: Node): int {
    match n
    case NToken(t) => Sym(t)
    case NString(_) => 3
    case NNumber(_) => 5
    case NNull => 7
    case NBool(_) => 9
    case NValue(_) => 13
    case NObject(_) => 15
    case NArray(_) => 16
    case NMember(_) => 20
    case NMembers(_) => 19
    case NItems(_) => 25
  }

  function Yield(n: Node): seq<Token> {
    match n
    case NToken(t) => [t]
    case NString(text) => [StringToken(text)]
    case NNumber(text) => [NumberToken(text)]
    case NNull => [NullToken]
    case NBool(b) => [if b then TrueToken else FalseToken]
    case NValue(tree) => Tokens(tree)
    case NObject(ms) => Tokens(JObj(ms))
    case NArray(ts) => Tokens(JArr(ts))
    case NMember(m) => [StringToken(m.key), Colon] + Tokens(m.value)
    case NMembers(ms) => MemberTokens(ms)
    case NItems(ts) => ItemTokens(ts)
  }

  function ValueOf(n: Node, u: string -> string): Value {
    match n
    case NToken(t) => VStr(TextOf(t))
    case NString(text) => VStr(u(text))
    case NNumber(text) => VNum(text)
    case NNull => VNull
    case NBool(b) => VBool(b)
    case NValue(tree) => Eval(tree, u)
    case NObject(ms) => VObj(EvalMembers(ms, u))
    case NArray(ts) => VArr(EvalItems(ts, u))
    case NMember(m) => VArr([VStr(u(m.key)), Eval(m.value, u)])
    case NMembers(ms) => VObj(EvalMembers(ms, u))
    case NItems(ts) => VArr(EvalItems(ts, u))
  }

  /** Lists on the stack are never empty. */
  predicate Proper(n: Node) {
    (n.NMembers? ==> n.members != []) && (n.NItems? ==> n.items != [])
  }

  /** The table leads from state `prev` over the node to state `state`. */
  predicate Leads(prev: int, n: Node, state: int) {
    if n.NToken? then ActionAt(prev, Sym(n.t)) == Shift(state)
    else GotoAt(prev, SymOf(n)) == state && state >= 0
  }

  predicate EntryOk(prev: int, e: Entry, n: Node, u: string -> string) {
    Proper(n) && e.sym == SymOf(n) && e.val == ValueOf(n, u) && Leads(prev, n, e.state)
  }

  predicate Parses(stack: seq<Entry>, nodes: seq<Node>, u: string -> string) {
    |nodes| == |stack| &&
    forall i :: 0 <= i < |stack| ==> EntryOk(Top(stack[..i]), stack[i], nodes[i], u)
  }

  function Yields(nodes: seq<Node>): seq<Token> {
    if nodes == [] then [] else Yields(nodes[..|nodes| - 1]) + Yield(nodes[|nodes| - 1])
  }

  lemma {:induction false} YieldsConcat(x: seq<Node>, y: seq<Node>)
    ensures Yields(x + y) == Yields(x) + Yields(y)
    decreases |y|
  {
    hide Yield;
    if y == [] {
      assert x + y == x;
    } else {
      YieldsConcat(x, y[..|y| - 1]);
      assert (x + y)[..|x + y| - 1] == x + y[..|y| - 1];
    }
  }

  /** The configuration has parsed a prefix of `input` into `nodes`. */
  predicate Sound(c: Config, nodes: seq<Node>, input: seq<Token>, u: string -> string) {
    && Parses(c.stack, nodes, u)
    && Yields(nodes) + c.input == input
    && (nodes != [] && nodes[|nodes| - 1].NToken? ==> c.yytext == TextOf(nodes[|nodes| - 1].t))
  }

  /** Where a state is entered from, and with what: the table read backwards. */
  lemma EnteredFrom(prev: int, n: Node, state: int)
    requires Leads(prev, n, state)
    ensures state > 0
    ensures state == 2 ==> n.NValue? && prev == 0
    ensures state == 16 ==> n == NToken(Eof) && prev == 2
    ensures state == 3 ==> n.NNull? && WantsValue(prev)
    ensures state == 4 ==> n.NBool? && WantsValue(prev)
    ensures state == 5 ==> n.NString? && WantsValue(prev)
    ensures state == 6 ==> n.NNumber? && WantsValue(prev)
    ensures state == 7 ==> n.NObject? && WantsValue(prev)
    ensures state == 8 ==> n.NArray? && WantsValue(prev)
    ensures state == 9 ==> n == NToken(NullToken) && WantsValue(prev)
    ensures state == 10 ==> n == NToken(TrueToken) && WantsValue(prev)
    ensures state == 11 ==> n == NToken(FalseToken) && WantsValue(prev)
    ensures state == 12 ==> n.NToken? && n.t.StringToken? && (WantsValue(prev) || prev == 14 || prev == 25)
    ensures state == 13 ==> n.NToken? && n.t.NumberToken? && WantsValue(prev)
    ensures state == 14 ==> n == NToken(LBrace) && WantsValue(prev)
    ensures state == 15 ==> n == NToken(LBracket) && WantsValue(prev)
    ensures state == 17 ==> n == NToken(RBrace) && prev == 14
    ensures state == 18 ==> n.NMembers? && prev == 14
    ensures state == 19 ==> n.NMember? && prev == 14
    ensures state == 20 ==> n.NString? && (prev == 14 || prev == 25)
    ensures state == 21 ==> n == NToken(RBracket) && prev == 15
    ensures state == 22 ==> n.NItems? && prev == 15
    ensures state == 23 ==> n.NValue? && prev == 15
    ensures state == 24 ==> n == NToken(RBrace) && prev == 18
    ensures state == 25 ==> n == NToken(Comma) && prev == 18
    ensures state == 26 ==> n == NToken(Colon) && prev == 20
    ensures state == 27 ==> n == NToken(RBracket) && prev == 22
    ensures state == 28 ==> n == NToken(Comma) && prev == 22
    ensures state == 29 ==> n.NMember? && prev == 25
    ensures state == 30 ==> n.NValue? && prev == 26
    ensures state == 31 ==> n.NValue? && prev == 28
  {
  }

  /** The node a rule makes of the nodes of its right-hand side. */
  function Combine(rule: int, ns: seq<Node>): Node
    requires |ns| == RuleLength(rule)
  {
    match rule
    case 1 => if ns[0].NToken? then NString(TextOf(ns[0].t)) else ns[0]
    case 2 => if ns[0].NToken? then NNumber(TextOf(ns[0].t)) else ns[0]
    case 3 => NNull
    case 4 => NBool(true)
    case 5 => NBool(false)
    case 7 => NValue(JNull)
    case 8 => if ns[0].NBool? then NValue(if ns[0].b then JTrue else JFalse) else ns[0]
    case 9 => if ns[0].NString? then NValue(JStr(ns[0].text)) else ns[0]
    case 10 => if ns[0].NNumber? then NValue(JNum(ns[0].text)) else ns[0]
    case 11 => if ns[0].NObject? then NValue(JObj(ns[0].members)) else ns[0]
    case 12 => if ns[0].NArray? then NValue(JArr(ns[0].items)) else ns[0]
    case 13 => NObject([])
    case 14 => if ns[1].NMembers? then NObject(ns[1].members) else ns[1]
    case 15 => if ns[0].NString? && ns[2].NValue? then NMember(Member(ns[0].text, ns[2].tree)) else ns[0]
    case 16 => if ns[0].NMember? then NMembers([ns[0].m]) else ns[0]
    case 17 => if ns[0].NMembers? && ns[2].NMember? then NMembers(ns[0].members + [ns[2].m]) else ns[0]
    case 18 => NArray([])
    case 19 => if ns[1].NItems? then NArray(ns[1].items) else ns[1]
    case 20 => if ns[0].NValue? then NItems([ns[0].tree]) else ns[0]
    case 21 => if ns[0].NItems? && ns[2].NValue? then NItems(ns[0].items + [ns[2].tree]) else ns[0]
    case _ => ns[0]
  }

  /** The right-hand side of a rule. */
  predicate Fits(rule: int, ns: seq<Node>) {
    |ns| == RuleLength(rule) && (forall i :: 0 <= i < |ns| ==> Proper(ns[i])) &&
    match rule
    case 1 => ns[0].NToken? && ns[0].t.StringToken?
    case 2 => ns[0].NToken? && ns[0].t.NumberToken?
    case 3 => ns[0] == NToken(NullToken)
    case 4 => ns[0] == NToken(TrueToken)
    case 5 => ns[0] == NToken(FalseToken)
    case 6 => ns[0].NValue? && ns[1] == NToken(Eof)
    case 7 => ns[0].NNull?
    case 8 => ns[0].NBool?
    case 9 => ns[0].NString?
    case 10 => ns[0].NNumber?
    case 11 => ns[0].NObject?
    case 12 => ns[0].NArray?
    case 13 => ns[0] == NToken(LBrace) && ns[1] == NToken(RBrace)
    case 14 => ns[0] == NToken(LBrace) && ns[1].NMembers? && ns[2] == NToken(RBrace)
    case 15 => ns[0].NString? && ns[1] == NToken(Colon) && ns[2].NValue?
    case 16 => ns[0].NMember?
    case 17 => ns[0].NMembers? && ns[1] == NToken(Comma) && ns[2].NMember?
    case 18 => ns[0] == NToken(LBracket) && ns[1] == NToken(RBracket)
    case 19 => ns[0] == NToken(LBracket) && ns[1].NItems? && ns[2] == NToken(RBracket)
    case 20 => ns[0].NValue?
    case 21 => ns[0].NItems? && ns[1] == NToken(Comma) && ns[2].NValue?
    case _ => false
  }

  function NodeValues(ns: seq<Node>, u: string -> string): (r: seq<Value>)
    ensures |r| == |ns| && forall i :: 0 <= i < |ns| ==> r[i] == ValueOf(ns[i], u)
  {
    seq(|ns|, i requires 0 <= i < |ns| => ValueOf(ns[i], u))
  }

  /** A rule applied to its right-hand side gives a node of its symbol. */
  lemma CombineFits(rule: int, ns: seq<Node>)
    requires Fits(rule, ns) && rule != 6
    ensures var n := Combine(rule, ns); Proper(n) && SymOf(n) == RuleSym(rule) && !n.NToken?
  {
  }

  lemma TokensOfMembers(ms: seq<Member>, m: Member, u: string -> string)
    ensures Tokens(JObj(ms)) == [LBrace] + MemberTokens(ms) + [RBrace]
    ensures MemberTokens([]) == [] && EvalMembers([], u) == map[]
    ensures MemberTokens([m]) == [StringToken(m.key), Colon] + Tokens(m.value)
    ensures EvalMembers([m], u) == Assign(map[], u(m.key), Eval(m.value, u))
    ensures ms != [] ==>
              MemberTokens(ms + [m]) == MemberTokens(ms) + [Comma] + ([StringToken(m.key), Colon] + Tokens(m.value))
    ensures EvalMembers(ms + [m], u) == Assign(EvalMembers(ms, u), u(m.key), Eval(m.value, u))
  {
    var ms' := ms + [m];
    assert ms'[..|ms'| - 1] == ms && ms'[|ms'| - 1] == m;
    assert [m][..0] == [];
  }

  lemma TokensOfItems(ts: seq<Tree>, t: Tree, u: string -> string)
    ensures Tokens(JArr(ts)) == [LBracket] + ItemTokens(ts) + [RBracket]
    ensures ItemTokens([]) == [] && EvalItems([], u) == []
    ensures ItemTokens([t]) == Tokens(t) && EvalItems([t], u) == [Eval(t, u)]
    ensures ts != [] ==> ItemTokens(ts + [t]) == ItemTokens(ts) + [Comma] + Tokens(t)
    ensures EvalItems(ts + [t], u) == EvalItems(ts, u) + [Eval(t, u)]
  {
    var ts' := ts + [t];
    assert ts'[..|ts'| - 1] == ts && ts'[|ts'| - 1] == t;
    assert [t][..0] == [];
  }

  lemma TokensOfAtoms(text: string, u: string -> string)
    ensures Tokens(JNull) == [NullToken] && Tokens(JTrue) == [TrueToken] && Tokens(JFalse) == [FalseToken]
    ensures Tokens(JNum(text)) == [NumberToken(text)] && Tokens(JStr(text)) == [StringToken(text)]
    ensures Eval(JNull, u) == VNull && Eval(JTrue, u) == VBool(true) && Eval(JFalse, u) == VBool(false)
    ensures Eval(JNum(text), u) == VNum(text) && Eval(JStr(text), u) == VStr(u(text))
  {
  }

  /** A rule applied to its right-hand side yields the same tokens, and its value is what the
      semantic action computes. */
  lemma CombineWorks(rule: int, ns: seq<Node>, y: string, u: string -> string)
    requires Fits(rule, ns) && rule != 6
    requires rule <= 2 ==> y == TextOf(ns[0].t)
    ensures Yields(ns) == Yield(Combine(rule, ns))
    ensures Perform(rule, y, NodeValues(ns, u), u) == ValueOf(Combine(rule, ns), u)
  {
    hide Tokens, MemberTokens, ItemTokens, Eval, EvalMembers, EvalItems, Yields;
    YieldsOfFew(ns);
    if rule <= 12 {
      CombineAtom(rule, ns, y, u);
    } else if rule <= 17 {
      CombineObject(rule, ns, y, u);
    } else {
      CombineArray(rule, ns, y, u);
    }
  }

  lemma CombineAtom(rule: int, ns: seq<Node>, y: string, u: string -> string)
    requires Fits(rule, ns) && rule != 6 && rule <= 12
    requires rule <= 2 ==> y == TextOf(ns[0].t)
    ensures Yield(ns[0]) == Yield(Combine(rule, ns))
    ensures Perform(rule, y, NodeValues(ns, u), u) == ValueOf(Combine(rule, ns), u)
  {
    hide MemberTokens, ItemTokens, EvalMembers, EvalItems;
    match Combine(rule, ns)
    case NValue(JNum(text)) => TokensOfAtoms(text, u);
    case NValue(JStr(text)) => TokensOfAtoms(text, u);
    case _ => TokensOfAtoms("", u);
  }

  lemma CombineObject(rule: int, ns: seq<Node>, y: string, u: string -> string)
    requires Fits(rule, ns) && 13 <= rule <= 17
    ensures (if |ns| == 1 then Yield(ns[0])
             else if |ns| == 2 then Yield(ns[0]) + Yield(ns[1])
             else Yield(ns[0]) + Yield(ns[1]) + Yield(ns[2])) == Yield(Combine(rule, ns))
    ensures Perform(rule, y, NodeValues(ns, u), u) == ValueOf(Combine(rule, ns), u)
  {
    hide Tokens, MemberTokens, ItemTokens, Eval, EvalMembers, EvalItems;
    var any := Member("", JNull);
    match rule
    case 13 => TokensOfMembers([], any, u);
    case 14 => TokensOfMembers(ns[1].members, any, u);
    case 16 => TokensOfMembers([], ns[0].m, u);
    case 17 => TokensOfMembers(ns[0].members, ns[2].m, u);
    case _ => assert [StringToken(ns[0].text)] + [Colon] == [StringToken(ns[0].text), Colon];
  }

  lemma CombineArray(rule: int, ns: seq<Node>, y: string, u: string -> string)
    requires Fits(rule, ns) && rule >= 18
    ensures (if |ns| == 1 then Yield(ns[0])
             else if |ns| == 2 then Yield(ns[0]) + Yield(ns[1])
             else Yield(ns[0]) + Yield(ns[1]) + Yield(ns[2])) == Yield(Combine(rule, ns))
    ensures Perform(rule, y, NodeValues(ns, u), u) == ValueOf(Combine(rule, ns), u)
  {
    hide Tokens, MemberTokens, ItemTokens, Eval, EvalMembers, EvalItems;
    match rule
    case 18 => TokensOfItems([], JNull, u);
    case 19 => TokensOfItems(ns[1].items, JNull, u);
    case 20 => TokensOfItems([], ns[0].tree, u);
    case _ => CombineItems(rule, ns, y, u);
  }

  lemma CombineItems(rule: int, ns: seq<Node>, y: string, u: string -> string)
    requires Fits(rule, ns) && rule > 20
    ensures |ns| == 3 && Yield(ns[0]) + Yield(ns[1]) + Yield(ns[2]) == Yield(Combine(rule, ns))
    ensures Perform(rule, y, NodeValues(ns, u), u) == ValueOf(Combine(rule, ns), u)
  {
    hide Tokens, MemberTokens, ItemTokens, Eval, EvalMembers, EvalItems;
    TokensOfItems(ns[0].items, ns[2].tree, u);
  }

  lemma YieldsOfFew(ns: seq<Node>)
    requires 1 <= |ns| <= 3
    ensures Yields(ns) == (if |ns| == 1 then Yield(ns[0])
                           else if |ns| == 2 then Yield(ns[0]) + Yield(ns[1])
                           else Yield(ns[0]) + Yield(ns[1]) + Yield(ns[2]))
  {
    hide Yield;
    assert ns[..|ns| - 1] == ns[..|ns| - 1];
    assert Yields([]) == [];
    assert ns[..1][..0] == [];
    assert Yields(ns[..1]) == [] + Yield(ns[0]);
    assert [] + Yield(ns[0]) == Yield(ns[0]);
    if |ns| == 1 {
      assert ns[..1] == ns;
    } else {
      assert ns[..2][..1] == ns[..1];
      assert Yields(ns[..2]) == Yields(ns[..1]) + Yield(ns[1]);
      if |ns| == 2 {
        assert ns[..2] == ns;
      }
    }
  }

  // ----- one step -----

  lemma TopPair(stack: seq<Entry>, nodes: seq<Node>, u: string -> string, k: nat)
    requires Parses(stack, nodes, u) && k < |stack|
    ensures Leads(Top(stack[..k]), nodes[k], stack[k].state) && Proper(nodes[k])
    ensures Top(stack[..k]) == (if k == 0 then 0 else stack[k - 1].state)
    ensures stack[k].state > 0
  {
    assert EntryOk(Top(stack[..k]), stack[k], nodes[k], u);
    EnteredFrom(Top(stack[..k]), nodes[k], stack[k].state);
  }

  /** In a state that reduces, the top of the stack is the right-hand side of the rule, and the
      state below it has a successor for the rule's symbol. */
  lemma ReduceFits(stack: seq<Entry>, nodes: seq<Node>, sym: int, u: string -> string)
    requires Parses(stack, nodes, u)
    requires ActionAt(Top(stack), sym).Reduce? || Top(stack) == 16
    ensures var rule := if Top(stack) == 16 then 6 else ActionAt(Top(stack), sym).rule;
            var k := |stack| - RuleLength(rule);
            && k >= 0 && Fits(rule, nodes[k..])
            && (rule == 6 ==> k == 0)
            && (rule != 6 ==> GotoAt(Top(stack[..k]), RuleSym(rule)) >= 0)
            && (rule <= 2 ==> nodes[|nodes| - 1].NToken?)
  {
    hide Parses, Leads, Proper;
    var n := |stack| - 1;
    assert |nodes| == |stack| by { SameLength(stack, nodes, u); }
    assert n >= 0;
    TopPair(stack, nodes, u, n);
    EnteredFrom(Top(stack[..n]), nodes[n], stack[n].state);
    if n >= 1 {
      TopPair(stack, nodes, u, n - 1);
      EnteredFrom(Top(stack[..n - 1]), nodes[n - 1], stack[n - 1].state);
    }
    if n >= 2 {
      TopPair(stack, nodes, u, n - 2);
      EnteredFrom(Top(stack[..n - 2]), nodes[n - 2], stack[n - 2].state);
    }
  }

  lemma SameLength(stack: seq<Entry>, nodes: seq<Node>, u: string -> string)
    requires Parses(stack, nodes, u)
    ensures |nodes| == |stack|
  {
  }

  lemma ParsesPush(stack: seq<Entry>, nodes: seq<Node>, e: Entry, n: Node, u: string -> string)
    requires Parses(stack, nodes, u) && EntryOk(Top(stack), e, n, u)
    ensures Parses(stack + [e], nodes + [n], u)
  {
    hide EntryOk;
    var s, ns := stack + [e], nodes + [n];
    forall i | 0 <= i < |s|
      ensures EntryOk(Top(s[..i]), s[i], ns[i], u)
    {
      if i < |stack| {
        assert s[..i] == stack[..i];
      } else {
        assert s[..i] == stack;
      }
    }
  }

  lemma ParsesPop(stack: seq<Entry>, nodes: seq<Node>, k: nat, u: string -> string)
    requires Parses(stack, nodes, u) && k <= |stack|
    ensures Parses(stack[..k], nodes[..k], u)
  {
    hide EntryOk;
    forall i | 0 <= i < k
      ensures EntryOk(Top(stack[..k][..i]), stack[..k][i], nodes[..k][i], u)
    {
      assert stack[..k][..i] == stack[..i];
    }
  }

  lemma ValuesOfNodes(stack: seq<Entry>, nodes: seq<Node>, k: nat, u: string -> string)
    requires Parses(stack, nodes, u) && k <= |stack|
    ensures Values(stack[k..]) == NodeValues(nodes[k..], u)
  {
    forall i | 0 <= i < |stack| - k
      ensures Values(stack[k..])[i] == NodeValues(nodes[k..], u)[i]
    {
      assert EntryOk(Top(stack[..k + i]), stack[k + i], nodes[k + i], u);
    }
  }

  lemma ShiftSound(c: Config, nodes: seq<Node>, input: seq<Token>, u: string -> string) returns (nodes': seq<Node>)
    requires Sound(c, nodes, input, u) && ActionOf(c).Shift? && Step(c, u).Next?
    ensures Sound(Step(c, u).c, nodes', input, u)
  {
    hide ActionAt, Parses, Yields, GotoAt;
    var t := c.input[0];
    nodes' := nodes + [NToken(t)];
    ParsesPush(c.stack, nodes, Entry(Sym(t), VStr(TextOf(t)), ActionOf(c).state), NToken(t), u);
    YieldsConcat(nodes, [NToken(t)]);
    YieldsOfFew([NToken(t)]);
    assert Yields(nodes) + [t] + c.input[1..] == Yields(nodes) + c.input;
  }

  lemma ReduceSound(c: Config, nodes: seq<Node>, input: seq<Token>, u: string -> string) returns (nodes': seq<Node>)
    requires Sound(c, nodes, input, u) && ActionOf(c).Reduce? && ActionOf(c).rule != 6
    ensures Step(c, u).Next? && Sound(Step(c, u).c, nodes', input, u)
  {
    hide Parses, Yields, GotoAt, Fits, Step;
    var sym := if c.input == [] then 1 else Sym(c.input[0]);
    ReduceFits(c.stack, nodes, sym, u);
    SameLength(c.stack, nodes, u);
    nodes' := ReduceSoundBy(c, nodes, input, ActionOf(c).rule, u);
  }

  lemma ReduceSoundBy(c: Config, nodes: seq<Node>, input: seq<Token>, rule: int, u: string -> string)
    returns (nodes': seq<Node>)
    requires Sound(c, nodes, input, u) && ActionOf(c) == Reduce(rule) && rule != 6
    requires RuleLength(rule) <= |c.stack| == |nodes| && Fits(rule, nodes[|nodes| - RuleLength(rule)..])
    requires GotoAt(Top(c.stack[..|c.stack| - RuleLength(rule)]), RuleSym(rule)) >= 0
    requires rule <= 2 ==> nodes[|nodes| - 1].NToken?
    ensures Step(c, u).Next? && Sound(Step(c, u).c, nodes', input, u)
  {
    hide ActionOf, ActionAt, Parses, Yields, GotoAt, Fits, Combine, Perform, Yield, ValueOf, RuleSym, RuleLength;
    var k := |c.stack| - RuleLength(rule);
    var below, ns := nodes[..k], nodes[k..];
    RuleTwo(rule, ns);
    CombineFits(rule, ns);
    CombineWorks(rule, ns, c.yytext, u);
    ValuesOfNodes(c.stack, nodes, k, u);
    ParsesPop(c.stack, nodes, k, u);
    var n := Combine(rule, ns);
    nodes' := below + [n];
    ParsesPush(c.stack[..k], below,
               Entry(RuleSym(rule), ValueOf(n, u), GotoAt(Top(c.stack[..k]), RuleSym(rule))), n, u);
    assert nodes == below + ns;
    YieldsConcat(below, ns);
    YieldsConcat(below, [n]);
    YieldsOfFew([n]);
  }

  lemma RuleTwo(rule: int, ns: seq<Node>)
    requires Fits(rule, ns)
    ensures rule <= 2 ==> |ns| == 1 && ns[0].NToken?
    ensures |ns| == RuleLength(rule)
  {
  }

  /** The final reduction: the input starts with a JSON text and the end of input, and the result
      is the value of that text. */
  lemma AcceptSound(c: Config, nodes: seq<Node>, input: seq<Token>, u: string -> string) returns (t: Tree)
    requires Sound(c, nodes, input, u) && Top(c.stack) == 16
    ensures Step(c, u) == Done(Eval(t, u)) && Tokens(t) + [Eof] <= input
  {
    hide Yields, Eval, Tokens;
    ReduceFits(c.stack, nodes, 1, u);
    t := nodes[0].tree;
    assert nodes[0..] == nodes;
    YieldsOfFew(nodes);
    assert EntryOk(Top(c.stack[..0]), c.stack[0], nodes[0], u);
    assert c.stack[0..] == c.stack;
    assert Perform(6, c.yytext, Values(c.stack), u) == c.stack[0].val;
    assert Yields(nodes) == Tokens(t) + [Eof];
    assert (Tokens(t) + [Eof] + c.input)[..|Tokens(t)| + 1] == Tokens(t) + [Eof];
  }

  lemma NeverAccepts(c: Config, nodes: seq<Node>, input: seq<Token>, u: string -> string)
    requires Sound(c, nodes, input, u)
    ensures ActionOf(c) != Accept
  {
    hide ActionAt, Leads, ActionOf;
    AcceptInOne(c);
    if c.stack != [] {
      var n := |c.stack| - 1;
      TopPair(c.stack, nodes, u, n);
      NoStateOne(Top(c.stack[..n]), nodes[n], c.stack[n].state);
    }
  }

  lemma AcceptInOne(c: Config)
    ensures ActionOf(c) == Accept ==> Top(c.stack) == 1
  {
  }

  lemma NoStateOne(prev: int, n: Node, state: int)
    requires Leads(prev, n, state)
    ensures state != 1
  {
  }

  lemma {:induction false} RunSound(c: Config, nodes: seq<Node>, input: seq<Token>, u: string -> string)
    returns (t: Tree)
    requires Sound(c, nodes, input, u) && Run(c, u).Done?
    ensures Run(c, u) == Done(Eval(t, u)) && Tokens(t) + [Eof] <= input
    decreases |c.input|, |c.stack|, Rank(Top(c.stack))
  {
    hide Sound, ActionAt, Rank, Eval, Tokens, ReduceBy;
    NeverAccepts(c, nodes, input, u);
    if Top(c.stack) == 16 {
      t := AcceptSound(c, nodes, input, u);
    } else {
      var nodes';
      OnlySixEnds(c, u);
      if ActionOf(c).Shift? {
        nodes' := ShiftSound(c, nodes, input, u);
      } else {
        nodes' := ReduceSound(c, nodes, input, u);
      }
      StepDescends(c, u);
      t := RunSound(Step(c, u).c, nodes', input, u);
    }
  }

  /** Rule 6 is only used in state 16. */
  lemma OnlySixEnds(c: Config, u: string -> string)
    requires Top(c.stack) != 16
    ensures ActionOf(c).Reduce? ==> ActionOf(c).rule != 6
  {
  }

  /** The input starts with a JSON text, followed by the end of input, that denotes `v`. */
  ghost predicate Denotes(input: seq<Token>, v: Value, u: string -> string) {
    exists t :: Tokens(t) + [Eof] <= input && v == Eval(t, u)
  }

  /** The parser returns a value exactly for inputs that start with a JSON text followed by the
      end of input, and then the value is the one the text denotes. */
  lemma ParserDecidesJson(input: seq<Token>, u: string -> string, v: Value)
    ensures Run(Config([], input, ""), u) == Done(v)
            <==> Denotes(input, v, u)
  {
    hide Run, Eval, Tokens;
    if Run(Config([], input, ""), u) == Done(v) {
      assert Sound(Config([], input, ""), [], input, u);
      var t := RunSound(Config([], input, ""), [], input, u);
      assert Tokens(t) + [Eof] <= input && v == Eval(t, u);
    }
    if Denotes(input, v, u) {
      var t :| Tokens(t) + [Eof] <= input && v == Eval(t, u);
      var rest := input[|Tokens(t)| + 1..];
      assert input == Tokens(t) + [Eof] + rest;
      JsonComplete.ParserIsComplete(t, rest, u);
    }
  }

  // ----- the loop -----

  datatype Result = Parsed(v: Value) | Error

  predicate HasErrorEntry(state: int) {
    ActionAt(state, 2) != NoAction
  }

  /** The state stack as the loop keeps it: state 0, then a symbol and a state for each entry. */
  function Flat(stack: seq<Entry>): (r: seq<int>)
    ensures |r| == 2 * |stack| + 1 && r[|r| - 1] == Top(stack)
  {
    if stack == [] then [0]
    else Flat(stack[..|stack| - 1]) + [stack[|stack| - 1].sym, stack[|stack| - 1].state]
  }

  lemma {:induction false} FlatPrefix(stack: seq<Entry>, k: nat)
    requires k <= |stack|
    ensures Flat(stack)[..2 * k + 1] == Flat(stack[..k])
    decreases |stack|
  {
    if k < |stack| {
      FlatPrefix(stack[..|stack| - 1], k);
      assert stack[..|stack| - 1][..k] == stack[..k];
    } else {
      assert stack[..k] == stack;
    }
  }

  lemma FlatPush(stack: seq<Entry>, e: Entry)
    ensures Flat(stack + [e]) == Flat(stack) + [e.sym, e.state]
  {
    assert (stack + [e])[..|stack + [e]| - 1] == stack;
  }

  /** The values above the initial null. */
  predicate Holds(vstack: seq<Value>, stack: seq<Entry>) {
    |vstack| == |stack| + 1 && forall i :: 0 <= i < |stack| ==> vstack[i + 1] == stack[i].val
  }

  /** Where the search for an error entry ends: at entry `depth` of the stack, with the error symbol
      as the next lookahead, or with a throw at a state 0 that has no error entry. */
  datatype Recovery = Resumed(depth: nat) | Halted(depth: nat)

  /** The column of the error symbol is empty. */
  lemma NoErrorEntry(state: int)
    ensures !HasErrorEntry(state)
  {
    assert !EndsValue(2) && ValueShift(2) == NoAction;
  }

  /** After a report that does not throw, the recovery loop pops the stack until a state has an error
      entry, and throws at a state 0 that has none. */
  method Recover(stack0: seq<int>, vstack0: seq<Value>) returns (r: Recovery)
    requires |stack0| == 2 * |vstack0| - 1 && stack0[0] == 0
    ensures r.depth < |vstack0| && HasErrorEntry(stack0[2 * r.depth]) == r.Resumed?
    ensures r.Halted? ==> stack0[2 * r.depth] == 0
    ensures forall k :: r.depth < k < |vstack0| ==> !HasErrorEntry(stack0[2 * k]) && stack0[2 * k] != 0
  {
    hide HasErrorEntry;
    var stack, vstack := stack0, vstack0;
    var state := stack[|stack| - 1];
    while true
      invariant 0 < |vstack| <= |vstack0| && |stack| == 2 * |vstack| - 1 && stack == stack0[..|stack|]
      invariant state == stack[|stack| - 1]
      invariant forall k :: |vstack| <= k < |vstack0| ==> !HasErrorEntry(stack0[2 * k]) && stack0[2 * k] != 0
      decreases |stack|
    {
      if HasErrorEntry(state) {
        return Resumed(|vstack| - 1);
      }
      if state == 0 {
        return Halted(|vstack| - 1);
      }
      stack := stack[..|stack| - 2];
      vstack := vstack[..|vstack| - 1];
      state := stack[|stack| - 1];
    }
  }

  /** Parse a token sequence: a value is returned exactly when the input starts with a JSON text
      and the end of input, and it is the value of that text; every other input ends in an error,
      whether or not the error reporter throws by itself. */
  method Parse(input: seq<Token>, unescape: string -> string, reportThrows: bool) returns (r: Result)
    ensures forall v :: r == Parsed(v) <==> Denotes(input, v, unescape)
  {
    hide Run, Denotes;
    r := ParseLoop(input, unescape, reportThrows);
    forall v
      ensures r == Parsed(v) <==> Denotes(input, v, unescape)
    {
      ParserDecidesJson(input, unescape, v);
    }
  }

  method ParseLoop(input: seq<Token>, unescape: string -> string, reportThrows: bool) returns (r: Result)
    ensures match Run(Config([], input, ""), unescape)
            case Done(v) => r == Parsed(v)
            case _ => r == Error
  {
    hide ActionAt, Perform, GotoAt, RuleSym, Run, Flat, Sym, Step, TextOf, Holds, Rank, Values, RuleLength;
    var stack: seq<int>, vstack, yytext := [0], [VNull], "";
    var pos := 0;
    var symbol := -2; // no lookahead yet
    ghost var c := Config([], input, "");
    FlatOfNothing();
    assert input[0..] == input;
    while true
      invariant 0 <= pos <= |input|
      invariant c.input == input[pos..] && c.yytext == yytext
      invariant stack == Flat(c.stack) && Holds(vstack, c.stack)
      invariant symbol != -2 ==> symbol == if pos < |input| then Sym(input[pos]) else 1
      invariant Run(c, unescape) == Run(Config([], input, ""), unescape)
      decreases |c.input|, |c.stack|, Rank(Top(c.stack))
    {
      var state := stack[|stack| - 1];
      var action;
      if state == 16 {
        action := Reduce(6);
      } else {
        if symbol == -2 {
          symbol := if pos < |input| then Sym(input[pos]) else 1;
        }
        action := ActionAt(state, symbol);
      }
      assert action == ActionOf(c);
      RunUnfolds(c, unescape);
      OtherTaken(c, vstack, unescape);
      match action {
        case NoAction =>
          if reportThrows {
            return Error;
          }
          FlatBottom(c.stack);
          var recovery := Recover(stack, vstack);
          NoErrorEntry(stack[2 * recovery.depth]);
          assert recovery.Halted?;
          return Error;
        case Shift(s) =>
          ShiftTaken(c, vstack, s, unescape);
          if pos == |input| {
            return Error;
          }
          assert input[pos..][1..] == input[pos + 1..];
          yytext := TextOf(input[pos]);
          stack := stack + [symbol, s];
          vstack := vstack + [VStr(yytext)];
          symbol := -2;
          pos := pos + 1;
          c := Step(c, unescape).c;
        case Reduce(rule) =>
          var len := RuleLength(rule);
          if |vstack| - 1 < len {
            TooShort(c, vstack, rule, unescape);
            return Error;
          }
          var v;
          stack, vstack, v := ReduceStep(stack, vstack, yytext, rule, unescape, c);
          if rule == 6 {
            return Parsed(v);
          }
          c := Step(c, unescape).c;
        case Accept =>
          return Parsed(VBool(true));
      }
    }
  }

  lemma FlatOfNothing()
    ensures Flat([]) == [0] && Holds([VNull], [])
  {
  }

  lemma {:induction false} FlatBottom(stack: seq<Entry>)
    ensures Flat(stack)[0] == 0
    decreases |stack|
  {
    if stack != [] {
      FlatBottom(stack[..|stack| - 1]);
    }
  }

  lemma RunUnfolds(c: Config, u: string -> string)
    ensures match Step(c, u)
            case Done(v) => Run(c, u) == Done(v)
            case Thrown => Run(c, u) == Thrown
            case Next(c') => Run(c, u) == Run(c', u)
    ensures Step(c, u).Next? ==>
              var c' := Step(c, u).c;
              |c'.input| < |c.input| ||
              (c'.input == c.input && (|c'.stack| < |c.stack| ||
               (|c'.stack| == |c.stack| && Rank(Top(c'.stack)) < Rank(Top(c.stack)))))
  {
    if Step(c, u).Next? {
      StepDescends(c, u);
    }
  }

  lemma OtherTaken(c: Config, vstack: seq<Value>, u: string -> string)
    requires Holds(vstack, c.stack)
    ensures ActionOf(c) == Accept ==> Step(c, u) == Done(VBool(true))
    ensures ActionOf(c) == NoAction ==> Step(c, u) == Thrown
    ensures |vstack| == |c.stack| + 1
  {
    hide ActionOf;
  }

  lemma TooShort(c: Config, vstack: seq<Value>, rule: int, u: string -> string)
    requires Holds(vstack, c.stack) && ActionOf(c) == Reduce(rule) && |vstack| - 1 < RuleLength(rule)
    ensures Step(c, u).Thrown?
  {
    ReduceTaken(c, vstack, rule, u);
  }

  /** Replaces the right-hand side of a rule on the stacks by its left-hand side. */
  method ReduceStep(stack0: seq<int>, vstack0: seq<Value>, yytext: string, rule: int, unescape: string -> string,
                    ghost c: Config)
    returns (stack: seq<int>, vstack: seq<Value>, v: Value)
    requires stack0 == Flat(c.stack) && Holds(vstack0, c.stack) && c.yytext == yytext
    requires ActionOf(c) == Reduce(rule) && |vstack0| - 1 >= RuleLength(rule)
    ensures rule == 6 ==> Step(c, unescape) == Done(v)
    ensures rule != 6 ==> Step(c, unescape).Next?
    ensures rule != 6 ==>
              var c' := Step(c, unescape).c;
              c'.input == c.input && c'.yytext == yytext && stack == Flat(c'.stack) && Holds(vstack, c'.stack)
  {
    hide ActionOf, Perform, GotoAt, RuleSym, Flat, Step, Holds, RuleLength, Top;
    ReduceTaken(c, vstack0, rule, unescape);
    var len, sym := RuleLength(rule), RuleSym(rule);
    ghost var below := c.stack[..|c.stack| - len];
    v := Perform(rule, yytext, vstack0[|vstack0| - len..], unescape);
    stack, vstack := stack0[..|stack0| - 2 * len], vstack0[..|vstack0| - len];
    assert stack == Flat(below) && stack[|stack| - 1] == Top(below);
    var newState := GotoAt(stack[|stack| - 1], sym);
    stack := stack + [sym, newState];
    vstack := vstack + [v];
  }

  lemma ShiftTaken(c: Config, vstack: seq<Value>, s: int, u: string -> string)
    requires Holds(vstack, c.stack) && ActionOf(c) == Shift(s)
    ensures if c.input == [] then Step(c, u).Thrown?
            else
              var t := c.input[0];
              var e := Entry(Sym(t), VStr(TextOf(t)), s);
              && Step(c, u) == Next(Config(c.stack + [e], c.input[1..], TextOf(t)))
              && Flat(c.stack + [e]) == Flat(c.stack) + [e.sym, s]
              && Holds(vstack + [e.val], c.stack + [e])
  {
    hide ActionOf, Flat, Sym, TextOf;
    if c.input != [] {
      var t := c.input[0];
      FlatPush(c.stack, Entry(Sym(t), VStr(TextOf(t)), s));
    }
  }

  lemma ReduceTaken(c: Config, vstack: seq<Value>, rule: int, u: string -> string)
    requires Holds(vstack, c.stack) && ActionOf(c) == Reduce(rule)
    ensures |vstack| == |c.stack| + 1
    ensures var n := RuleLength(rule);
            if |c.stack| < n then Step(c, u).Thrown?
            else
              var below, sym := c.stack[..|c.stack| - n], RuleSym(rule);
              var v := Perform(rule, c.yytext, vstack[|vstack| - n..], u);
              var e := Entry(sym, v, GotoAt(Top(below), sym));
              && Step(c, u) == (if rule == 6 then Done(v) else Next(c.(stack := below + [e])))
              && |Flat(c.stack)| - 2 * n > 0
              && Flat(c.stack)[..|Flat(c.stack)| - 2 * n] == Flat(below)
              && Flat(below + [e]) == Flat(below) + [sym, e.state]
              && Holds(vstack[..|vstack| - n] + [v], below + [e])
  {
    hide ActionOf, Flat, Perform, GotoAt, RuleSym, RuleLength;
    var n := RuleLength(rule);
    if n <= |c.stack| {
      var below, sym := c.stack[..|c.stack| - n], RuleSym(rule);
      var v := Perform(rule, c.yytext, vstack[|vstack| - n..], u);
      assert vstack[|vstack| - n..] == Values(c.stack[|c.stack| - n..]);
      FlatPrefix(c.stack, |c.stack| - n);
      FlatPush(below, Entry(sym, v, GotoAt(Top(below), sym)));
    }
  }
}
