/** Completeness of the JSON parser: on the tokens of a JSON text it returns the text's value. */
module JsonComplete {
  import opened JsonGrammar
  import opened JsonParser

  lemma ShiftStep(stack: seq<Entry>, t: Token, rest: seq<Token>, y: string, s: int, u: string -> string)
    requires Top(stack) != 16 && ActionAt(Top(stack), Sym(t)) == Shift(s)
    ensures Run(Config(stack, [t] + rest, y), u)
         == Run(Config(stack + [Entry(Sym(t), VStr(TextOf(t)), s)], rest, TextOf(t)), u)
  {
    hide ActionAt, Sym, TextOf;
    var c := Config(stack, [t] + rest, y);
    assert c.input[1..] == rest;
    assert ActionOf(c) == Shift(s);
    StepDescends(c, u);
  }

  lemma ReduceStep(below: seq<Entry>, tops: seq<Entry>, rest: seq<Token>, y: string, rule: int, u: string -> string)
    requires rest != [] && Top(below + tops) != 16 && rule != 6
    requires ActionAt(Top(below + tops), Sym(rest[0])) == Reduce(rule) && |tops| == RuleLength(rule)
    ensures Run(Config(below + tops, rest, y), u)
         == Run(Config(below + [Entry(RuleSym(rule), Perform(rule, y, Values(tops), u),
                                      GotoAt(Top(below), RuleSym(rule)))], rest, y), u)
  {
    hide ActionAt, Sym, Perform, GotoAt, RuleSym, RuleLength;
    var c := Config(below + tops, rest, y);
    assert c.stack[..|c.stack| - |tops|] == below && c.stack[|c.stack| - |tops|..] == tops;
    assert ActionOf(c) == Reduce(rule);
    StepDescends(c, u);
  }

  /** The entry a value leaves on the stack. */
  function ValueEntry(stack: seq<Entry>, v: Value): Entry {
    Entry(13, v, GotoAt(Top(stack), 13))
  }

  lemma TopOfPush(stack: seq<Entry>, e: Entry)
    ensures Top(stack + [e]) == e.state
  {
  }

  /** Tokens that are values by themselves: the rule for the token, the nonterminal it gives, and
      the rule that makes it a value. */
  lemma RunPrimitive(stack: seq<Entry>, t: Token, rest: seq<Token>, y: string,
                     s: int, rule: int, v: Value, u: string -> string)
    requires WantsValue(Top(stack)) && rest != [] && EndsValue(Sym(rest[0]))
    requires ValueShift(Sym(t)) == Shift(s) && 9 <= s <= 13 && ValueRule(s) == rule && 1 <= rule <= 5
    requires v == match rule case 1 => VStr(u(TextOf(t))) case 2 => VNum(TextOf(t)) case 3 => VNull
                             case 4 => VBool(true) case _ => VBool(false)
    ensures Run(Config(stack, [t] + rest, y), u)
         == Run(Config(stack + [ValueEntry(stack, v)], rest, TextOf(t)), u)
  {
    hide Sym, TextOf, Run;
    var e := Entry(Sym(t), VStr(TextOf(t)), s);
    ShiftStep(stack, t, rest, y, s, u);
    TopOfPush(stack, e);
    ReduceStep(stack, [e], rest, TextOf(t), rule, u);
    var e' := Entry(RuleSym(rule), v, GotoAt(Top(stack), RuleSym(rule)));
    TopOfPush(stack, e');
    assert Perform(rule, TextOf(t), Values([e]), u) == v;
    var rule' := ValueRule(e'.state);
    ReduceStep(stack, [e'], rest, TextOf(t), rule', u);
    assert Perform(rule', TextOf(t), Values([e']), u) == v;
  }

  /** Expected a value: the tokens of a JSON text, followed by something that may follow a value,
      are replaced by one entry with the value the text denotes. */
  lemma {:induction false} RunValue(stack: seq<Entry>, t: Tree, rest: seq<Token>, y: string, u: string -> string)
    returns (y': string)
    requires WantsValue(Top(stack)) && rest != [] && EndsValue(Sym(rest[0]))
    ensures Run(Config(stack, Tokens(t) + rest, y), u)
         == Run(Config(stack + [ValueEntry(stack, Eval(t, u))], rest, y'), u)
    decreases t, 2
  {
    hide Run;
    match t
    case JNull => RunPrimitive(stack, NullToken, rest, y, 9, 3, VNull, u); y' := "null";
    case JTrue => RunPrimitive(stack, TrueToken, rest, y, 10, 4, VBool(true), u); y' := "true";
    case JFalse => RunPrimitive(stack, FalseToken, rest, y, 11, 5, VBool(false), u); y' := "false";
    case JNum(text) => RunPrimitive(stack, NumberToken(text), rest, y, 13, 2, VNum(text), u); y' := text;
    case JStr(text) => RunPrimitive(stack, StringToken(text), rest, y, 12, 1, VStr(u(text)), u); y' := text;
    case JArr(items) => y' := RunArray(stack, items, rest, y, u);
    case JObj(members) => y' := RunObject(stack, members, rest, y, u);
  }

  /** The last two steps of every value: a nonterminal at state `s` becomes a value. */
  lemma MakeValue(stack: seq<Entry>, sym: int, v: Value, rest: seq<Token>, y: string, u: string -> string)
    requires WantsValue(Top(stack)) && rest != [] && EndsValue(Sym(rest[0])) && (sym == 15 || sym == 16)
    ensures Run(Config(stack + [Entry(sym, v, GotoAt(Top(stack), sym))], rest, y), u)
         == Run(Config(stack + [ValueEntry(stack, v)], rest, y), u)
  {
    hide Run, Sym;
    var e := Entry(sym, v, GotoAt(Top(stack), sym));
    TopOfPush(stack, e);
    ReduceStep(stack, [e], rest, y, ValueRule(e.state), u);
    assert Perform(ValueRule(e.state), y, Values([e]), u) == v;
  }

  lemma {:induction false} RunArray(stack: seq<Entry>, items: seq<Tree>, rest: seq<Token>, y: string,
                                    u: string -> string)
    returns (y': string)
    requires WantsValue(Top(stack)) && rest != [] && EndsValue(Sym(rest[0]))
    ensures Run(Config(stack, [LBracket] + ItemTokens(items) + [RBracket] + rest, y), u)
         == Run(Config(stack + [ValueEntry(stack, VArr(EvalItems(items, u)))], rest, y'), u)
    decreases items, 1
  {
    hide Run, Eval, EvalItems, Tokens, ItemTokens;
    var open, close := Entry(23, VStr("["), 15), [RBracket] + rest;
    var inside := stack + [open];
    assert [LBracket] + ItemTokens(items) + [RBracket] + rest == [LBracket] + (ItemTokens(items) + close);
    ShiftStep(stack, LBracket, ItemTokens(items) + close, y, 15, u);
    y' := "]";
    var v := VArr(EvalItems(items, u));
    if items == [] {
      NoItems(u);
      assert [] + close == close;
      ShiftStep(inside, RBracket, rest, "[", 21, u);
      var e := Entry(24, VStr("]"), 21);
      ReduceStep(stack, [open, e], rest, "]", 18, u);
      assert inside + [e] == stack + [open, e];
      assert Perform(18, "]", Values([open, e]), u) == VArr([]);
    } else {
      var y1 := RunItems(inside, items, close, "[", u);
      var list := Entry(25, v, 22);
      ShiftStep(inside + [list], RBracket, rest, y1, 27, u);
      var e := Entry(24, VStr("]"), 27);
      assert inside + [list] + [e] == stack + [open, list, e];
      ReduceStep(stack, [open, list, e], rest, "]", 19, u);
      assert Perform(19, "]", Values([open, list, e]), u) == v;
    }
    MakeValue(stack, 16, v, rest, "]", u);
  }

  lemma NoItems(u: string -> string)
    ensures ItemTokens([]) == [] && EvalItems([], u) == [] && MemberTokens([]) == [] && EvalMembers([], u) == map[]
  {
  }

  lemma ItemsSplit(ts: seq<Tree>, u: string -> string)
    requires |ts| > 0
    ensures |ts| == 1 ==> ItemTokens(ts) == Tokens(ts[0]) && EvalItems(ts, u) == [Eval(ts[0], u)]
    ensures |ts| > 1 ==> var n := |ts| - 1;
              ItemTokens(ts) == ItemTokens(ts[..n]) + [Comma] + Tokens(ts[n])
              && EvalItems(ts, u) == EvalItems(ts[..n], u) + [Eval(ts[n], u)]
  {
    if |ts| == 1 {
      assert ts[..0] == [];
      assert EvalItems(ts, u) == EvalItems(ts[..0], u) + [Eval(ts[0], u)];
    }
  }

  /** After an opening bracket: values and commas become one element list. */
  lemma {:induction false} RunItems(stack: seq<Entry>, ts: seq<Tree>, rest: seq<Token>, y: string, u: string -> string)
    returns (y': string)
    requires Top(stack) == 15 && |ts| > 0 && rest != [] && (Sym(rest[0]) == 22 || Sym(rest[0]) == 24)
    ensures Run(Config(stack, ItemTokens(ts) + rest, y), u)
         == Run(Config(stack + [Entry(25, VArr(EvalItems(ts, u)), 22)], rest, y'), u)
    decreases ts, 0
  {
    hide Run, Eval, EvalItems, Tokens, ItemTokens;
    var n := |ts| - 1;
    var v := Eval(ts[n], u);
    ItemsSplit(ts, u);
    if n == 0 {
      y' := RunValue(stack, ts[0], rest, y, u);
      var e := ValueEntry(stack, v);
      TopOfPush(stack, e);
      ReduceStep(stack, [e], rest, y', 20, u);
      assert Perform(20, y', Values([e]), u) == VArr([v]);
    } else {
      var more := Tokens(ts[n]) + rest;
      assert ItemTokens(ts[..n]) + [Comma] + Tokens(ts[n]) + rest == ItemTokens(ts[..n]) + ([Comma] + more);
      var y1 := RunItems(stack, ts[..n], [Comma] + more, y, u);
      var list, comma := Entry(25, VArr(EvalItems(ts[..n], u)), 22), Entry(22, VStr(","), 28);
      ShiftStep(stack + [list], Comma, more, y1, 28, u);
      var s := stack + [list] + [comma];
      y' := RunValue(s, ts[n], rest, ",", u);
      var e := Entry(13, v, 31);
      assert s + [e] == stack + [list, comma, e];
      ReduceStep(stack, [list, comma, e], rest, y', 21, u);
      assert Perform(21, y', Values([list, comma, e]), u) == VArr(EvalItems(ts[..n], u) + [v]);
    }
  }

  lemma {:induction false} RunObject(stack: seq<Entry>, ms: seq<Member>, rest: seq<Token>, y: string,
                                     u: string -> string)
    returns (y': string)
    requires WantsValue(Top(stack)) && rest != [] && EndsValue(Sym(rest[0]))
    ensures Run(Config(stack, [LBrace] + MemberTokens(ms) + [RBrace] + rest, y), u)
         == Run(Config(stack + [ValueEntry(stack, VObj(EvalMembers(ms, u)))], rest, y'), u)
    decreases ms, 1
  {
    hide Run, Eval, EvalMembers, Tokens, MemberTokens;
    var open, close := Entry(17, VStr("{"), 14), [RBrace] + rest;
    var inside := stack + [open];
    assert [LBrace] + MemberTokens(ms) + [RBrace] + rest == [LBrace] + (MemberTokens(ms) + close);
    ShiftStep(stack, LBrace, MemberTokens(ms) + close, y, 14, u);
    y' := "}";
    var v := VObj(EvalMembers(ms, u));
    if ms == [] {
      NoItems(u);
      assert [] + close == close;
      ShiftStep(inside, RBrace, rest, "{", 17, u);
      var e := Entry(18, VStr("}"), 17);
      ReduceStep(stack, [open, e], rest, "}", 13, u);
      assert inside + [e] == stack + [open, e];
      assert Perform(13, "}", Values([open, e]), u) == VObj(map[]);
    } else {
      var y1 := RunMembers(inside, ms, close, "{", u);
      var list := Entry(19, v, 18);
      ShiftStep(inside + [list], RBrace, rest, y1, 24, u);
      var e := Entry(18, VStr("}"), 24);
      assert inside + [list] + [e] == stack + [open, list, e];
      ReduceStep(stack, [open, list, e], rest, "}", 14, u);
      assert Perform(14, "}", Values([open, list, e]), u) == v;
    }
    MakeValue(stack, 15, v, rest, "}", u);
  }

  function Pair(m: Member, u: string -> string): Value {
    VArr([VStr(u(m.key)), Eval(m.value, u)])
  }

  /** A key, a colon and a value become one member. */
  lemma {:induction false} RunMember(stack: seq<Entry>, m: Member, rest: seq<Token>, y: string, u: string -> string)
    returns (y': string)
    requires (Top(stack) == 14 || Top(stack) == 25) && rest != [] && (Sym(rest[0]) == 18 || Sym(rest[0]) == 22)
    ensures Run(Config(stack, [StringToken(m.key), Colon] + Tokens(m.value) + rest, y), u)
         == Run(Config(stack + [Entry(20, Pair(m, u), GotoAt(Top(stack), 20))], rest, y'), u)
    decreases m, 3
  {
    hide Run, Eval, Tokens;
    var more := Tokens(m.value) + rest;
    var key := StringToken(m.key);
    assert [key, Colon] + Tokens(m.value) + rest == [key] + ([Colon] + more);
    ShiftStep(stack, key, [Colon] + more, y, 12, u);
    var e := Entry(4, VStr(m.key), 12);
    ReduceStep(stack, [e], [Colon] + more, m.key, 1, u);
    var k := Entry(3, VStr(u(m.key)), 20);
    assert Perform(1, m.key, Values([e]), u) == k.val;
    ShiftStep(stack + [k], Colon, more, m.key, 26, u);
    var colon := Entry(21, VStr(":"), 26);
    y' := RunValue(stack + [k] + [colon], m.value, rest, ":", u);
    var v := Entry(13, Eval(m.value, u), 30);
    assert stack + [k] + [colon] + [v] == stack + [k, colon, v];
    ReduceStep(stack, [k, colon, v], rest, y', 15, u);
    assert Perform(15, y', Values([k, colon, v]), u) == Pair(m, u);
  }

  lemma MembersSplit(ms: seq<Member>, u: string -> string)
    requires |ms| > 0
    ensures var n := |ms| - 1;
            var last := [StringToken(ms[n].key), Colon] + Tokens(ms[n].value);
            MemberTokens(ms) == (if n == 0 then last else MemberTokens(ms[..n]) + [Comma] + last)
            && EvalMembers(ms, u) == Assign(EvalMembers(ms[..n], u), u(ms[n].key), Eval(ms[n].value, u))
  {
  }

  /** After an opening brace: members and commas become one member list. */
  lemma {:induction false} RunMembers(stack: seq<Entry>, ms: seq<Member>, rest: seq<Token>, y: string,
                                      u: string -> string)
    returns (y': string)
    requires Top(stack) == 14 && |ms| > 0 && rest != [] && (Sym(rest[0]) == 18 || Sym(rest[0]) == 22)
    ensures Run(Config(stack, MemberTokens(ms) + rest, y), u)
         == Run(Config(stack + [Entry(19, VObj(EvalMembers(ms, u)), 18)], rest, y'), u)
    decreases ms, 0
  {
    hide Run, Eval, EvalMembers, Tokens, MemberTokens;
    var n := |ms| - 1;
    MembersSplit(ms, u);
    var last := [StringToken(ms[n].key), Colon] + Tokens(ms[n].value);
    if n == 0 {
      y' := RunMember(stack, ms[0], rest, y, u);
      var e := Entry(20, Pair(ms[0], u), 19);
      ReduceStep(stack, [e], rest, y', 16, u);
      assert ms[..0] == [];
      NoItems(u);
      assert Perform(16, y', Values([e]), u) == VObj(EvalMembers(ms, u));
    } else {
      assert MemberTokens(ms[..n]) + [Comma] + last + rest == MemberTokens(ms[..n]) + ([Comma] + (last + rest));
      var y1 := RunMembers(stack, ms[..n], [Comma] + (last + rest), y, u);
      var list, comma := Entry(19, VObj(EvalMembers(ms[..n], u)), 18), Entry(22, VStr(","), 25);
      ShiftStep(stack + [list], Comma, last + rest, y1, 25, u);
      var s := stack + [list] + [comma];
      y' := RunMember(s, ms[n], rest, ",", u);
      var e := Entry(20, Pair(ms[n], u), 29);
      assert s + [e] == stack + [list, comma, e];
      ReduceStep(stack, [list, comma, e], rest, y', 17, u);
      assert Perform(17, y', Values([list, comma, e]), u) == VObj(EvalMembers(ms, u));
    }
  }

  /** Every JSON text is accepted, with the value it denotes, whatever follows its end. */
  lemma ParserIsComplete(t: Tree, rest: seq<Token>, u: string -> string)
    ensures Run(Config([], Tokens(t) + [Eof] + rest, ""), u) == Done(Eval(t, u))
  {
    hide Run, Eval, Tokens;
    assert Tokens(t) + [Eof] + rest == Tokens(t) + ([Eof] + rest);
    var y := RunValue([], t, [Eof] + rest, "", u);
    var e := Entry(13, Eval(t, u), 2);
    assert [] + [ValueEntry([], Eval(t, u))] == [e];
    ShiftStep([e], Eof, rest, y, 16, u);
    LastStep(e, Entry(14, VStr(""), 16), rest, u);
  }

  lemma LastStep(e: Entry, eof: Entry, rest: seq<Token>, u: string -> string)
    requires eof.state == 16
    ensures Run(Config([e] + [eof], rest, ""), u) == Done(e.val)
  {
    assert [e] + [eof] == [e, eof];
    assert [e, eof][0..] == [e, eof];
  }
}
