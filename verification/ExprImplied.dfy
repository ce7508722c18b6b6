/** The operand that `*` leaves out: the arguments the expression was called with stand for it
    (source/expr2.c:1409-1417, 1202-1210). */
module ExprImplied {
  import opened Options
  import opened ExprSyntax
  import opened ExprMachine
  import opened ExprEval
  import opened ExprReduce
  import opened ExprOperands
  import opened ExprParse
  import opened ExprTheorems
  import opened ExprPrecedence
  import opened ExprLaws

  /** The operators that may stand behind a `*` with nothing to dereference, but those that short-circuit. */
  predicate MayFollow(op: BinOp) {
    (op.Int? || op.Float? || op == Bool(DXor) || op.StrCat? || op.Compare?) && op != Float(Mul)
  }

  /** An assignment may, too. */
  predicate Follows(op: BinOp) {
    MayFollow(op) || op.Assign?
  }

  /** The arguments on the stack under a constant. */
  ghost predicate OverArguments(h: Host, ev: Ev, w: int, b: string) {
    Ready(h, ev, [], 1, 1) && ev.stack == [MAGIC_TOKEN, w] && w > 0 && Operand(h, ev, 1, w, VStr(b))
  }

  /** Both operands are off the stack and nothing was asked. */
  ghost predicate Popped(h: Host, ev: Ev, e1: Ev) {
    && Ready(h, e1, [], 1, 1) && e1.stack == [] && e1.history == ev.history && e1.noeval == ev.noeval
    && Untouched(ev, e1, 1) && |e1.table| == |ev.table|
  }

  /** The constant comes off first, */
  lemma TakeConstant(h: Host, ev: Ev, w: int, b: string)
    requires OverArguments(h, ev, w, b)
    ensures Pop(ev) == (w, ev.(stack := [MAGIC_TOKEN]))
    ensures var e1 := ev.(stack := [MAGIC_TOKEN]); Good(h, e1) && Holds(h, e1, w, VStr(b))
    ensures Lawful(h) && ev.noeval == 0
  {
    hide Represents, CachesOf, Lawful, Pop;
    PopTwo(ev, [], MAGIC_TOKEN, w);
    assert [] + [MAGIC_TOKEN] == [MAGIC_TOKEN];
  }

  /** then the arguments, and what asking for either conversion has changed is the constant's entry. */
  lemma TakeArguments(h: Host, ev: Ev, w: int, b: string, e2: Ev)
    requires OverArguments(h, ev, w, b) && Good(h, e2) && OnlyAt(ev.(stack := [MAGIC_TOKEN]), e2, w)
    requires Quiet(ev.(stack := [MAGIC_TOKEN]), e2) && e2.history == ev.history
    ensures Pop(e2) == (MAGIC_TOKEN, e2.(stack := []))
    ensures EvOk(e2.(stack := [])) && Popped(h, ev, e2.(stack := []))
  {
    hide Represents, CachesOf, Lawful, Pop;
    PopOne(e2, [], MAGIC_TOKEN);
  }

  lemma MagicInts(h: Host, ev: Ev, w: int, b: string)
    requires OverArguments(h, ev, w, b)
    ensures var (x, y, e1) := PopInts(h, ev); x == h.atol(h.args) && y == h.atol(b) && Popped(h, ev, e1)
  {
    hide Represents, EvOk, Later, CachesOf, GetInt, AsInt, Lawful;
    hide OverArguments, Popped, Pop, Holds, OnlyAt, Step, Quiet;
    TakeConstant(h, ev, w, b);
    var e1 := ev.(stack := [MAGIC_TOKEN]);
    IntHolds(h, e1, w, VStr(b));
    ConstantInts(h, b, e1.history);
    var e2 := GetInt(h, e1, w).1;
    TakeArguments(h, ev, w, b, e2);
    ArgumentsInts(h, e2.(stack := []));
  }

  lemma ConstantInts(h: Host, b: string, hist: History)
    ensures AsInt(h, VStr(b), hist) == (h.atol(b), VStr(b), hist)
  {
  }

  lemma ArgumentsInts(h: Host, ev: Ev)
    requires EvOk(ev)
    ensures GetInt(h, ev, MAGIC_TOKEN) == (h.atol(h.args), ev)
  {
    hide EvOk;
  }

  lemma MagicFloats(h: Host, ev: Ev, w: int, b: string)
    requires OverArguments(h, ev, w, b)
    ensures var (x, y, e1) := PopFloats(h, ev); x == h.atof(h.args) && y == h.atof(b) && Popped(h, ev, e1)
  {
    hide Represents, EvOk, Later, CachesOf, GetFloat, AsFloat, Lawful;
    hide OverArguments, Popped, Pop, Holds, OnlyAt, Step, Quiet;
    TakeConstant(h, ev, w, b);
    var e1 := ev.(stack := [MAGIC_TOKEN]);
    FloatHolds(h, e1, w, VStr(b));
    ConstantFloats(h, b, e1.history);
    var e2 := GetFloat(h, e1, w).1;
    TakeArguments(h, ev, w, b, e2);
    ArgumentsFloats(h, e2.(stack := []));
  }

  lemma ConstantFloats(h: Host, b: string, hist: History)
    ensures AsFloat(h, VStr(b), hist) == (h.atof(b), VStr(b), hist)
  {
  }

  lemma ArgumentsFloats(h: Host, ev: Ev)
    requires EvOk(ev)
    ensures GetFloat(h, ev, MAGIC_TOKEN) == (h.atof(h.args), ev)
  {
    hide EvOk;
  }

  lemma MagicBools(h: Host, ev: Ev, w: int, b: string)
    requires OverArguments(h, ev, w, b)
    ensures var (x, y, e1) := PopBools(h, ev); x == h.checkVal(h.args) && y == h.checkVal(b) && Popped(h, ev, e1)
  {
    hide Represents, EvOk, Later, CachesOf, GetBool, AsBool, Lawful;
    hide OverArguments, Popped, Pop, Holds, OnlyAt, Step, Quiet;
    TakeConstant(h, ev, w, b);
    var e1 := ev.(stack := [MAGIC_TOKEN]);
    BoolHolds(h, e1, w, VStr(b));
    ConstantBools(h, b, e1.history);
    var e2 := GetBool(h, e1, w).1;
    TakeArguments(h, ev, w, b, e2);
    ArgumentsBools(h, e2.(stack := []));
  }

  lemma ConstantBools(h: Host, b: string, hist: History)
    ensures AsBool(h, VStr(b), hist) == (h.checkVal(b), VStr(b), hist)
  {
  }

  lemma ArgumentsBools(h: Host, ev: Ev)
    requires EvOk(ev)
    ensures GetBool(h, ev, MAGIC_TOKEN) == (h.checkVal(h.args), ev)
  {
    hide EvOk;
  }

  lemma MagicStrings(h: Host, ev: Ev, w: int, b: string)
    requires OverArguments(h, ev, w, b)
    ensures var (x, y, e1) := PopStrings(h, ev); x == h.args && y == b && Popped(h, ev, e1)
  {
    hide Represents, EvOk, Later, CachesOf, GetExpanded, AsText, Lawful;
    hide OverArguments, Popped, Pop, Holds, OnlyAt, Step, Quiet;
    TakeConstant(h, ev, w, b);
    var e1 := ev.(stack := [MAGIC_TOKEN]);
    TextHolds(h, e1, w, VStr(b));
    ConstantStrings(h, b, e1.history);
    var e2 := GetExpanded(h, e1, w).1;
    TakeArguments(h, ev, w, b, e2);
    ArgumentsStrings(h, e2.(stack := []));
  }

  lemma ConstantStrings(h: Host, b: string, hist: History)
    ensures AsText(h, VStr(b), hist) == (b, VStr(b), hist)
  {
  }

  lemma ArgumentsStrings(h: Host, ev: Ev)
    requires EvOk(ev)
    ensures GetExpanded(h, ev, MAGIC_TOKEN) == (h.args, ev)
  {
    hide EvOk;
  }

  /** The arguments count as a constant. */
  lemma MagicReduces(h: Host, ev: Ev, w: int, op: BinOp, b: string)
    requires OverArguments(h, ev, w, b) && MayFollow(op)
    ensures var r := ApplyBinary(h, op, VStr(h.args), VStr(b), ev.history);
            r.1 == ev.history && Leaves(h, ev, Reduce(h, ev, Binary(op)), [], 1, r.0, ev.history)
  {
    hide Represents, EvOk, Later, CachesOf, Lawful, PopInts, PopFloats, PopBools, PopStrings, PushNew, Push, Leaves;
    match op
    case Int(i) =>
      MagicInts(h, ev, w, b);
      var e1 := PopInts(h, ev).2;
      if i == Mod && h.atol(b) == 0 {
        MagicZero(h, ev, e1);
      } else {
        var r := h.intOp(i, h.atol(h.args), h.atol(b));
        NewInt(h, r);
        MagicPush(h, ev, e1, IntSym(r), VInt(r));
      }
    case Float(f) =>
      MagicFloats(h, ev, w, b);
      var e1 := PopFloats(h, ev).2;
      if f == Div && h.isZero(h.atof(b)) {
        MagicZero(h, ev, e1);
      } else {
        var r := h.floatOp(f, h.atof(h.args), h.atof(b));
        NewDouble(h, r);
        MagicPush(h, ev, e1, DoubleSym(r), VFloat(r));
      }
    case Bool(o) =>
      MagicBools(h, ev, w, b);
      var r := BoolResult(o, h.checkVal(h.args), h.checkVal(b));
      NewBool(h, r);
      MagicPush(h, ev, PopBools(h, ev).2, BoolSym(r), VBool(r));
    case StrCat =>
      MagicStrings(h, ev, w, b);
      NewText(h, h.args + b);
      MagicPush(h, ev, PopStrings(h, ev).2, ExpandedSym(h.args + b), VStr(h.args + b));
    case Compare(c) =>
      MagicStrings(h, ev, w, b);
      var r := h.compareOp(c, h.args, b);
      NewBool(h, r);
      MagicPush(h, ev, PopStrings(h, ev).2, BoolSym(r), VBool(r));
  }

  lemma MagicPush(h: Host, ev: Ev, e1: Ev, s: Sym, x: Val)
    requires Popped(h, ev, e1) && SymOk(s) && Represents(h, s, x)
    ensures Leaves(h, ev, PushNew(e1, s), [], 1, x, ev.history)
  {
    hide Represents;
    PushNewLeaves(h, e1, [], 1, s, x);
    LeavesAfter(h, ev, e1, PushNew(e1, s), [], 1, x, ev.history);
  }

  lemma MagicZero(h: Host, ev: Ev, e1: Ev)
    requires Popped(h, ev, e1)
    ensures Leaves(h, ev, Push(e1, 0), [], 1, VStr(""), ev.history)
  {
    ZeroOperand(h, e1, [], 1);
    LeavesAfter(h, ev, e1, Push(e1, 0), [], 1, VStr(""), ev.history);
  }

  // ---------- parsing `* op constant` ----------

  /** After the `*`. */
  function AfterStar(rest: seq<Lexeme>, u: UnOp, hist: History): (s: St)
    ensures StOk(s)
  {
    St(Lx(rest, 2, Unary(u), 0, false), Ev(0, [RawSym("")], [], hist, []))
  }

  /** After what shows that nothing follows the `*`: the arguments are on the stack. */
  function OnStack(rest: seq<Lexeme>, t: Tok, hist: History): (s: St)
    ensures StOk(s)
  {
    St(Lx(rest, 1, t, 0, false), Ev(0, [RawSym("")], [MAGIC_TOKEN], hist, []))
  }

  function Both(b: string, pushed: bool, hist: History): (s: St)
    ensures StOk(s)
  {
    St(Lx([], if pushed then 1 else 0, if pushed then Eoi else Id, 1, false),
       Ev(0, [RawSym(""), ExpandedSym(b)], if pushed then [MAGIC_TOKEN, 1] else [MAGIC_TOKEN], hist, []))
  }

  lemma LexUnary(h: Host, x: Lexeme, u: UnOp, rest: seq<Lexeme>, hist: History)
    requires u in {StrLen, WordC, Deref} && x == PREFIXES[u]
    ensures Lex(h, Setup([x] + rest, hist)) == AfterStar(rest, u, hist)
  {
    assert ([x] + rest)[0] == x && ([x] + rest)[1..] == rest;
  }

  lemma LexOperator(h: Host, u: UnOp, p: Sign, i: nat, rest: seq<Lexeme>, hist: History)
    requires In(p, i) && Follows(p.op)
    ensures Lex(h, AfterStar([p.text] + rest, u, hist)) == OnStack(rest, Binary(p.op), hist)
  {
    Ranked(p, i);
    hide In, BinPrec;
    var s := AfterStar(rest, u, hist);
    assert ([p.text] + rest)[0] == p.text && ([p.text] + rest)[1..] == rest;
    assert AfterStar([p.text] + rest, u, hist).(lx := AfterStar([p.text] + rest, u, hist).lx.(rest := rest)) == s;
    LexOperatorOne(h, u, p.op, rest, hist);
    hide Later, EvOk, LexOne;
  }

  lemma LexOperatorOne(h: Host, u: UnOp, op: BinOp, rest: seq<Lexeme>, hist: History)
    requires Follows(op)
    ensures LexOne(h, AfterStar(rest, u, hist), BinSpelling(op)) == OnStack(rest, Binary(op), hist)
  {
    hide Later, EvOk, BinPrec;
    assert [] + [MAGIC_TOKEN] == [MAGIC_TOKEN];
  }

  lemma LexConstant(h: Host, t: Tok, b: string, hist: History)
    ensures Lex(h, OnStack([Number(b)], t, hist)) == Both(b, false, hist)
  {
    assert [Number(b)][1..] == [];
    assert [RawSym("")] + [ExpandedSym(b)] == [RawSym(""), ExpandedSym(b)];
  }

  lemma LexEnd(h: Host, b: string, hist: History)
    ensures var s := Both(b, false, hist);
            StOk(s.(ev := Push(s.ev, s.lx.last))) && Lex(h, s.(ev := Push(s.ev, s.lx.last))) == Both(b, true, hist)
  {
    assert [MAGIC_TOKEN] + [1] == [MAGIC_TOKEN, 1];
  }

  lemma ReturnsAtOnce(h: Host, t: St, s: St, pc: int)
    requires StOk(t) && !t.lx.err && pc < 137 && Lex(h, t) == s && Prec(s.lx.mtok) > pc
    ensures Parse(h, t, pc) == s
  {
    hide EvOk, Lex, Later;
  }

  lemma Reduces(h: Host, t: St, s: St)
    requires StOk(t) && !t.lx.err && (t.lx.mtok.Unary? || (t.lx.mtok.Binary? && !Shorts(t.lx.mtok.b)))
    requires Parse(h, t, RightLevel(t.lx.mtok)) == s && StOk(s) && !s.lx.err && s.ev.noeval == t.ev.noeval
    ensures ParseOperator(h, t) == s.(ev := Reduce(h, s.ev, t.lx.mtok))
  {
    hide EvOk, Later, Parse, Reduce;
    assert s.(ev := s.ev.(noeval := t.ev.noeval)) == s;
  }

  lemma StarLeaves(h: Host, rest: seq<Lexeme>, t: Tok, hist: History)
    ensures var ev := OnStack(rest, t, hist).ev; Reduce(h, ev, Unary(Deref)) == ev
  {
  }

  /** The `*` itself comes to nothing more. */
  lemma StarParsed(h: Host, p: Sign, i: nat, b: string, hist: History)
    requires In(p, i) && Follows(p.op)
    ensures ParseOperator(h, AfterStar([p.text, Number(b)], Deref, hist)) == OnStack([Number(b)], Binary(p.op), hist)
  {
    var t, s := AfterStar([p.text, Number(b)], Deref, hist), OnStack([Number(b)], Binary(p.op), hist);
    assert [p.text] + [Number(b)] == [p.text, Number(b)];
    LexOperator(h, Deref, p, i, [Number(b)], hist);
    Ranked(p, i);
    hide In, Lex, Later, Parse, Reduce, ParseOperator, BinPrec, EvOk;
    ReturnsAtOnce(h, t, s, 2);
    StarLeaves(h, [Number(b)], Binary(p.op), hist);
    Reduces(h, t, s);
  }

  /** The right operand is the constant. */
  lemma RightParsed(h: Host, op: BinOp, b: string, hist: History)
    requires Follows(op)
    ensures var t, s := OnStack([Number(b)], Binary(op), hist), Both(b, true, hist);
            ParseOperator(h, t) == s.(ev := Reduce(h, s.ev, Binary(op)))
  {
    var t, s := OnStack([Number(b)], Binary(op), hist), Both(b, true, hist);
    LexConstant(h, Binary(op), b, hist);
    LexEnd(h, b, hist);
    hide Lex, Later, Reduce, ParseOperator, EvOk, Push;
    ConstantParsed(h, t, Both(b, false, hist), s, RightLevel(Binary(op)));
    Reduces(h, t, s);
  }

  lemma ConstantParsed(h: Host, t: St, mid: St, s: St, pc: int)
    requires StOk(t) && !t.lx.err && 0 <= pc < 137 && Lex(h, t) == mid && mid.lx.mtok == Id && !mid.lx.err
    requires StOk(mid.(ev := Push(mid.ev, mid.lx.last))) && Lex(h, mid.(ev := Push(mid.ev, mid.lx.last))) == s
    requires s.lx.mtok == Eoi
    ensures Parse(h, t, pc) == s
  {
    hide EvOk, Lex, Later, Push;
    assert ParseLoop(h, s, pc) == s;
  }

  /** The whole expression. */
  lemma ImpliedParsed(h: Host, p: Sign, i: nat, b: string, hist: History)
    requires In(p, i) && Follows(p.op)
    ensures var s := Both(b, true, hist);
            Parse(h, Setup([Star, p.text, Number(b)], hist), TOPPREC) == s.(ev := Reduce(h, s.ev, Binary(p.op)))
  {
    hide Lex, Later, Reduce, ParseOperator, ParseLoop, Parse, EvOk, In, Push;
    assert [Star] + [p.text, Number(b)] == [Star, p.text, Number(b)];
    LexUnary(h, Star, Deref, [p.text, Number(b)], hist);
    StarParsed(h, p, i, b, hist);
    RightParsed(h, p.op, b, hist);
    Ranked(p, i);
    var q := Setup([Star, p.text, Number(b)], hist);
    var t0, t1 := AfterStar([p.text, Number(b)], Deref, hist), OnStack([Number(b)], Binary(p.op), hist);
    var s := Both(b, true, hist);
    var s2 := s.(ev := Reduce(h, s.ev, Binary(p.op)));
    assert StOk(s2) by { ReducedOk(h, s, Binary(p.op)); }
    LoopStarts(h, q, t0);
    OperatorUnfolds(h, t0, TOPPREC);
    OperatorUnfolds(h, t1, TOPPREC);
    LoopEnds(h, s2);
  }

  lemma ReducedOk(h: Host, s: St, t: Tok)
    requires StOk(s)
    ensures StOk(s.(ev := Reduce(h, s.ev, t)))
  {
    hide EvOk, Reduce;
  }

  lemma LoopStarts(h: Host, q: St, t: St)
    requires StOk(q) && !q.lx.err && Lex(h, q) == t
    ensures Parse(h, q, TOPPREC) == ParseLoop(h, t, TOPPREC)
  {
    hide EvOk, Lex, ParseLoop, Later;
  }

  lemma LoopEnds(h: Host, s: St)
    requires StOk(s) && s.lx.mtok == Eoi
    ensures ParseLoop(h, s, TOPPREC) == s
  {
    hide EvOk, Lex, Later;
  }

  lemma OperatorUnfolds(h: Host, t: St, pc: int)
    requires StOk(t) && !t.lx.err && (t.lx.mtok.Unary? || t.lx.mtok.Binary?) && Prec(t.lx.mtok) <= pc < 137
    ensures ParseLoop(h, t, pc) == ParseLoop(h, ParseOperator(h, t), pc)
  {
    hide EvOk, Lex, Later, ParseOperator;
  }

  // ---------- the results ----------

  /** An operator between the arguments and a constant works as between two constants. */
  lemma ImpliedLaw(h: Host, p: Sign, i: nat, b: string, hist: History)
    requires Lawful(h) && In(p, i) && MayFollow(p.op)
    ensures Matheval(h, [Star, p.text, Number(b)], hist) == (OnConstants(h, h.args, p.op, b), hist)
  {
    ImpliedParsed(h, p, i, b, hist);
    var s := Both(b, true, hist);
    BothOver(h, b, hist);
    MagicReduces(h, s.ev, 1, p.op, b);
    ImpliedText(h, p.op, b, hist);
    var r := ApplyBinary(h, p.op, VStr(h.args), VStr(b), hist).0;
    LeavesText(h, s.ev, Reduce(h, s.ev, Binary(p.op)), r);
    hide Reduce, Parse, Lawful, Leaves, In, EvOk, GetExpanded, Pop, AsText, Later;
  }

  lemma BothOver(h: Host, b: string, hist: History)
    requires Lawful(h)
    ensures OverArguments(h, Both(b, true, hist).ev, 1, b)
  {
    hide Lawful;
  }

  /** The text of what an evaluation left alone on the stack. */
  lemma LeavesText(h: Host, ev: Ev, e1: Ev, x: Val)
    requires Lawful(h) && Leaves(h, ev, e1, [], 1, x, e1.history) && ev.noeval == 0
    ensures var (v, e2) := Pop(e1);
            var (text, e3) := GetExpanded(h, e2, v);
            (text, e3.history) == (AsText(h, x, e1.history).0, AsText(h, x, e1.history).2)
  {
    hide Represents, EvOk, CachesOf, Lawful, Later, GetExpanded, AsText;
    StackSplit(e1, []);
    PopOne(e1, [], Top(e1));
    GoodAnyStack(h, e1);
    TextHolds(h, e1.(stack := []), Top(e1), x);
  }

  lemma ImpliedText(h: Host, op: BinOp, b: string, hist: History)
    requires MayFollow(op)
    ensures var r := ApplyBinary(h, op, VStr(h.args), VStr(b), hist).0;
            var text := AsText(h, r, hist); text.0 == OnConstants(h, h.args, op, b) && text.2 == hist
  {
  }

  /** `@`, `#` and `*` on their own: the length, the number of words and the arguments themselves. */
  function OnArguments(h: Host, u: UnOp): string {
    match u
    case StrLen => h.showInt(|h.args|)
    case WordC => h.showInt(h.wordCount(h.args))
    case _ => h.args
  }

  lemma LexNothing(h: Host, u: UnOp, hist: History)
    ensures Lex(h, AfterStar([], u, hist)) == OnStack([], Eoi, hist)
  {
    assert [] + [MAGIC_TOKEN] == [MAGIC_TOKEN];
  }

  lemma AloneParsed(h: Host, u: UnOp, hist: History)
    requires u in {StrLen, WordC, Deref}
    ensures var s := OnStack([], Eoi, hist);
            Parse(h, Setup([PREFIXES[u]], hist), TOPPREC) == s.(ev := Reduce(h, s.ev, Unary(u)))
  {
    hide Lex, Later, Reduce, ParseOperator, ParseLoop, Parse, EvOk, Push;
    assert [PREFIXES[u]] + [] == [PREFIXES[u]];
    LexUnary(h, PREFIXES[u], u, [], hist);
    LexNothing(h, u, hist);
    var t, s := AfterStar([], u, hist), OnStack([], Eoi, hist);
    ReturnsAtOnce(h, t, s, 2);
    Reduces(h, t, s);
    var s2 := s.(ev := Reduce(h, s.ev, Unary(u)));
    assert StOk(s2) by { ReducedOk(h, s, Unary(u)); }
    LoopStarts(h, Setup([PREFIXES[u]], hist), t);
    OperatorUnfolds(h, t, TOPPREC);
    LoopEnds(h, s2);
  }

  lemma AloneLaw(h: Host, u: UnOp, hist: History)
    requires Lawful(h) && u in {StrLen, WordC, Deref}
    ensures Matheval(h, [PREFIXES[u]], hist) == (OnArguments(h, u), hist)
  {
    AloneParsed(h, u, hist);
    var s := OnStack([], Eoi, hist);
    AloneText(h, u, Reduce(h, s.ev, Unary(u)), hist);
    hide Reduce, Parse, Lawful, EvOk, GetExpanded, Pop, Later;
  }

  lemma AloneText(h: Host, u: UnOp, e1: Ev, hist: History)
    requires Lawful(h) && u in {StrLen, WordC, Deref} && e1 == Reduce(h, OnStack([], Eoi, hist).ev, Unary(u))
    ensures var (v, e2) := Pop(e1);
            var (text, e3) := GetExpanded(h, e2, v);
            (text, e3.history) == (OnArguments(h, u), hist)
  {
    hide Reduce, GetExpanded, Pop, EvOk, Lawful, Later;
    if u == Deref {
      DerefText(h, e1, hist);
    } else {
      LengthText(h, u, e1, hist);
    }
  }

  lemma DerefText(h: Host, e1: Ev, hist: History)
    requires e1 == Reduce(h, OnStack([], Eoi, hist).ev, Unary(Deref))
    ensures var (v, e2) := Pop(e1); GetExpanded(h, e2, v).0 == h.args && GetExpanded(h, e2, v).1.history == hist
  {
    var ev := OnStack([], Eoi, hist).ev;
    StarLeaves(h, [], Eoi, hist);
    PopOne(ev, [], MAGIC_TOKEN);
    ArgumentsStrings(h, ev.(stack := []));
    hide Reduce, GetExpanded, Pop, EvOk, Later;
  }

  lemma LengthText(h: Host, u: UnOp, e1: Ev, hist: History)
    requires Lawful(h) && (u == StrLen || u == WordC) && e1 == Reduce(h, OnStack([], Eoi, hist).ev, Unary(u))
    ensures var (v, e2) := Pop(e1);
            var (text, e3) := GetExpanded(h, e2, v);
            (text, e3.history) == (OnArguments(h, u), hist)
  {
    var ev := OnStack([], Eoi, hist).ev;
    var n := if u == StrLen then |h.args| else h.wordCount(h.args);
    NewInt(h, n);
    AloneReady(h, hist);
    LengthOfArguments(h, u, hist);
    hide Lawful, EvOk, GetExpanded, Later, Reduce, Pop, PushNew, Represents, CachesOf;
    PushNewLeaves(h, ev.(stack := []), [], 1, IntSym(n), VInt(n));
    LeavesText(h, ev.(stack := []), e1, VInt(n));
  }

  lemma LengthOfArguments(h: Host, u: UnOp, hist: History)
    requires u == StrLen || u == WordC
    ensures var ev := OnStack([], Eoi, hist).ev;
            EvOk(ev.(stack := []))
            && Reduce(h, ev, Unary(u))
               == PushNew(ev.(stack := []), IntSym(if u == StrLen then |h.args| else h.wordCount(h.args)))
  {
    var ev := OnStack([], Eoi, hist).ev;
    PopOne(ev, [], MAGIC_TOKEN);
    ArgumentsStrings(h, ev.(stack := []));
    hide GetExpanded, PushNew, Later, Pop;
  }

  lemma AloneReady(h: Host, hist: History)
    requires Lawful(h)
    ensures Ready(h, OnStack([], Eoi, hist).ev.(stack := []), [], 1, 1)
  {
    hide Lawful;
  }

  /** As the left side of an assignment the arguments are the name of a variable, taken as they are. */
  lemma ImpliedSetLaw(h: Host, b: string, hist: History)
    requires Lawful(h)
    ensures Matheval(h, [Star, Infix(Assign(Set)), Number(b)], hist) == (b, hist + [Store(h.args, b)])
  {
    AssignListed(Set);
    ImpliedParsed(h, Own(Assign(Set)), 13, b, hist);
    var s := Both(b, true, hist);
    BothOver(h, b, hist);
    MagicSet(h, s.ev, 1, b);
    var e1 := Reduce(h, s.ev, Binary(Assign(Set)));
    LeavesText(h, s.ev, e1, VStr(b));
    ConstantStrings(h, b, e1.history);
    hide Reduce, Parse, Lawful, Leaves, In, EvOk, GetExpanded, Pop, AsText, Later;
  }

  lemma MagicSet(h: Host, ev: Ev, w: int, b: string)
    requires OverArguments(h, ev, w, b)
    ensures Leaves(h, ev, Reduce(h, ev, Binary(Assign(Set))), [], 1, VStr(b), ev.history + [Store(h.args, b)])
  {
    hide Represents, EvOk, Later, CachesOf, GetExpanded, AsText, Lawful, Push, SetVar;
    PopTwo(ev, [], MAGIC_TOKEN, w);
    var top := Pop(ev).1;
    assert top == ev.(stack := [MAGIC_TOKEN]);
    PopOne(top, [], MAGIC_TOKEN);
    var e0 := Pop(top).1;
    TextHolds(h, e0, w, VStr(b));
    ConstantStrings(h, b, ev.history);
    var e1 := GetExpanded(h, e0, w).1;
    PushLeaves(h, e1, [], 1, w, VStr(b));
    LeavesAfter(h, ev, e1, Push(e1, w), [], 1, VStr(b), ev.history);
    SetVarLeaves(h, ev, Push(e1, w), [], 1, VStr(b), ev.history, h.args, b);
  }
}
