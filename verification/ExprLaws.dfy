/** What single operators do, said of texts and in terms of the client's conversions and arithmetic alone
    (source/expr2.c:953-1382). */
module ExprLaws {
  import opened Options
  import opened ExprSyntax
  import opened ExprMachine
  import opened ExprEval
  import opened ExprTheorems
  import opened ExprPrecedence

  function Truth(b: bool): string {
    if b then "1" else "0"
  }

  // ---------- constants ----------

  /** The text of an operator between two constants. */
  function OnConstants(h: Host, a: string, op: BinOp, b: string): string {
    match op
    case Int(i) => if i == Mod && h.atol(b) == 0 then "" else h.showInt(h.intOp(i, h.atol(a), h.atol(b)))
    case Float(f) =>
      if f == Div && h.isZero(h.atof(b)) then "" else h.showDouble(h.floatOp(f, h.atof(a), h.atof(b)))
    case Bool(DAnd) => Truth(h.checkVal(a) && h.checkVal(b))
    case Bool(DOr) => Truth(h.checkVal(a) || h.checkVal(b))
    case Bool(DXor) => Truth(h.checkVal(a) != h.checkVal(b))
    case StrCat => a + b
    case Compare(c) => Truth(h.compareOp(c, a, b))
    case Comma => b
    case Assign(_) => "" // a constant is no variable
  }

  /** Nothing is asked of the client. */
  lemma ConstantLaw(h: Host, a: string, p: Sign, i: nat, b: string, hist: History)
    requires Lawful(h) && In(p, i)
    ensures Matheval(h, [Number(a), p.text, Number(b)], hist) == (OnConstants(h, a, p.op, b), hist)
  {
    hide Matheval, EvalText, Lawful, Plain;
    OneOperator(h, Num(a), p, i, Num(b), hist);
    ConstantEval(h, a, p.op, b, hist);
  }

  lemma ConstantEval(h: Host, a: string, op: BinOp, b: string, hist: History)
    ensures EvalText(h, Bin(op, Num(a), Num(b)), hist) == (OnConstants(h, a, op, b), hist)
  {
    assert Eval(h, Num(a), hist) == (VStr(a), hist) && Eval(h, Num(b), hist) == (VStr(b), hist);
    SkippedConstant(h, b);
    assert hist + [] == hist;
  }

  lemma SkippedConstant(h: Host, b: string)
    ensures SkipOperandRequests(h, Num(b)) == []
  {
  }

  /** The text of a prefix operator before a constant; a dereferenced one is the name of a variable. */
  function OnConstant(h: Host, u: UnOp, a: string, hist: History): (string, History) {
    match u
    case Not => (Truth(!h.checkVal(a)), hist)
    case Comp => (h.showInt(h.complement(h.atol(a))), hist)
    case UPlus => (h.showDouble(h.atof(a)), hist)
    case UMinus => (h.showDouble(h.negate(h.atof(a))), hist)
    case StrLen => (h.showInt(|a|), hist)
    case WordC => (h.showInt(h.wordCount(a)), hist)
    case Deref => OfVariable(h, a, hist)
    case _ => ("", hist)
  }

  lemma PrefixLaw(h: Host, u: UnOp, a: string, hist: History)
    requires Lawful(h) && u in PREFIXES
    ensures Matheval(h, [PREFIXES[u], Number(a)], hist) == OnConstant(h, u, a, hist)
  {
    hide Matheval, EvalText, Lawful, Plain;
    var e := Pre(u, Num(a));
    SmallEvaluates(h, e, hist);
    PrefixEval(h, u, a, hist);
    assert SmallText(e) == [PREFIXES[u], Number(a)];
  }

  lemma PrefixEval(h: Host, u: UnOp, a: string, hist: History)
    requires u in PREFIXES
    ensures EvalText(h, Pre(u, Num(a)), hist) == OnConstant(h, u, a, hist)
  {
    assert Eval(h, Num(a), hist) == (VStr(a), hist);
    hide Plain;
  }

  lemma SmallEvaluates(h: Host, e: Expr, hist: History)
    requires Lawful(h) && Small(e)
    ensures Matheval(h, SmallText(e), hist) == EvalText(h, e, hist)
  {
    SmallPrints(e);
    SmallSlots(e);
    PrintsHigher(e, SmallText(e), 2, TOPPREC);
    hide Matheval, Lawful, Prints, EvalText, Slots, Small, SmallText;
    PrintedEvaluates(h, e, SmallText(e), hist);
  }

  lemma SmallSlots(e: Expr)
    requires Small(e)
    ensures Slots(e) <= 5
  {
    if e.Pre? && e.e.Post? {
      assert Slots(e.e.e) == 1 && Slots(e.e) <= 3;
    }
  }

  lemma ConditionalLaw(h: Host, c: string, a: string, z: string, hist: History)
    requires Lawful(h)
    ensures Matheval(h, [Number(c), QuestMark, Number(a), ColonMark, Number(z)], hist)
            == (if h.checkVal(c) then a else z, hist)
  {
    hide Matheval, EvalText, Lawful, Plain;
    ConditionalPrinted(c, a, z);
    PrintedEvaluates(h, Cond(Num(c), Num(a), Num(z)), [Number(c), QuestMark, Number(a), ColonMark, Number(z)], hist);
    ConditionalEval(h, c, a, z, hist);
  }

  lemma ConditionalPrinted(c: string, a: string, z: string)
    ensures var e := Cond(Num(c), Num(a), Num(z));
            Prints(e, [Number(c), QuestMark, Number(a), ColonMark, Number(z)], TOPPREC) && Slots(e) == 4
  {
    assert WellFormed(Num(c)) && WellFormed(Num(a)) && WellFormed(Num(z));
    assert Slots(Num(c)) == 1 && Slots(Num(a)) == 1 && Slots(Num(z)) == 1;
    assert Print(Cond(Num(c), Num(a), Num(z)), TOPPREC)
           == [Number(c)] + [QuestMark] + [Number(a)] + [ColonMark] + [Number(z)];
  }

  lemma ConditionalEval(h: Host, c: string, a: string, z: string, hist: History)
    ensures EvalText(h, Cond(Num(c), Num(a), Num(z)), hist) == (if h.checkVal(c) then a else z, hist)
  {
    assert Eval(h, Num(c), hist) == (VStr(c), hist) && Eval(h, Num(a), hist) == (VStr(a), hist);
    assert Eval(h, Num(z), hist) == (VStr(z), hist);
    NoSkipRequests(h, a);
    NoSkipRequests(h, z);
    assert hist + [] == hist;
  }

  lemma NoSkipRequests(h: Host, a: string)
    ensures SkipRequests(h, Num(a)) == []
  {
  }

  // ---------- operands ----------

  /** Text with nothing to expand stands for itself. */
  function Expanded(h: Host, t: string, hist: History): (string, History) {
    if Plain(t) then (t, hist) else (h.expand(t, hist), hist + [Expand(t)])
  }

  /** A variable's value is looked up under its name as expanded. */
  function OfVariable(h: Host, t: string, hist: History): (string, History) {
    var (n, hist1) := Expanded(h, t, hist);
    (h.read(n, hist1), hist1 + [Read(n)])
  }

  /** What an operand on its own comes to. */
  function OfOperand(h: Host, x: Lexeme, hist: History): (string, History) {
    match x
    case Number(t) => (t, hist)
    case Name(t) => OfVariable(h, t, hist)
    case Quoted(t) => Expanded(h, t, hist)
    case Braced(t) => (h.run(t, hist), hist + [Run(t)])
    case _ => ("", hist)
  }

  lemma OperandLaw(h: Host, e: Expr, hist: History)
    requires Lawful(h) && Atom(e)
    ensures Matheval(h, [Text(e)], hist) == OfOperand(h, Text(e), hist)
  {
    hide Matheval, EvalText, Lawful, Plain;
    SmallEvaluates(h, e, hist);
    OperandEval(h, e, hist);
    assert SmallText(e) == [Text(e)];
  }

  lemma OperandEval(h: Host, e: Expr, hist: History)
    requires Atom(e)
    ensures EvalText(h, e, hist) == OfOperand(h, Text(e), hist)
  {
    hide Plain;
  }

  // ---------- assignments ----------

  /** What an assignment of constant `b` makes of a variable of value `v`. */
  function Assigned(h: Host, v: string, a: AssignOp, b: string): string {
    match a
    case IntSet(Mod) =>
      var x, y := h.trunc(h.atof(v)), h.trunc(h.atof(b));
      if y == 0 then "" else h.showDouble(h.fromInt(h.intOp(Mod, x, y)))
    case IntSet(i) => h.showInt(h.intOp(i, h.atol(v), h.atol(b)))
    case FloatSet(f) =>
      if f == Div && h.isZero(h.atof(b)) then "" else h.showDouble(h.floatOp(f, h.atof(v), h.atof(b)))
    case BoolSet(DAnd) => Truth(h.checkVal(v) && h.checkVal(b))
    case BoolSet(DOr) => Truth(h.checkVal(v) || h.checkVal(b))
    case BoolSet(DXor) => Truth(h.checkVal(v) != h.checkVal(b))
    case CatSet => v + b
    case PreSet => b + v
    case _ => b
  }

  /** The variable is read, unless it is simply set, and then stored; what is stored is the result. */
  lemma AssignLaw(h: Host, n: string, a: AssignOp, b: string, hist: History)
    requires Lawful(h) && Plain(n) && !a.Swap?
    ensures var text := Assigned(h, h.read(n, hist), a, b);
            Matheval(h, [Name(n), Infix(Assign(a)), Number(b)], hist)
            == (text, hist + (if a.Set? then [] else [Read(n)]) + [Store(n, text)])
  {
    hide Matheval, EvalText, Lawful, Plain;
    AssignListed(a);
    OneOperator(h, Var(n), Own(Assign(a)), 13, Num(b), hist);
    AssignEval(h, n, a, b, hist);
  }

  lemma AssignListed(a: AssignOp)
    ensures In(Own(Assign(a)), 13)
  {
    var k := AssignmentPlace(a);
    RankedAssignment(ASSIGNMENTS[k]);
    assert ASSIGNMENTS[k] == Own(Assign(a));
  }

  lemma AssignEval(h: Host, n: string, a: AssignOp, b: string, hist: History)
    requires Plain(n) && !a.Swap?
    ensures var text := Assigned(h, h.read(n, hist), a, b);
            EvalText(h, Bin(Assign(a), Var(n), Num(b)), hist)
            == (text, hist + (if a.Set? then [] else [Read(n)]) + [Store(n, text)])
  {
    assert Eval(h, Var(n), hist) == (VRef(n, None, None), hist) && Eval(h, Num(b), hist) == (VStr(b), hist);
    hide Plain;
    assert hist + [] == hist;
  }

  /** The two variables exchange their values; the result is the left one's new one. */
  lemma SwapLaw(h: Host, n: string, m: string, hist: History)
    requires Lawful(h) && Plain(n) && Plain(m)
    ensures var s, t := h.read(n, hist), h.read(m, hist + [Read(n)]);
            Matheval(h, [Name(n), Infix(Assign(Swap)), Name(m)], hist)
            == (t, hist + [Read(n)] + [Read(m)] + [Store(n, t)] + [Store(m, s)])
  {
    hide Matheval, EvalText, Lawful, Plain;
    AssignListed(Swap);
    OneOperator(h, Var(n), Own(Assign(Swap)), 13, Var(m), hist);
    SwapEval(h, n, m, hist);
  }

  lemma SwapEval(h: Host, n: string, m: string, hist: History)
    requires Plain(n) && Plain(m)
    ensures var s, t := h.read(n, hist), h.read(m, hist + [Read(n)]);
            EvalText(h, Bin(Assign(Swap), Var(n), Var(m)), hist)
            == (t, hist + [Read(n)] + [Read(m)] + [Store(n, t)] + [Store(m, s)])
  {
    assert Eval(h, Var(n), hist) == (VRef(n, None, None), hist) && Eval(h, Var(m), hist) == (VRef(m, None, None), hist);
    hide Plain;
  }

  /** Increments and decrements: before the variable they give its new value, behind it its old one. */
  function Bumped(h: Host, n: string, up: bool, before: bool, hist: History): (string, History) {
    var v := h.atol(h.read(n, hist));
    var w := if up then v + 1 else v - 1;
    (h.showInt(if before then w else v), hist + [Read(n)] + [Store(n, h.showInt(w))])
  }

  lemma BumpBeforeLaw(h: Host, n: string, up: bool, hist: History)
    requires Lawful(h) && Plain(n)
    ensures Matheval(h, [if up then PlusPlus else MinusMinus, Name(n)], hist) == Bumped(h, n, up, true, hist)
  {
    hide Matheval, EvalText, Lawful, Plain;
    var e := Pre(if up then PrePlus else PreMinus, Var(n));
    SmallEvaluates(h, e, hist);
    assert SmallText(e) == [if up then PlusPlus else MinusMinus, Name(n)];
    BumpEval(h, e, n, up, true, hist);
  }

  lemma BumpBehindLaw(h: Host, n: string, up: bool, hist: History)
    requires Lawful(h) && Plain(n)
    ensures Matheval(h, [Name(n), if up then PlusPlus else MinusMinus], hist) == Bumped(h, n, up, false, hist)
  {
    hide Matheval, EvalText, Lawful, Plain;
    var e := Post(if up then PostPlus else PostMinus, Var(n));
    SmallEvaluates(h, e, hist);
    assert SmallText(e) == [Name(n), if up then PlusPlus else MinusMinus];
    BumpEval(h, e, n, up, false, hist);
  }

  lemma BumpEval(h: Host, e: Expr, n: string, up: bool, before: bool, hist: History)
    requires Plain(n)
    requires e == if before then Pre(if up then PrePlus else PreMinus, Var(n))
                  else Post(if up then PostPlus else PostMinus, Var(n))
    ensures EvalText(h, e, hist) == Bumped(h, n, up, before, hist)
  {
    assert Eval(h, Var(n), hist) == (VRef(n, None, None), hist);
    hide Plain;
  }

  // ---------- short circuits ----------

  /** A variable to the right of `&&` or `||` is looked up only if the left side does not settle it. */
  lemma ShortLaw(h: Host, a: string, or: bool, n: string, hist: History)
    requires Lawful(h) && Plain(n)
    ensures Matheval(h, [Number(a), Infix(Bool(if or then DOr else DAnd)), Name(n)], hist)
            == if h.checkVal(a) == or then (Truth(or), hist)
               else (Truth(h.checkVal(h.read(n, hist))), hist + [Read(n)])
  {
    hide Matheval, EvalText, Lawful, Plain;
    var p := Own(Bool(if or then DOr else DAnd));
    assert In(p, if or then 12 else 10);
    OneOperator(h, Num(a), p, if or then 12 else 10, Var(n), hist);
    ShortEval(h, a, or, n, hist);
  }

  lemma ShortEval(h: Host, a: string, or: bool, n: string, hist: History)
    requires Plain(n)
    ensures EvalText(h, Bin(Bool(if or then DOr else DAnd), Num(a), Var(n)), hist)
            == if h.checkVal(a) == or then (Truth(or), hist)
               else (Truth(h.checkVal(h.read(n, hist))), hist + [Read(n)])
  {
    assert Eval(h, Num(a), hist) == (VStr(a), hist) && Eval(h, Var(n), hist) == (VRef(n, None, None), hist);
    hide Plain;
    SkippedVariable(h, n);
    assert hist + [] == hist;
  }

  lemma SkippedVariable(h: Host, n: string)
    ensures SkipOperandRequests(h, Var(n)) == []
  {
  }
}
