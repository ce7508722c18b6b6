/** What the expression engine guarantees: on well-formed expressions, and on any input at all. */
module ExprTheorems {
  import opened Options
  import opened ExprSyntax
  import opened ExprMachine
  import opened ExprEval
  import opened ExprReduce
  import opened ExprSkip
  import opened ExprOperands
  import opened ExprParse

  /** setup_expr_info: token 0 is the empty string. */
  function Setup(input: seq<Lexeme>, hist: History): (s: St)
    ensures StOk(s)
  {
    St(Lx(input, 1, InPar, 0, false), Ev(0, [RawSym("")], [], hist, []))
  }

  /** matheval: the text of what is on top of the stack, and the state it ends in. */
  function MathevalEnd(h: Host, input: seq<Lexeme>, hist: History): (string, Ev) {
    var s := Setup(input, hist);
    if input == [] then ("", s.ev) else
    var s1 := Parse(h, s, TOPPREC);
    if s1.lx.err then ("", s1.ev) else
    var (v, e1) := Pop(s1.ev);
    GetExpanded(h, e1, v)
  }

  /** The text, and what was asked of the client. */
  function Matheval(h: Host, input: seq<Lexeme>, hist: History): (string, History) {
    var (text, e1) := MathevalEnd(h, input, hist);
    (text, e1.history)
  }

  /** The text of a tree's value. */
  function EvalText(h: Host, e: Expr, hist: History): (string, History) {
    var (v, hist1) := Eval(h, e, hist);
    var (text, _, hist2) := AsText(h, v, hist1);
    (text, hist2)
  }

  lemma StartRoom(h: Host, e: Expr, text: seq<Lexeme>, hist: History)
    requires Lawful(h) && WellFormed(e) && Fits(h, e, hist)
    ensures Room(h, Setup(text, hist).ev, e)
  {
    hide Lawful, Entries, Depth;
  }

  /** A parse returns what was on the stack and one operand more, and takes exactly the table entries of the tree. */
  lemma AddsOneOperand(h: Host, s: St, e: Expr, k: seq<Lexeme>)
    requires WellFormed(e) && Before(h, s, e, Print(e, TOPPREC), k)
    requires k == [] || k[0] == RightParen
    ensures var s2 := Parse(h, s, TOPPREC);
            ResultIn(h, s.ev, s2.ev, e) && |s2.ev.stack| == |s.ev.stack| + 1 && s.ev.stack <= s2.ev.stack
            && s2.ev.noeval == s.ev.noeval && !s2.lx.err && s2.lx.mtok == (if k == [] then Eoi else OutPar)
            && |s2.ev.table| == |s.ev.table| + Takes(h, s.ev, e)
  {
    hide Lex, ParseLoop, EvOk, Represents, Eval, Skip, SkipStores, DummyAt, Print, Takes, Room, Good, Later;
    var s2 := ParsePrinted(h, s, e, TOPPREC, TOPPREC, k);
    ParseReturns(h, s, s2, TOPPREC);
  }

  /** Parser, operand stack, token table and short-circuiting together compute the tree semantics: the
      same text, and exactly the same requests to the client in the same order. The table ends up with exactly
      the entries counted for the tree, so `Fits` asks for no more than is taken. */
  lemma MathevalCorrect(h: Host, e: Expr, hist: History)
    requires Lawful(h) && WellFormed(e) && Fits(h, e, hist)
    ensures Matheval(h, Print(e, TOPPREC), hist) == EvalText(h, e, hist)
    ensures |MathevalEnd(h, Print(e, TOPPREC), hist).1.table| == 1 + Entries(h, e, hist)
  {
    hide Parse, EvOk, Later, Represents, Eval, GetExpanded, AsText, Print, Entries, Fits, Room, Untouched;
    var text := Print(e, TOPPREC);
    var s := Setup(text, hist);
    assert text + [] == text;
    StartRoom(h, e, text, hist);
    AddsOneOperand(h, s, e, []);
    var s2 := Parse(h, s, TOPPREC);
    StackSplit(s2.ev, []);
    PopOne(s2.ev, [], Top(s2.ev));
    GoodAnyStack(h, s2.ev);
    TextHolds(h, s2.ev.(stack := []), Top(s2.ev), Eval(h, e, hist).0);
  }

  lemma GoodAnyStack(h: Host, ev: Ev)
    requires Good(h, ev)
    ensures Good(h, ev.(stack := []))
  {
  }

  /** The left operand alone settles `l && r` or `l || r`. */
  predicate Settles(h: Host, b: BinOp, l: Expr, hist: History) {
    var (x, hist1) := Eval(h, l, hist);
    Shorts(b) && AsBool(h, x, hist1).0 == (b == Bool(DOr))
  }

  /** When the left operand settles the matter, the right one contributes nothing to the text; what it
      asks of the client is empty exactly when `SkipOperandRequests` is, as it is without `*`. */
  lemma SkippedOperand(h: Host, b: BinOp, l: Expr, r: Expr, hist: History)
    requires Lawful(h) && WellFormed(Bin(b, l, r)) && Fits(h, Bin(b, l, r), hist) && Settles(h, b, l, hist)
    ensures var (x, hist1) := Eval(h, l, hist);
            var hist2 := AsBool(h, x, hist1).2;
            var (text, hist3) := Matheval(h, Print(Bin(b, l, r), TOPPREC), hist);
            text == ShowBool(b == Bool(DOr)) && hist3 == hist2 + SkipOperandRequests(h, r)
            && (hist3 == hist2 <==> SkipOperandRequests(h, r) == [])
    ensures NoDeref(r) ==> SkipOperandRequests(h, r) == []
  {
    hide Matheval, MathevalEnd, AsBool, Print, Fits, Entries, Lawful;
    MathevalCorrect(h, Bin(b, l, r), hist);
    if NoDeref(r) {
      NoDerefSkipsClean(h, r);
    }
    var (x, hist1) := Eval(h, l, hist);
    var hist2 := AsBool(h, x, hist1).2;
    assert SkipOperandRequests(h, r) != [] ==> |hist2 + SkipOperandRequests(h, r)| > |hist2|;
  }

  /** `c ? a : z` is the branch taken, in the state the condition leaves, whatever the other branch is as
      long as that one has no `*`. */
  lemma SkippedBranch(h: Host, c: Expr, a: Expr, z: Expr, hist: History)
    requires Lawful(h) && WellFormed(Cond(c, a, z)) && Fits(h, Cond(c, a, z), hist)
    requires var (x, hist1) := Eval(h, c, hist); NoDeref(if AsBool(h, x, hist1).0 then z else a)
    ensures var (x, hist1) := Eval(h, c, hist); var (u, _, hist2) := AsBool(h, x, hist1);
            Matheval(h, Print(Cond(c, a, z), TOPPREC), hist) == EvalText(h, if u then a else z, hist2)
  {
    hide Matheval, MathevalEnd, AsBool, AsText, Print, Fits, Entries, Lawful;
    MathevalCorrect(h, Cond(c, a, z), hist);
    var (x, hist1) := Eval(h, c, hist);
    var (u, _, hist2) := AsBool(h, x, hist1);
    NoDerefSkipsClean(h, if u then z else a);
    NoStores(hist2);
    NoStores(Eval(h, a, hist2).1);
  }

  /** Skipping is exact: while nothing is evaluated, a tree with `*` or without makes exactly
      `SkipStores` requests, all of them stores of the empty string to the nameless variable. */
  lemma SkipExactly(h: Host, s: St, e: Expr, k: seq<Lexeme>)
    requires WellFormed(e) && Before(h, s, e, Print(e, TOPPREC), k) && s.ev.noeval > 0
    requires k == [] || k[0] == RightParen
    ensures var s2 := Parse(h, s, TOPPREC);
            s2.ev.history == s.ev.history + EmptyStores(SkipStores(h, e))
            && (s2.ev.history == s.ev.history <==> SkipStores(h, e) == 0)
  {
    hide Lex, ParseLoop, Parse, EvOk, Represents, Eval, Skip, SkipStores, DummyAt, Print, Takes, Room;
    AddsOneOperand(h, s, e, k);
    var s2 := Parse(h, s, TOPPREC);
    if SkipStores(h, e) > 0 {
      assert |s2.ev.history| > |s.ev.history|;
    } else {
      NoStores(s.ev.history);
    }
  }

  const STAR_SET := Bin(Assign(Set), Pre(Deref, Var("x")), Num("5"))

  const ZERO_AND_STAR_SET := Bin(Bool(DAnd), Num("0"), STAR_SET)

  /** `*x = 5` in a skipped branch does store: evaluating `0 && (*x = 5)` gives false, and yet assigns the
      empty string to the variable without a name. */
  lemma SkippedDerefStores(h: Host, hist: History)
    requires Lawful(h) && !h.checkVal("0")
    ensures Matheval(h, [Number("0"), Infix(Bool(DAnd)), LeftParen, Star, Name("x"), Infix(Assign(Set)), Number("5"),
            RightParen], hist)
            == ("0", hist + [Store("", "")])
  {
    ZeroAndStarSetPrinted();
    ZeroAndStarSetSmall();
    StarSetSkipped(h);
    FitsBySize(h, ZERO_AND_STAR_SET, hist);
    hide Matheval, Print, Lawful, SkipOperandRequests, Fits;
    SkippedOperand(h, Bool(DAnd), Num("0"), STAR_SET, hist);
  }

  lemma ZeroAndStarSetPrinted()
    ensures WellFormed(ZERO_AND_STAR_SET)
    ensures Print(ZERO_AND_STAR_SET, TOPPREC)
            == [Number("0"), Infix(Bool(DAnd)), LeftParen, Star, Name("x"), Infix(Assign(Set)), Number("5"), RightParen]
  {
    assert Print(Pre(Deref, Var("x")), 16) == [Star] + [Name("x")];
    assert Print(STAR_SET, TOPPREC) == [Star] + [Name("x")] + [Infix(Assign(Set))] + [Number("5")];
    assert Print(STAR_SET, 12) == [LeftParen] + Print(STAR_SET, TOPPREC) + [RightParen];
  }

  lemma ZeroAndStarSetSmall()
    ensures Slots(ZERO_AND_STAR_SET) < TOKENCOUNT
  {
    assert Slots(Pre(Deref, Var("x"))) == 2 && Slots(STAR_SET) == 3;
  }

  lemma StarSkipped(h: Host)
    ensures Skip(h, Pre(Deref, Var("x"))) == Nameless && SkipStores(h, Pre(Deref, Var("x"))) == 0
  {
    assert SkipStores(h, Var("x")) == 0;
  }

  lemma StarSetSkipped(h: Host)
    ensures SkipOperandRequests(h, STAR_SET) == [Store("", "")]
  {
    var l, r := Pre(Deref, Var("x")), Num("5");
    StarSkipped(h);
    assert Skip(h, r) == Inert && SkipStores(h, r) == 0;
    assert SkipBinary(h, Assign(Set), Nameless, Inert) == Inert && SkipBinaryStores(Assign(Set), Nameless, Inert) == 1;
    SkipBin(h, Assign(Set), l, r);
    assert EmptyStores(1) == [Store("", "")];
  }

  /** The lookups made for the entries of a log. */
  function Asked(log: seq<Charge>): (r: History)
    ensures |r| == |log|
  {
    seq(|log|, i requires 0 <= i < |log| => log[i].event)
  }

  lemma {:induction false} LookupsPrefix(hist: History, hist2: History)
    requires hist <= hist2
    ensures Lookups(hist) <= Lookups(hist2)
    decreases |hist2|
  {
    if |hist| < |hist2| {
      LookupsPrefix(hist, hist2[..|hist2| - 1]);
    } else {
      assert hist == hist2;
    }
  }

  /** In whatever state the parser is called, on input well formed or not: noeval is restored, handles and
      sizes stay within bounds, entries only gain representations, and the lookups it makes are exactly
      those it logs, each for an entry flagged for it and no entry twice for its name or for its text. */
  lemma AnyState(h: Host, s: St, pc: int)
    requires StOk(s) && pc < 137
    ensures var e, e2 := s.ev, Parse(h, s, pc).ev;
            && e2.noeval == e.noeval
            && |e.table| <= |e2.table| <= TOKENCOUNT && |e2.stack| <= STACKSZ
            && (forall i | 0 <= i < |e2.stack| :: HandleOk(e2.table, e2.stack[i]))
            && (forall i | 0 <= i < |e.table| :: SymLe(e.table[i], e2.table[i]))
            && e.history <= e2.history && e.log <= e2.log
            && OnceEach(e2.log) && (forall i | 0 <= i < |e2.log| :: Charged(e2.table, e2.log[i]))
            && Lookups(e2.history) == Lookups(e.history) + Asked(e2.log[|e.log|..])
  {
    hide Parse, SymLe, Charged, OnceEach, Lookups;
    LookupsGained(s.ev, Parse(h, s, pc).ev);
  }

  /** The history gains the lookups that the log gains, in its order. */
  lemma LookupsGained(e: Ev, e2: Ev)
    requires EvOk(e2) && Later(e, e2)
    ensures Lookups(e2.history) == Lookups(e.history) + Asked(e2.log[|e.log|..])
  {
    hide SymLe, Charged, OnceEach, Lookups;
    LookupsPrefix(e.history, e2.history);
    var n := |Lookups(e.history)|;
    forall i | 0 <= i < |e2.log| - |e.log|
      ensures Lookups(e2.history)[n + i] == Asked(e2.log[|e.log|..])[i]
    {
      assert Lookups(e2.history)[|Lookups(e2.history)| - |e2.log| + (|e.log| + i)] == e2.log[|e.log| + i].event;
    }
  }

  /** In particular over a whole expression, the final conversion to text included: each entry causes at most one
      expansion of its name, and at most one lookup of its text, and nothing else is looked up. */
  lemma AnyInput(h: Host, input: seq<Lexeme>, hist: History)
    ensures var e := Parse(h, Setup(input, hist), TOPPREC).ev;
            && e.noeval == 0
            && |e.table| <= 80 && |e.stack| <= 80
            && (forall i | 0 <= i < |e.stack| :: HandleOk(e.table, e.stack[i]))
            && SymLe(RawSym(""), e.table[0])
            && OnceLogged(e, hist)
    ensures var e := MathevalEnd(h, input, hist).1; e.noeval == 0 && |e.table| <= 80 && OnceLogged(e, hist)
  {
    hide Parse, SymLe, OnceLogged, GetExpanded, Pop, EvOk;
    var s := Setup(input, hist);
    AnyState(h, s, TOPPREC);
    var s1 := Parse(h, s, TOPPREC);
    assert Later(s.ev, s.ev) by { LaterSelf(s.ev); }
    LoggedFrom(s.ev, s.ev);
    LoggedFrom(s.ev, s1.ev);
    if input != [] && !s1.lx.err {
      var (v, e1) := Pop(s1.ev);
      var e2 := GetExpanded(h, e1, v).1;
      LaterThen(s.ev, s1.ev, e1);
      LaterThen(s.ev, e1, e2);
      LoggedFrom(s.ev, e2);
    }
  }

  /** The lookups since `hist` are those of the log, which charges each entry at most once for its name and at most
      once for its text, and only if it is flagged for it. */
  ghost predicate OnceLogged(e: Ev, hist: History) {
    && hist <= e.history
    && OnceEach(e.log) && (forall i | 0 <= i < |e.log| :: Charged(e.table, e.log[i]))
    && Lookups(e.history) == Lookups(hist) + Asked(e.log)
  }

  lemma LaterSelf(e: Ev)
    ensures Later(e, e)
  {
    hide Lookups;
  }

  lemma LaterThen(e: Ev, e1: Ev, e2: Ev)
    requires Later(e, e1) && Later(e1, e2)
    ensures Later(e, e2)
  {
    hide Lookups;
  }

  lemma LoggedFrom(e: Ev, e2: Ev)
    requires EvOk(e2) && Later(e, e2) && e.log == []
    ensures OnceLogged(e2, e.history) && |e2.table| <= TOKENCOUNT
  {
    hide SymLe, Charged, OnceEach, Lookups;
    LookupsGained(e, e2);
    assert e2.log[0..] == e2.log;
  }
}
