/** Precedence climbing is correct: on the minimally parenthesised text of a tree the parser computes
    exactly what the tree means. */
module ExprParse {
  import opened Options
  import opened ExprSyntax
  import opened ExprMachine
  import opened ExprEval
  import opened ExprReduce
  import opened ExprSkip
  import opened ExprOperands

  // ---------- the lexer on printed text ----------

  /** What may follow a complete operand. */
  predicate FollowOk(k: seq<Lexeme>) {
    k == [] || k[0] in {RightParen, PlusSign, MinusSign, PlusPlus, MinusMinus, Star, Hash, QuestMark, ColonMark,
      CommaMark}
    || k[0].Infix?
  }

  /** The token it lexes to. */
  function FollowTok(k: seq<Lexeme>): Tok
    requires FollowOk(k)
  {
    if k == [] then Eoi else
    match k[0]
    case RightParen => OutPar
    case PlusSign => Binary(Float(Add))
    case MinusSign => Binary(Float(Sub))
    case Star => Binary(Float(Mul))
    case Hash => Binary(StrCat)
    case PlusPlus => Unary(PostPlus)
    case MinusMinus => Unary(PostMinus)
    case QuestMark => Quest
    case ColonMark => Colon
    case CommaMark => Binary(Comma)
    case Infix(b) => Binary(b)
  }

  /** The operand flag it leaves. */
  function FollowOperand(k: seq<Lexeme>): int {
    if k != [] && k[0] in {RightParen, PlusPlus, MinusMinus} then 0 else 1
  }

  function FollowLx(lx: Lx): Lx
    requires FollowOk(lx.rest)
  {
    lx.(rest := if lx.rest == [] then [] else lx.rest[1..], operand := FollowOperand(lx.rest),
      mtok := FollowTok(lx.rest))
  }

  /** After an operand, lexing looks at nothing but the input, and touches nothing else. */
  lemma LexFollow(h: Host, s: St)
    requires StOk(s) && !s.lx.err && s.lx.operand == 0 && FollowOk(s.lx.rest)
    ensures Lex(h, s) == s.(lx := FollowLx(s.lx))
  {
    hide EvOk;
  }

  lemma LexBinary(h: Host, s: St, b: BinOp, k: seq<Lexeme>)
    requires StOk(s) && !s.lx.err && s.lx.operand == 0 && s.lx.rest == [BinSpelling(b)] + k
    ensures Lex(h, s) == s.(lx := s.lx.(rest := k, operand := 1, mtok := Binary(b)))
    ensures FollowOk(s.lx.rest) && FollowTok(s.lx.rest) == Binary(b)
  {
    assert s.lx.rest[0] == BinSpelling(b) && s.lx.rest[1..] == k;
    LexFollow(h, s);
  }

  lemma LexPost(h: Host, s: St, u: UnOp, k: seq<Lexeme>)
    requires StOk(s) && !s.lx.err && s.lx.operand == 0 && IsPostfix(u) && s.lx.rest == [PostSpelling(u)] + k
    ensures Lex(h, s) == s.(lx := s.lx.(rest := k, operand := 0, mtok := Unary(u)))
    ensures FollowOk(s.lx.rest) && FollowTok(s.lx.rest) == Unary(u)
  {
    assert s.lx.rest[0] == PostSpelling(u) && s.lx.rest[1..] == k;
    LexFollow(h, s);
  }

  lemma LexMark(h: Host, s: St, x: Lexeme, k: seq<Lexeme>)
    requires StOk(s) && !s.lx.err && s.lx.operand == 0 && s.lx.rest == [x] + k
    requires x == QuestMark || x == ColonMark
    ensures Lex(h, s) == s.(lx := s.lx.(rest := k, operand := 1, mtok := if x == QuestMark then Quest else Colon))
    ensures FollowOk(s.lx.rest) && FollowTok(s.lx.rest) == (if x == QuestMark then Quest else Colon)
  {
    assert s.lx.rest[0] == x && s.lx.rest[1..] == k;
    LexFollow(h, s);
  }

  lemma LexPrefixOp(h: Host, s: St, u: UnOp, k: seq<Lexeme>)
    requires StOk(s) && !s.lx.err && (s.lx.operand == 1 || s.lx.operand == 2) && IsPrefix(u)
             && s.lx.rest == [PrefixSpelling(u)] + k
    requires s.lx.operand == 2 ==> !TakesImplied(PrefixSpelling(u))
    ensures var t := Lex(h, s);
            t.ev == s.ev && t.lx.rest == k && t.lx.mtok == Unary(u) && !t.lx.err
            && t.lx.operand == (if AwaitsImplied(u) then 2 else 1)
  {
    hide EvOk;
    assert s.lx.rest[0] == PrefixSpelling(u) && s.lx.rest[1..] == k;
  }

  lemma LexOpen(h: Host, s: St, k: seq<Lexeme>)
    requires StOk(s) && !s.lx.err && s.lx.rest == [LeftParen] + k
    ensures Lex(h, s) == s.(lx := s.lx.(rest := k, operand := 1, mtok := InPar))
  {
    assert s.lx.rest[0] == LeftParen && s.lx.rest[1..] == k;
  }

  lemma LexClose(h: Host, s: St, k: seq<Lexeme>)
    requires StOk(s) && !s.lx.err && s.lx.operand == 0 && s.lx.rest == [RightParen] + k
    ensures Lex(h, s) == s.(lx := s.lx.(rest := k, operand := 0, mtok := OutPar))
    ensures FollowOk(s.lx.rest) && FollowTok(s.lx.rest) == OutPar
  {
    assert s.lx.rest[0] == RightParen && s.lx.rest[1..] == k;
    LexFollow(h, s);
  }

  // ---------- levels ----------

  lemma SameLevelSameSide(s: Tok, t: Tok)
    requires Prec(s) == Prec(t) && Prec(s) > 1
    ensures AssocOf(s) == RL <==> AssocOf(t) == RL
  {
  }

  /** A left operand printed bare cannot swallow the operator after it. */
  lemma LeftStops(l: Expr, b: BinOp)
    requires WellFormed(l) && Bare(l, LeftLevel(b))
    ensures RightLevel(RootTok(l)) < BinPrec(b)
  {
    if Prec(RootTok(l)) == BinPrec(b) {
      SameLevelSameSide(RootTok(l), Binary(b));
    }
  }

  // ---------- the parser ----------

  /** The parser stands before `text`, due an operand. */
  ghost predicate Before(h: Host, s: St, e: Expr, text: seq<Lexeme>, k: seq<Lexeme>) {
    && StOk(s) && !s.lx.err && Room(h, s.ev, e)
    && |text| > 0 && s.lx.rest == text + k
    && (s.lx.operand == 1 || (s.lx.operand == 2 && !TakesImplied(text[0])))
  }

  /** It has dealt with `e` and stands before `k`. */
  ghost predicate After(h: Host, s: St, s2: St, e: Expr, k: seq<Lexeme>) {
    && StOk(s2) && !s2.lx.err && s2.lx.rest == k && s2.lx.operand == 0
    && ResultIn(h, s.ev, s2.ev, e)
  }

  /** `k` ends an operand parsed with level `bound`. */
  predicate Ends(k: seq<Lexeme>, bound: int) {
    FollowOk(k) && Prec(FollowTok(k)) > bound
  }

  /** A level the parser is called with. */
  predicate Level(pc: int) {
    2 <= pc < 137
  }

  lemma LexAtom(h: Host, s: St, e: Expr, k: seq<Lexeme>)
    requires RootTok(e) == Id && WellFormed(e) && Before(h, s, e, Print(e, 0), k)
    ensures Lex(h, s) == LexOne(h, s.(lx := s.lx.(rest := k)), Print(e, 0)[0])
  {
    hide EvOk, LexOne, Room;
    assert s.lx.rest[0] == Print(e, 0)[0] && s.lx.rest[1..] == k;
  }

  lemma ParseAtom(h: Host, s: St, e: Expr, pc: int, k: seq<Lexeme>) returns (s2: St)
    requires RootTok(e) == Id && WellFormed(e)
    requires Before(h, s, e, Print(e, 0), k) && Level(pc)
    ensures After(h, s, s2, e, k)
    ensures ParseLoop(h, Lex(h, s), pc) == ParseLoop(h, Lex(h, s2), pc)
  {
    LexAtom(h, s, e, k);
    var t := Lex(h, s);
    AtomResult(h, s, t, e, k);
    s2 := t.(ev := Push(t.ev, t.lx.last));
    hide *;
    AtomUnfolds(h, t, pc);
  }

  /** A constant or a name is pushed as it is. */
  lemma AtomResult(h: Host, s: St, t: St, e: Expr, k: seq<Lexeme>)
    requires RootTok(e) == Id && WellFormed(e) && Before(h, s, e, Print(e, 0), k)
    requires t == LexOne(h, s.(lx := s.lx.(rest := k)), Print(e, 0)[0])
    ensures StOk(t) && t.lx.mtok == Id && !t.lx.err && After(h, s, t.(ev := Push(t.ev, t.lx.last)), e, k)
  {
    hide Room, After, EvOk, Lawful;
    if s.ev.noeval != 0 {
      DeadAtom(h, s, t, e, k);
    } else {
      LiveAtom(h, s, t, e, k);
    }
  }

  lemma DeadAtom(h: Host, s: St, t: St, e: Expr, k: seq<Lexeme>)
    requires RootTok(e) == Id && WellFormed(e) && Before(h, s, e, Print(e, 0), k) && s.ev.noeval != 0
    requires t == LexOne(h, s.(lx := s.lx.(rest := k)), Print(e, 0)[0])
    ensures StOk(t) && t.lx.mtok == Id && !t.lx.err && After(h, s, t.(ev := Push(t.ev, t.lx.last)), e, k)
  {
    hide Later, SymLe, Lookups, Lex, Evaluated, LogOk;
    NoStores(s.ev.history);
  }

  lemma LiveAtom(h: Host, s: St, t: St, e: Expr, k: seq<Lexeme>)
    requires RootTok(e) == Id && WellFormed(e) && Before(h, s, e, Print(e, 0), k) && s.ev.noeval == 0
    requires t == LexOne(h, s.(lx := s.lx.(rest := k)), Print(e, 0)[0])
    ensures StOk(t) && t.lx.mtok == Id && !t.lx.err && After(h, s, t.(ev := Push(t.ev, t.lx.last)), e, k)
  {
    hide Later, SymLe, Lookups, Lex, Skipped, LogOk;
  }

  lemma AtomUnfolds(h: Host, t: St, pc: int)
    requires StOk(t) && !t.lx.err && t.lx.mtok == Id && Level(pc)
    ensures EvOk(Push(t.ev, t.lx.last))
    ensures ParseLoop(h, t, pc) == ParseLoop(h, Lex(h, t.(ev := Push(t.ev, t.lx.last))), pc)
  {
    hide Lex;
  }

  lemma ParseAtomAt(h: Host, s: St, e: Expr, lvl: int, pc: int, k: seq<Lexeme>) returns (s2: St)
    requires WellFormed(e) && RootTok(e) == Id && lvl >= 0
    requires Before(h, s, e, Print(e, lvl), k) && Level(pc)
    ensures After(h, s, s2, e, k)
    ensures ParseLoop(h, Lex(h, s), pc) == ParseLoop(h, Lex(h, s2), pc)
  {
    hide Before, After, Lex, ParseLoop, Room;
    assert Print(e, lvl) == Print(e, 0);
    s2 := ParseAtom(h, s, e, pc, k);
  }

  /** On the printed form of `e` the parser leaves its result and goes on with what follows. */
  lemma {:induction false} ParsePrinted(h: Host, s: St, e: Expr, lvl: int, pc: int, k: seq<Lexeme>) returns (s2: St)
    requires WellFormed(e) && Before(h, s, e, Print(e, lvl), k)
    requires Level(pc) && 0 <= lvl <= pc
    requires if Bare(e, lvl) then Ends(k, RightLevel(RootTok(e))) else FollowOk(k)
    ensures After(h, s, s2, e, k)
    ensures ParseLoop(h, Lex(h, s), pc) == ParseLoop(h, Lex(h, s2), pc)
    decreases e, if Bare(e, lvl) then 2 else 4
  {
    hide Before, After, Lex, ParseLoop, Room;
    if !Bare(e, lvl) {
      s2 := ParseParen(h, s, e, lvl, pc, k);
    } else {
      match e
      case Pre(u, x) => s2 := ParsePre(h, s, e, lvl, pc, k);
      case Post(u, x) => s2 := ParsePost(h, s, e, lvl, pc, k);
      case Bin(b, l, r) => s2 := ParseBin(h, s, e, lvl, pc, k);
      case Cond(c, a, z) => s2 := ParseCondPrinted(h, s, e, lvl, pc, k);
      case _ => s2 := ParseAtomAt(h, s, e, lvl, pc, k);
    }
  }

  lemma {:induction false} ParseParen(h: Host, s: St, e: Expr, lvl: int, pc: int, k: seq<Lexeme>) returns (s2: St)
    requires WellFormed(e) && Before(h, s, e, Print(e, lvl), k)
    requires Level(pc) && 0 <= lvl <= pc && !Bare(e, lvl) && FollowOk(k)
    ensures After(h, s, s2, e, k)
    ensures ParseLoop(h, Lex(h, s), pc) == ParseLoop(h, Lex(h, s2), pc)
    decreases e, 3
  {
    hide Room, ResultIn, EvOk, Lex, ParseLoop, Parse, Eval, Skip, SkipStores, Later, Takes;
    var inner := Print(e, TOPPREC);
    assert Print(e, lvl) + k == [LeftParen] + (inner + ([RightParen] + k));
    LexOpen(h, s, inner + ([RightParen] + k));
    var t := Lex(h, s);
    var u := ParsePrinted(h, t, e, TOPPREC, TOPPREC, [RightParen] + k);
    LexClose(h, u, k);
    s2 := Lex(h, u);
    ParseReturns(h, t, u, TOPPREC);
    ParenUnfolds(h, t, s2, pc);
  }

  lemma ParenUnfolds(h: Host, t: St, u: St, pc: int)
    requires StOk(t) && !t.lx.err && t.lx.mtok == InPar && Level(pc)
    requires u == Parse(h, t, TOPPREC) && u.lx.mtok == OutPar
    ensures StOk(u) && ParseLoop(h, t, pc) == ParseLoop(h, Lex(h, u), pc)
  {
    hide Lex, Parse;
  }

  /** Before the parts: what the whole asks for, the first part gets. */
  lemma RoomUnary(h: Host, ev: Ev, e: Expr, x: Expr)
    requires (e.Pre? && e.e == x) || (e.Post? && e.e == x)
    requires Room(h, ev, e)
    ensures Room(h, ev, x)
  {
    hide Good, Lawful;
  }

  /** The first lexeme of an operand that `@`, `#` or `*` takes does not look like an implied argument. */
  lemma StartsPlain(x: Expr, u: UnOp)
    requires WellFormed(x) && AwaitsImplied(u)
    ensures !TakesImplied(Print(x, PrefixLevel(u, x))[0])
  {
    if x.Post? && Bare(x, PrefixLevel(u, x)) {
      assert Print(x, PrefixLevel(u, x))[0] == Print(x.e, 1)[0];
    }
  }

  /** Reducing commutes with lexing what follows. */
  lemma ReduceThenLex(h: Host, s: St, n: nat, t: Tok)
    requires StOk(s) && !s.lx.err && s.lx.operand == 0 && FollowOk(s.lx.rest)
    ensures var s2 := s.(ev := Reduce(h, s.ev.(noeval := n), t));
            StOk(s2) && ReduceSt(h, SetNoeval(Lex(h, s), n), t) == Lex(h, s2)
            && Lex(h, s).lx.mtok == FollowTok(s.lx.rest) && !Lex(h, s).lx.err
  {
    hide Reduce, Lex, EvOk;
    LexFollow(h, s);
    var e1 := s.ev.(noeval := n);
    assert EvOk(e1) by { AnyLevel(s.ev, n); }
    var s2 := s.(ev := Reduce(h, e1, t));
    assert HandleOk(s2.ev.table, s.lx.last);
    LexFollow(h, s2);
  }

  lemma AnyLevel(ev: Ev, n: nat)
    requires EvOk(ev)
    ensures EvOk(ev.(noeval := n))
  {
  }

  /** A call of the parser that reaches the end of its operand at `s2` returns there. */
  lemma ParseReturns(h: Host, q: St, s2: St, pc: int)
    requires StOk(q) && !q.lx.err && pc < 137
    requires StOk(s2) && !s2.lx.err && s2.lx.operand == 0 && Ends(s2.lx.rest, pc)
    requires ParseLoop(h, Lex(h, q), pc) == ParseLoop(h, Lex(h, s2), pc)
    ensures Parse(h, q, pc) == Lex(h, s2) == s2.(lx := FollowLx(s2.lx))
  {
    hide Lex, EvOk;
    LexFollow(h, s2);
  }

  /** An operator whose right side leads to `s1` reduces there, and the loop goes on. */
  lemma OperatorStep(h: Host, t: St, q: St, s1: St, pc: int)
    requires StOk(t) && !t.lx.err && (t.lx.mtok.Unary? || t.lx.mtok.Binary?) && Prec(t.lx.mtok) <= pc < 137
    requires StOk(s1) && !s1.lx.err && s1.lx.operand == 0 && FollowOk(s1.lx.rest)
    requires q == ShortCircuit(h, t, t.lx.mtok) && StOk(q) && Parse(h, q, RightLevel(t.lx.mtok)) == Lex(h, s1)
    ensures EvOk(s1.ev.(noeval := t.ev.noeval))
    ensures var s2 := s1.(ev := Reduce(h, s1.ev.(noeval := t.ev.noeval), t.lx.mtok));
            StOk(s2) && ParseLoop(h, t, pc) == ParseLoop(h, Lex(h, s2), pc)
  {
    hide Lex, EvOk, Reduce, ShortCircuit, ReduceSt, SetNoeval, Parse, Later;
    AnyLevel(s1.ev, t.ev.noeval);
    ReduceThenLex(h, s1, t.ev.noeval, t.lx.mtok);
    assert ParseOperator(h, t) == ReduceSt(h, SetNoeval(Lex(h, s1), t.ev.noeval), t.lx.mtok);
  }

  lemma NoShortCircuit(h: Host, t: St)
    requires StOk(t) && t.lx.mtok.Unary?
    ensures ShortCircuit(h, t, t.lx.mtok) == t
  {
  }

  lemma {:induction false} ParsePre(h: Host, s: St, e: Expr, lvl: int, pc: int, k: seq<Lexeme>) returns (s2: St)
    requires e.Pre? && WellFormed(e) && Before(h, s, e, Print(e, lvl), k)
    requires Level(pc) && 0 <= lvl <= pc && Bare(e, lvl) && Ends(k, 2)
    ensures After(h, s, s2, e, k)
    ensures ParseLoop(h, Lex(h, s), pc) == ParseLoop(h, Lex(h, s2), pc)
    decreases e, 1
  {
    hide Room, ResultIn, EvOk, Lex, Reduce, Print, Parse, ParseLoop, ShortCircuit, Eval, Skip, SkipStores, Later, Takes;
    var u, x := e.u, e.e;
    var text := Print(x, PrefixLevel(u, x));
    PrintPre(e, lvl);
    assert Print(e, lvl) + k == [PrefixSpelling(u)] + (text + k);
    LexPrefixOp(h, s, u, text + k);
    var t := Lex(h, s);
    RoomUnary(h, s.ev, e, x);
    if AwaitsImplied(u) {
      StartsPlain(x, u);
    }
    var s1 := ParsePrinted(h, t, x, PrefixLevel(u, x), 2, k);
    UnaryResult(h, s.ev, s1.ev, x, u, e);
    SameLevel(h, s.ev, s1.ev, x);
    NoShortCircuit(h, t);
    ParseReturns(h, t, s1, 2);
    OperatorStep(h, t, t, s1, pc);
    s2 := s1.(ev := Reduce(h, s1.ev, Unary(u)));
  }

  lemma PrintPost(e: Expr, lvl: int)
    requires e.Post? && WellFormed(e) && Bare(e, lvl)
    ensures Print(e, lvl) == Print(e.e, 1) + [PostSpelling(e.u)]
  {
  }

  lemma {:induction false} ParsePost(h: Host, s: St, e: Expr, lvl: int, pc: int, k: seq<Lexeme>) returns (s2: St)
    requires e.Post? && WellFormed(e) && Before(h, s, e, Print(e, lvl), k)
    requires Level(pc) && 0 <= lvl <= pc && Bare(e, lvl) && Ends(k, 2)
    ensures After(h, s, s2, e, k)
    ensures ParseLoop(h, Lex(h, s), pc) == ParseLoop(h, Lex(h, s2), pc)
    decreases e, 1
  {
    hide Room, ResultIn, EvOk, Lex, Reduce, Print, Parse, ParseLoop, ShortCircuit, Later;
    var u, x := e.u, e.e;
    PrintPost(e, lvl);
    var k1 := [PostSpelling(u)] + k;
    assert Print(e, lvl) + k == Print(x, 1) + k1;
    assert Print(e, lvl)[0] == Print(x, 1)[0];
    RoomUnary(h, s.ev, e, x);
    assert FollowOk(k1) && FollowTok(k1) == Unary(u);
    var s1 := ParsePrinted(h, s, x, 1, pc, k1);
    LexPost(h, s1, u, k);
    var t := Lex(h, s1);
    SameLevel(h, s.ev, s1.ev, x);
    UnaryResult(h, s.ev, s1.ev, x, u, e);
    NoShortCircuit(h, t);
    // the parser looks for a right operand of the postfix operator and finds the end at once
    ParseReturns(h, t, t, 2);
    OperatorStep(h, t, t, t, pc);
    s2 := t.(ev := Reduce(h, s1.ev, Unary(u)));
  }

  lemma PrintBin(e: Expr, lvl: int)
    requires e.Bin? && WellFormed(e) && Bare(e, lvl)
    ensures Print(e, lvl) == Print(e.l, LeftLevel(e.b)) + [BinSpelling(e.b)] + Print(e.r, RightLevel(Binary(e.b)))
  {
  }

  lemma RoomLeft(h: Host, ev: Ev, b: BinOp, l: Expr, r: Expr)
    requires Room(h, ev, Bin(b, l, r))
    ensures Room(h, ev, l)
  {
    hide Good, Lawful;
  }

  lemma ShortCircuitIsBetween(h: Host, t: St, b: BinOp)
    requires StOk(t) && t.lx.mtok == Binary(b)
    ensures ShortCircuit(h, t, Binary(b)) == t.(ev := Between(h, t.ev, b))
  {
    hide EvOk, ForceTop, Later;
  }

  lemma {:induction false} ParseBin(h: Host, s: St, e: Expr, lvl: int, pc: int, k: seq<Lexeme>) returns (s2: St)
    requires e.Bin? && WellFormed(e) && Before(h, s, e, Print(e, lvl), k)
    requires Level(pc) && 0 <= lvl <= pc && Bare(e, lvl) && Ends(k, RightLevel(Binary(e.b)))
    ensures After(h, s, s2, e, k)
    ensures ParseLoop(h, Lex(h, s), pc) == ParseLoop(h, Lex(h, s2), pc)
    decreases e, 1
  {
    hide Room, ResultIn, EvOk, Lex, Reduce, Print, Parse, ParseLoop, ShortCircuit, Between, Later;
    var b, l, r := e.b, e.l, e.r;
    var rp := RightLevel(Binary(b));
    PrintBin(e, lvl);
    var k1 := [BinSpelling(b)] + (Print(r, rp) + k);
    assert Print(e, lvl) + k == Print(l, LeftLevel(b)) + k1;
    assert Print(e, lvl)[0] == Print(l, LeftLevel(b))[0];
    RoomLeft(h, s.ev, b, l, r);
    assert FollowOk(k1) && FollowTok(k1) == Binary(b);
    if Bare(l, LeftLevel(b)) {
      LeftStops(l, b);
    }
    var s1 := ParsePrinted(h, s, l, LeftLevel(b), pc, k1);
    LexBinary(h, s1, b, Print(r, rp) + k);
    var t := Lex(h, s1);
    ShortCircuitIsBetween(h, t, b);
    BetweenRoom(h, s.ev, s1.ev, b, l, r);
    var q := ShortCircuit(h, t, Binary(b));
    var s3 := ParsePrinted(h, q, r, rp, rp, k);
    SameLevel(h, s.ev, s1.ev, l);
    ParseReturns(h, q, s3, rp);
    OperatorStep(h, t, q, s3, pc);
    BinResult(h, s.ev, s1.ev, s3.ev, b, l, r);
    s2 := s3.(ev := Reduce(h, s3.ev.(noeval := s.ev.noeval), Binary(b)));
  }

  lemma PrintCond(e: Expr, lvl: int)
    requires e.Cond? && WellFormed(e) && Bare(e, lvl)
    ensures Print(e, lvl) == Print(e.c, 15) + [QuestMark] + Print(e.a, 15) + [ColonMark] + Print(e.z, 16)
  {
  }

  lemma RoomCondition(h: Host, ev: Ev, c: Expr, a: Expr, z: Expr)
    requires Room(h, ev, Cond(c, a, z))
    ensures Room(h, ev, c)
  {
    hide Good, Lawful;
  }

  /** The state in which a branch of `?:` is parsed. */
  function Branch(s: St, n: nat, taken: bool): (r: St)
    requires StOk(s)
    ensures StOk(r)
  {
    s.(ev := BranchEv(s.ev, n, taken))
  }

  lemma BranchIsSetNoeval(s: St, n: nat, taken: bool)
    requires StOk(s)
    ensures Branch(s, n, taken) == SetNoeval(s, if taken then n else n + 1)
  {
  }

  /** The three parses of `?:` chained together. */
  lemma CondStep(h: Host, t: St, f: St, u: bool, m: St, s4: St, pc: int)
    requires StOk(t) && !t.lx.err && t.lx.mtok == Quest && 16 <= pc < 137
    requires (u, f.ev) == ForceTop(h, t.ev) && f.lx == t.lx && StOk(f) && StOk(m)
    requires StOk(s4) && !s4.lx.err && s4.lx.operand == 0 && FollowOk(s4.lx.rest)
    requires Parse(h, Branch(f, t.ev.noeval, u), 15) == m
    requires Parse(h, Branch(m, t.ev.noeval, !u), 16) == Lex(h, s4)
    ensures EvOk(s4.ev.(noeval := t.ev.noeval))
    ensures var s2 := s4.(ev := Reduce(h, s4.ev.(noeval := t.ev.noeval), Quest));
            StOk(s2) && ParseLoop(h, t, pc) == ParseLoop(h, Lex(h, s2), pc)
  {
    ParsesCond(h, t, f, u, m);
    AnyLevel(s4.ev, t.ev.noeval);
    ReduceThenLex(h, s4, t.ev.noeval, Quest);
    CondUnfolds(h, t, pc);
    hide *;
  }

  lemma CondUnfolds(h: Host, t: St, pc: int)
    requires StOk(t) && !t.lx.err && t.lx.mtok == Quest && 16 <= pc < 137
    ensures ParseLoop(h, t, pc) == ParseLoop(h, ParseCond(h, t), pc)
  {
    hide Lex, EvOk, ParseCond, Later;
  }

  lemma ParsesCond(h: Host, t: St, f: St, u: bool, m: St)
    requires StOk(t) && !t.lx.err && t.lx.mtok == Quest
    requires (u, f.ev) == ForceTop(h, t.ev) && f.lx == t.lx && StOk(f) && StOk(m)
    requires Parse(h, Branch(f, t.ev.noeval, u), 15) == m
    ensures ParseCond(h, t) == ReduceSt(h, SetNoeval(Parse(h, Branch(m, t.ev.noeval, !u), 16), t.ev.noeval), Quest)
  {
    hide Lex, EvOk, ForceTop, ReduceSt, Later, Parse, Branch, SetNoeval;
    BranchIsSetNoeval(f, t.ev.noeval, u);
    BranchIsSetNoeval(m, t.ev.noeval, !u);
  }

  lemma {:induction false} ParseCondPrinted(h: Host, s: St, e: Expr, lvl: int, pc: int, k: seq<Lexeme>) returns (s2: St)
    requires e.Cond? && WellFormed(e) && Before(h, s, e, Print(e, lvl), k)
    requires Level(pc) && 0 <= lvl <= pc && Bare(e, lvl) && Ends(k, 16)
    ensures After(h, s, s2, e, k)
    ensures ParseLoop(h, Lex(h, s), pc) == ParseLoop(h, Lex(h, s2), pc)
    decreases e, 1
  {
    hide Room, ResultIn, EvOk, Lex, Reduce, Print, Parse, ParseLoop, ForceTop;
    PrintCond(e, lvl);
    var k2 := Print(e.a, 15) + ([ColonMark] + (Print(e.z, 16) + k));
    var k1 := [QuestMark] + k2;
    assert Print(e, lvl) + k == Print(e.c, 15) + k1;
    assert Print(e, lvl)[0] == Print(e.c, 15)[0];
    RoomCondition(h, s.ev, e.c, e.a, e.z);
    assert FollowOk(k1) && FollowTok(k1) == Quest;
    var s1 := ParsePrinted(h, s, e.c, 15, pc, k1);
    LexMark(h, s1, QuestMark, k2);
    SameLevel(h, s.ev, s1.ev, e.c);
    s2 := ParseBranches(h, s.ev, Lex(h, s1), e, pc, k);
  }

  /** From the `?` on. */
  lemma {:induction false} ParseBranches(h: Host, ev: Ev, t: St, e: Expr, pc: int, k: seq<Lexeme>) returns (s2: St)
    requires e.Cond? && WellFormed(e) && Room(h, ev, e) && ResultIn(h, ev, t.ev, e.c) && t.ev.noeval == ev.noeval
    requires StOk(t) && !t.lx.err && t.lx.mtok == Quest && t.lx.operand == 1
    requires t.lx.rest == Print(e.a, 15) + ([ColonMark] + (Print(e.z, 16) + k))
    requires 16 <= pc < 137 && Ends(k, 16)
    ensures StOk(s2) && !s2.lx.err && s2.lx.rest == k && s2.lx.operand == 0 && ResultIn(h, ev, s2.ev, e)
    ensures ParseLoop(h, t, pc) == ParseLoop(h, Lex(h, s2), pc)
    decreases e, 0
  {
    hide Room, ResultIn, EvOk, Lex, Reduce, Print, Parse, ParseLoop, ForceTop;
    var c, a, z := e.c, e.a, e.z;
    var k3 := Print(z, 16) + k;
    var k2 := [ColonMark] + k3;
    CondRoom(h, ev, t.ev, c, a, z);
    assert FollowOk(k2) && FollowTok(k2) == Colon;
    var (u, e2) := ForceTop(h, t.ev);
    var f := t.(ev := e2);
    var q1 := Branch(f, ev.noeval, u);
    var s3 := ParsePrinted(h, q1, a, 15, 15, k2);
    ParseReturns(h, q1, s3, 15);
    LexMark(h, s3, ColonMark, k3);
    var m := Lex(h, s3);
    CondRoom2(h, ev, t.ev, s3.ev, c, a, z);
    var q2 := Branch(m, ev.noeval, !u);
    var s4 := ParsePrinted(h, q2, z, 16, 16, k);
    ParseReturns(h, q2, s4, 16);
    CondStep(h, t, f, u, m, s4, pc);
    CondResult(h, ev, t.ev, s3.ev, s4.ev, c, a, z);
    s2 := s4.(ev := Reduce(h, s4.ev.(noeval := ev.noeval), Quest));
  }

  lemma PrintPre(e: Expr, lvl: int)
    requires e.Pre? && WellFormed(e) && Bare(e, lvl)
    ensures Print(e, lvl) == [PrefixSpelling(e.u)] + Print(e.e, PrefixLevel(e.u, e.e))
  {
  }

  /** A tree leaves the noeval level as it was. */
  lemma SameLevel(h: Host, ev: Ev, e1: Ev, x: Expr)
    requires ResultIn(h, ev, e1, x)
    ensures e1.noeval == ev.noeval
  {
    hide Good, Represents, DummyAt, Untouched;
  }
}
