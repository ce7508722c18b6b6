/** How strongly each operator binds, said of texts: which tree an expression with two operators and no parentheses
    is evaluated as. The operators are listed here as a table of their own, tightest first (source/expr2.c:314-337). */
module ExprPrecedence {
  import opened ExprSyntax
  import opened ExprMachine
  import opened ExprEval
  import opened ExprTheorems

  /** An operator and the lexeme it is written as. */
  datatype Sign = Sign(text: Lexeme, op: BinOp)

  /** An operator that has its lexeme for itself. */
  function Own(b: BinOp): Sign {
    Sign(Infix(b), b)
  }

  const POWERS := [Own(Float(Power))]
  const PRODUCTS := [Sign(Star, Float(Mul)), Own(Float(Div)), Own(Int(Mod))]
  const SUMS := [Sign(PlusSign, Float(Add)), Sign(MinusSign, Float(Sub)), Sign(Hash, StrCat)]
  const SHIFTS := [Own(Int(ShiftLeft)), Own(Int(ShiftRight))]
  const ORDERS := [Own(Compare(Les)), Own(Compare(Leq)), Own(Compare(Gre)), Own(Compare(Geq))]
  const MATCHES := [Own(Compare(Match)), Own(Compare(NoMatch))]
  const EQUALITIES := [Own(Compare(Deq)), Own(Compare(Neq))]
  const ASSIGNMENTS := [
    Own(Assign(Set)), Own(Assign(FloatSet(Add))), Own(Assign(FloatSet(Sub))), Own(Assign(FloatSet(Mul))),
    Own(Assign(FloatSet(Div))), Own(Assign(IntSet(Mod))), Own(Assign(IntSet(BitAnd))), Own(Assign(IntSet(BitXor))),
    Own(Assign(IntSet(BitOr))), Own(Assign(IntSet(ShiftLeft))), Own(Assign(IntSet(ShiftRight))),
    Own(Assign(BoolSet(DAnd))), Own(Assign(BoolSet(DOr))), Own(Assign(BoolSet(DXor))), Own(Assign(FloatSet(Power))),
    Own(Assign(CatSet)), Own(Assign(PreSet)), Own(Assign(Swap))]

  /** How many families there are. */
  const FAMILIES := 15

  /** The binary operators, family by family. The conditional stands before the assignments. */
  function Family(i: nat): seq<Sign> {
    match i
    case 0 => POWERS
    case 1 => PRODUCTS
    case 2 => SUMS
    case 3 => SHIFTS
    case 4 => ORDERS
    case 5 => MATCHES
    case 6 => EQUALITIES
    case 7 => [Own(Int(BitAnd))]
    case 8 => [Own(Int(BitXor))]
    case 9 => [Own(Int(BitOr))]
    case 10 => [Own(Bool(DAnd))]
    case 11 => [Own(Bool(DXor))]
    case 12 => [Own(Bool(DOr))]
    case 13 => ASSIGNMENTS
    case 14 => [Sign(CommaMark, Comma)]
    case _ => []
  }

  /** Families from here on bind less than the conditional. */
  const LOOSE := 13

  /** The families that group to the right. */
  predicate GroupsRight(i: nat) {
    i == 0 || i == 13
  }

  predicate In(p: Sign, i: nat) {
    p in Family(i)
  }

  /** The unary operators and their lexemes. */
  const PREFIXES := map[
    Not := Bang, Comp := Tilde, UPlus := PlusSign, UMinus := MinusSign, StrLen := At, WordC := Hash, Deref := Star,
    PrePlus := PlusPlus, PreMinus := MinusMinus]

  const POSTFIXES := map[PostPlus := PlusPlus, PostMinus := MinusMinus]

  /** An operand that is one lexeme. */
  predicate Atom(e: Expr) {
    e.Num? || e.Var? || e.Str? || e.Block?
  }

  function Text(e: Expr): Lexeme
    requires Atom(e)
  {
    match e
    case Num(t) => Number(t)
    case Var(t) => Name(t)
    case Str(t) => Quoted(t)
    case Block(t) => Braced(t)
  }

  // ---------- the list and the tables of the parser ----------

  function Level(i: nat): int {
    if i < 13 then i + 3 else i + 4
  }

  lemma Ranked(p: Sign, i: nat)
    requires In(p, i)
    ensures BinSpelling(p.op) == p.text && BinPrec(p.op) == Level(i) && i < FAMILIES
    ensures AssocOf(Binary(p.op)) == RL <==> GroupsRight(i)
  {
    if i < 4 {
      RankedTight(p, i);
    } else if i == 13 {
      RankedAssignment(p);
    } else {
      RankedLoose(p, i);
    }
  }

  lemma RankedTight(p: Sign, i: nat)
    requires In(p, i) && i < 4
    ensures BinSpelling(p.op) == p.text && BinPrec(p.op) == i + 3
    ensures AssocOf(Binary(p.op)) == RL <==> i == 0
  {
  }

  lemma RankedLoose(p: Sign, i: nat)
    requires In(p, i) && 4 <= i && i != 13
    ensures BinSpelling(p.op) == p.text && BinPrec(p.op) == Level(i) && i < FAMILIES
    ensures AssocOf(Binary(p.op)) != RL
  {
  }

  lemma RankedAssignment(p: Sign)
    requires p in ASSIGNMENTS
    ensures p.op.Assign? && p.text == Infix(p.op)
  {
  }

  /** The list is complete. */
  lemma EveryOperator(b: BinOp)
    ensures exists i, p :: In(p, i) && p.op == b
  {
    match b
    case Float(f) =>
      if f == Power {
        assert In(POWERS[0], 0);
      } else if f == Mul || f == Div {
        assert In(PRODUCTS[if f == Mul then 0 else 1], 1);
      } else {
        assert In(SUMS[if f == Add then 0 else 1], 2);
      }
    case Int(i) => EveryInteger(i);
    case Bool(o) => assert In(Own(b), if o == DAnd then 10 else if o == DXor then 11 else 12);
    case StrCat => assert In(SUMS[2], 2);
    case Compare(c) =>
      if c.Les? || c.Leq? || c.Gre? || c.Geq? {
        assert In(ORDERS[if c.Les? then 0 else if c.Leq? then 1 else if c.Gre? then 2 else 3], 4);
      } else if c.Match? || c.NoMatch? {
        assert In(MATCHES[if c.Match? then 0 else 1], 5);
      } else {
        assert In(EQUALITIES[if c.Deq? then 0 else 1], 6);
      }
    case Assign(a) =>
      var k := AssignmentPlace(a);
      assert In(ASSIGNMENTS[k], 13);
    case Comma => assert In(Family(14)[0], 14);
  }

  lemma EveryInteger(i: IntOp)
    ensures exists k, p :: In(p, k) && p.op == Int(i)
  {
    match i
    case Mod => assert In(PRODUCTS[2], 1);
    case ShiftLeft => assert In(SHIFTS[0], 3);
    case ShiftRight => assert In(SHIFTS[1], 3);
    case BitAnd => assert In(Family(7)[0], 7);
    case BitXor => assert In(Family(8)[0], 8);
    case BitOr => assert In(Family(9)[0], 9);
  }

  lemma AssignmentPlace(a: AssignOp) returns (k: nat)
    ensures k < |ASSIGNMENTS| && ASSIGNMENTS[k].op == Assign(a)
  {
    match a
    case Set => k := 0;
    case FloatSet(f) =>
      k := match f case Add => 1 case Sub => 2 case Mul => 3 case Div => 4 case Power => 14;
    case IntSet(i) =>
      k := match i
        case Mod => 5
        case BitAnd => 6
        case BitXor => 7
        case BitOr => 8
        case ShiftLeft => 9
        case ShiftRight => 10;
    case BoolSet(b) => k := match b case DAnd => 11 case DOr => 12 case DXor => 13;
    case CatSet => k := 15;
    case PreSet => k := 16;
    case Swap => k := 17;
  }

  // ---------- texts without parentheses ----------

  /** A use of an operator, with the family it is from. */
  datatype Use = Use(sign: Sign, family: nat)

  predicate Listed(us: seq<Use>) {
    forall i | 0 <= i < |us| :: In(us[i].sign, us[i].family)
  }

  /** Only operators that bind more than the conditional. */
  predicate Tight(us: seq<Use>) {
    Listed(us) && forall i | 0 <= i < |us| :: us[i].family < LOOSE
  }

  /** Only assignments and commas. */
  predicate Loose(us: seq<Use>) {
    Listed(us) && forall i | 0 <= i < |us| :: us[i].family >= LOOSE
  }

  /** The operator that is done last: one of the loosest family there is, the last of several if the family groups
      to the left and the first if it groups to the right. */
  function Root(us: seq<Use>): (k: nat)
    requires us != []
    ensures k < |us|
  {
    var n := |us| - 1;
    if n == 0 then 0
    else
      var k := Root(us[..n]);
      if us[n].family > us[k].family || (us[n].family == us[k].family && !GroupsRight(us[n].family)) then n else k
  }

  /** The tree that is meant: what stands before the operator done last is its left operand, and what stands
      behind it its right one. */
  function Group(xs: seq<Expr>, us: seq<Use>): Expr
    requires |xs| == |us| + 1
    decreases |us|
  {
    if us == [] then xs[0]
    else
      var k := Root(us);
      Bin(us[k].sign.op, Group(xs[..k + 1], us[..k]), Group(xs[k + 1..], us[k + 1..]))
  }

  /** The texts with the operators between them. */
  function Join(texts: seq<seq<Lexeme>>, us: seq<Use>): seq<Lexeme>
    requires |texts| == |us| + 1
    decreases |us|
  {
    if us == [] then texts[0] else texts[0] + [us[0].sign.text] + Join(texts[1..], us[1..])
  }

  /** A constant, a name, a string or a block, with at most one prefix operator before and one postfix operator
      behind it. */
  predicate Small(e: Expr) {
    match e
    case Pre(u, x) => u in PREFIXES && (Atom(x) || (x.Post? && Small(x)))
    case Post(u, x) => u in POSTFIXES && Atom(x)
    case _ => Atom(e)
  }

  function SmallText(e: Expr): seq<Lexeme>
    requires Small(e)
  {
    match e
    case Pre(u, x) => [PREFIXES[u]] + SmallText(x)
    case Post(u, x) => [Text(x), POSTFIXES[u]]
    case _ => [Text(e)]
  }

  /** Operands with tight operators between them. */
  datatype Chain = Chain(xs: seq<Expr>, us: seq<Use>)

  predicate ChainOk(c: Chain) {
    |c.xs| == |c.us| + 1 && Tight(c.us) && forall i | 0 <= i < |c.xs| :: Small(c.xs[i])
  }

  function ChainText(c: Chain): seq<Lexeme>
    requires ChainOk(c)
  {
    Join(seq(|c.xs|, i requires 0 <= i < |c.xs| => SmallText(c.xs[i])), c.us)
  }

  /** A chain, or a conditional one, whose last branch may be conditional again. */
  datatype Piece = Simple(c: Chain) | Choice(c: Chain, a: Chain, z: Piece)

  predicate PieceOk(p: Piece) {
    match p
    case Simple(c) => ChainOk(c)
    case Choice(c, a, z) => ChainOk(c) && ChainOk(a) && PieceOk(z)
  }

  function PieceText(p: Piece): seq<Lexeme>
    requires PieceOk(p)
  {
    match p
    case Simple(c) => ChainText(c)
    case Choice(c, a, z) => ChainText(c) + [QuestMark] + ChainText(a) + [ColonMark] + PieceText(z)
  }

  function PieceTree(p: Piece): Expr
    requires PieceOk(p)
  {
    match p
    case Simple(c) => Group(c.xs, c.us)
    case Choice(c, a, z) => Cond(Group(c.xs, c.us), Group(a.xs, a.us), PieceTree(z))
  }

  /** Pieces with assignments and commas between them: any expression without parentheses in which no unary
      operator stands on another of its kind. */
  predicate WholeOk(ps: seq<Piece>, us: seq<Use>) {
    |ps| == |us| + 1 && Loose(us) && forall i | 0 <= i < |ps| :: PieceOk(ps[i])
  }

  function WholeText(ps: seq<Piece>, us: seq<Use>): seq<Lexeme>
    requires WholeOk(ps, us)
  {
    Join(seq(|ps|, i requires 0 <= i < |ps| => PieceText(ps[i])), us)
  }

  function WholeTree(ps: seq<Piece>, us: seq<Use>): Expr
    requires WholeOk(ps, us)
  {
    Group(seq(|ps|, i requires 0 <= i < |ps| => PieceTree(ps[i])), us)
  }

  // ---------- their trees print as they stand ----------

  /** At any level from `base` on the tree is written as `text`. */
  ghost predicate Prints(x: Expr, text: seq<Lexeme>, base: int) {
    WellFormed(x) && Bare(x, base) && Print(x, base) == text
  }

  lemma PrintsHigher(x: Expr, text: seq<Lexeme>, base: int, lvl: int)
    requires Prints(x, text, base) && base <= lvl
    ensures Prints(x, text, lvl)
  {
  }

  lemma PrintsAtRoot(x: Expr, text: seq<Lexeme>, base: int)
    requires Prints(x, text, base)
    ensures Prints(x, text, Prec(RootTok(x)))
  {
  }

  /** No operator binds less than the one done last, and those that bind alike are on the side it groups to. */
  lemma {:induction false} RootMeans(us: seq<Use>, j: nat)
    requires us != [] && j < |us|
    ensures var k := Root(us);
            && us[j].family <= us[k].family
            && (us[j].family == us[k].family ==> if GroupsRight(us[k].family) then k <= j else j <= k)
    decreases |us|
  {
    var n := |us| - 1;
    if n > 0 && j < n {
      RootMeans(us[..n], j);
    }
  }

  lemma {:induction false} JoinSplit(texts: seq<seq<Lexeme>>, us: seq<Use>, k: nat)
    requires |texts| == |us| + 1 && k < |us|
    ensures Join(texts, us) == Join(texts[..k + 1], us[..k]) + [us[k].sign.text] + Join(texts[k + 1..], us[k + 1..])
    decreases |us|
  {
    if k > 0 {
      JoinSplit(texts[1..], us[1..], k - 1);
      assert texts[1..][..k] == texts[..k + 1][1..] && us[1..][..k - 1] == us[..k][1..];
      assert texts[1..][k..] == texts[k + 1..] && us[1..][k..] == us[k + 1..];
      assert us[..k][0] == us[0] && texts[..k + 1][0] == texts[0];
    }
  }

  lemma PrintBinary(b: BinOp, l: Expr, r: Expr, left: seq<Lexeme>, right: seq<Lexeme>)
    requires Prints(l, left, LeftLevel(b)) && Prints(r, right, RightLevel(Binary(b)))
    ensures Prints(Bin(b, l, r), left + [BinSpelling(b)] + right, BinPrec(b))
  {
  }

  /** How loose a group is at most. */
  function Looseness(base: int, us: seq<Use>): int {
    if us == [] then base else Level(us[Root(us)].family)
  }

  lemma {:induction false} GroupPrints(xs: seq<Expr>, texts: seq<seq<Lexeme>>, us: seq<Use>, base: int)
    requires |xs| == |texts| == |us| + 1 && Listed(us)
    requires forall i | 0 <= i < |xs| :: Prints(xs[i], texts[i], base)
    requires forall i | 0 <= i < |us| :: base < Level(us[i].family)
    ensures Prints(Group(xs, us), Join(texts, us), Looseness(base, us))
    decreases |us|
  {
    hide Prints, In, Level;
    if us != [] {
      var k := Root(us);
      var b := us[k].sign.op;
      GroupPrints(xs[..k + 1], texts[..k + 1], us[..k], base);
      GroupPrints(xs[k + 1..], texts[k + 1..], us[k + 1..], base);
      JoinSplit(texts, us, k);
      LeftTighter(us, base);
      RightTighter(us, base);
      Levels(us[k].sign, us[k].family);
      PrintsHigher(Group(xs[..k + 1], us[..k]), Join(texts[..k + 1], us[..k]), Looseness(base, us[..k]), LeftLevel(b));
      PrintsHigher(Group(xs[k + 1..], us[k + 1..]), Join(texts[k + 1..], us[k + 1..]), Looseness(base, us[k + 1..]),
                   RightLevel(Binary(b)));
      PrintBinary(b, Group(xs[..k + 1], us[..k]), Group(xs[k + 1..], us[k + 1..]), Join(texts[..k + 1], us[..k]),
                  Join(texts[k + 1..], us[k + 1..]));
    }
  }

  /** What stands on either side of the operator done last may stand there bare. */
  lemma LeftTighter(us: seq<Use>, base: int)
    requires us != [] && forall i | 0 <= i < |us| :: base < Level(us[i].family)
    ensures var k := Root(us);
            Looseness(base, us[..k]) <= Level(us[k].family) - (if GroupsRight(us[k].family) then 1 else 0)
  {
    hide Root, GroupsRight, Level;
    var k := Root(us);
    if k > 0 {
      var j := Root(us[..k]);
      RootMeans(us, j);
      LevelRises(us[j].family, us[k].family);
    }
  }

  lemma RightTighter(us: seq<Use>, base: int)
    requires us != [] && forall i | 0 <= i < |us| :: base < Level(us[i].family)
    ensures var k := Root(us);
            Looseness(base, us[k + 1..]) <= Level(us[k].family) - (if GroupsRight(us[k].family) then 0 else 1)
  {
    hide Root, GroupsRight, Level;
    var k := Root(us);
    var rest := us[k + 1..];
    if rest == [] {
      assert Looseness(base, rest) == base < Level(us[k].family);
    } else {
      BehindRoot(us, k, Root(rest));
    }
  }

  lemma BehindRoot(us: seq<Use>, k: nat, j: nat)
    requires us != [] && k == Root(us) && k + 1 + j < |us|
    ensures us[k + 1..][j] == us[k + 1 + j]
    ensures Level(us[k + 1 + j].family) <= Level(us[k].family) - (if GroupsRight(us[k].family) then 0 else 1)
  {
    hide Root, GroupsRight, Level;
    RootMeans(us, k + 1 + j);
    LevelRises(us[k + 1 + j].family, us[k].family);
  }

  lemma Levels(p: Sign, i: nat)
    requires In(p, i)
    ensures LeftLevel(p.op) == Level(i) - (if GroupsRight(i) then 1 else 0)
    ensures RightLevel(Binary(p.op)) == Level(i) - (if GroupsRight(i) then 0 else 1)
    ensures BinSpelling(p.op) == p.text && BinPrec(p.op) == Level(i) && i < FAMILIES
  {
    hide In, BinPrec, AssocOf, BinSpelling;
    Ranked(p, i);
  }

  lemma LevelRises(i: nat, j: nat)
    ensures i <= j ==> Level(i) <= Level(j)
    ensures i < j ==> Level(i) < Level(j)
  {
  }

  lemma PrefixSpelled(u: UnOp)
    ensures u in PREFIXES ==> IsPrefix(u) && PREFIXES[u] == PrefixSpelling(u)
  {
  }

  lemma PostfixSpelled(u: UnOp)
    ensures u in POSTFIXES ==> IsPostfix(u) && POSTFIXES[u] == PostSpelling(u)
  {
  }

  lemma AtomPrints(e: Expr, lvl: int)
    requires Atom(e) && lvl >= 0
    ensures Prints(e, [Text(e)], lvl)
  {
  }

  lemma PostPrints(u: UnOp, x: Expr)
    requires u in POSTFIXES && Atom(x)
    ensures Prints(Post(u, x), [Text(x), POSTFIXES[u]], 2)
  {
    PostfixSpelled(u);
    AtomPrints(x, 1);
  }

  lemma PrePrints(u: UnOp, x: Expr, text: seq<Lexeme>)
    requires u in PREFIXES && !x.Pre? && Prints(x, text, 2) && (Atom(x) || x.Post?)
    ensures Prints(Pre(u, x), [PREFIXES[u]] + text, 2)
  {
    PrefixSpelled(u);
  }

  lemma SmallPrints(e: Expr)
    requires Small(e)
    ensures Prints(e, SmallText(e), 2)
  {
    hide Prints;
    match e
    case Pre(u, x) =>
      if x.Post? {
        PostPrints(x.u, x.e);
      } else {
        AtomPrints(x, 2);
      }
      PrePrints(u, x, SmallText(x));
    case Post(u, x) => PostPrints(u, x);
    case _ => AtomPrints(e, 2);
  }

  lemma ChainPrints(c: Chain)
    requires ChainOk(c)
    ensures Prints(Group(c.xs, c.us), ChainText(c), 15)
  {
    var texts := seq(|c.xs|, i requires 0 <= i < |c.xs| => SmallText(c.xs[i]));
    forall i | 0 <= i < |c.xs|
      ensures Prints(c.xs[i], texts[i], 2)
    {
      SmallPrints(c.xs[i]);
    }
    hide Prints, Small, In, Root, Group, Join;
    GroupPrints(c.xs, texts, c.us, 2);
    PrintsHigher(Group(c.xs, c.us), ChainText(c), Looseness(2, c.us), 15);
  }

  lemma {:induction false} PiecePrints(p: Piece)
    requires PieceOk(p)
    ensures Prints(PieceTree(p), PieceText(p), 16)
  {
    hide ChainText, Group, Tight, Small;
    match p
    case Simple(c) =>
      ChainPrints(c);
      PrintsHigher(Group(c.xs, c.us), ChainText(c), 15, 16);
    case Choice(c, a, z) =>
      ChainPrints(c);
      ChainPrints(a);
      PiecePrints(z);
  }

  lemma LooseLevels(us: seq<Use>)
    requires Loose(us)
    ensures forall i | 0 <= i < |us| :: 16 < Level(us[i].family) <= TOPPREC
  {
    forall i | 0 <= i < |us|
      ensures 16 < Level(us[i].family) <= TOPPREC
    {
      Ranked(us[i].sign, us[i].family);
    }
  }

  lemma WholePrints(ps: seq<Piece>, us: seq<Use>)
    requires WholeOk(ps, us)
    ensures Prints(WholeTree(ps, us), WholeText(ps, us), TOPPREC)
  {
    var xs := seq(|ps|, i requires 0 <= i < |ps| => PieceTree(ps[i]));
    var texts := seq(|ps|, i requires 0 <= i < |ps| => PieceText(ps[i]));
    forall i | 0 <= i < |ps|
      ensures Prints(xs[i], texts[i], 16)
    {
      PiecePrints(ps[i]);
    }
    hide Prints, PieceOk, In, Root, Group, Join, PieceTree, PieceText;
    LooseLevels(us);
    GroupPrints(xs, texts, us, 16);
    PrintsHigher(Group(xs, us), Join(texts, us), Looseness(16, us), TOPPREC);
  }

  // ---------- the results ----------

  /** Any expression without parentheses is evaluated as the tree that the list of families gives it. */
  lemma GroupedByFamilies(h: Host, ps: seq<Piece>, us: seq<Use>, hist: History)
    requires Lawful(h) && WholeOk(ps, us) && Fits(h, WholeTree(ps, us), hist)
    ensures Matheval(h, WholeText(ps, us), hist) == EvalText(h, WholeTree(ps, us), hist)
  {
    WholePrints(ps, us);
    hide Matheval, MathevalEnd, Fits, EvalText, Lawful;
    MathevalCorrect(h, WholeTree(ps, us), hist);
  }

  /** Whether the first of two operators is done before the second. */
  predicate FirstFirst(i: nat, j: nat) {
    i < j || (i == j && !GroupsRight(i))
  }

  lemma TwoGrouped(x: Expr, p: Use, y: Expr, q: Use, z: Expr)
    ensures Group([x, y, z], [p, q])
            == if FirstFirst(p.family, q.family) then Bin(q.sign.op, Bin(p.sign.op, x, y), z)
               else Bin(p.sign.op, x, Bin(q.sign.op, y, z))
  {
    var xs, us := [x, y, z], [p, q];
    assert us[..1] == [p] && us[1..] == [q] && us[..0] == [] && us[2..] == [] && Root([p]) == 0;
    assert xs[..2] == [x, y] && xs[2..] == [z] && xs[..1] == [x] && xs[1..] == [y, z];
    OneGrouped(x, p, y);
    OneGrouped(y, q, z);
    assert Group([x], []) == x && Group([z], []) == z;
  }

  lemma OneGrouped(x: Expr, p: Use, y: Expr)
    ensures Group([x, y], [p]) == Bin(p.sign.op, x, y)
  {
    assert [x, y][..1] == [x] && [x, y][1..] == [y] && [p][..0] == [] && [p][1..] == [];
    assert Group([x], []) == x && Group([y], []) == y;
  }

  lemma TwoJoined(x: Lexeme, p: Use, y: Lexeme, q: Use, z: Lexeme)
    ensures Join([[x], [y], [z]], [p, q]) == [x, p.sign.text, y, q.sign.text, z]
  {
    assert [[x], [y], [z]][1..] == [[y], [z]] && [p, q][1..] == [q] && [[y], [z]][1..] == [[z]] && [q][1..] == [];
    assert Join([[z]], []) == [z];
    assert Join([[y], [z]], [q]) == [y] + [q.sign.text] + [z];
  }

  lemma OneJoined(x: Lexeme, p: Use, y: Lexeme)
    ensures Join([[x], [y]], [p]) == [x, p.sign.text, y]
  {
    assert [[x], [y]][1..] == [[y]] && [p][1..] == [] && Join([[y]], []) == [y];
  }

  lemma GroupWritten(xs: seq<Expr>, texts: seq<seq<Lexeme>>, us: seq<Use>)
    requires |xs| == |texts| == |us| + 1 && Listed(us)
    requires forall i | 0 <= i < |xs| :: Atom(xs[i]) && texts[i] == [Text(xs[i])]
    ensures Prints(Group(xs, us), Join(texts, us), TOPPREC)
  {
    forall i | 0 <= i < |xs|
      ensures Prints(xs[i], texts[i], 2)
    {
      AtomPrints(xs[i], 2);
    }
    forall i | 0 <= i < |us|
      ensures 2 < Level(us[i].family) <= TOPPREC
    {
      Ranked(us[i].sign, us[i].family);
    }
    hide Prints, In, Root, Group, Join;
    GroupPrints(xs, texts, us, 2);
    PrintsHigher(Group(xs, us), Join(texts, us), Looseness(2, us), TOPPREC);
  }

  lemma PrintedEvaluates(h: Host, e: Expr, text: seq<Lexeme>, hist: History)
    requires Lawful(h) && Prints(e, text, TOPPREC) && Slots(e) < TOKENCOUNT
    ensures Matheval(h, text, hist) == EvalText(h, e, hist)
  {
    FitsBySize(h, e, hist);
    hide Matheval, MathevalEnd, Fits, EvalText, Lawful;
    MathevalCorrect(h, e, hist);
  }

  /** Two operators between three operands: the one of the tighter family is done first; within a family the
      first one, but for powers and assignments the second one. */
  lemma TwoOperators(h: Host, x: Expr, p: Sign, i: nat, y: Expr, q: Sign, j: nat, z: Expr, hist: History)
    requires Lawful(h) && Atom(x) && Atom(y) && Atom(z) && In(p, i) && In(q, j)
    ensures Matheval(h, [Text(x), p.text, Text(y), q.text, Text(z)], hist)
            == EvalText(h, if i < j || (i == j && p.op != Float(Power) && !p.op.Assign?)
                           then Bin(q.op, Bin(p.op, x, y), z) else Bin(p.op, x, Bin(q.op, y, z)), hist)
  {
    var us := [Use(p, i), Use(q, j)];
    GroupsRightMeans(p, i);
    TwoGrouped(x, us[0], y, us[1], z);
    TwoJoined(Text(x), us[0], Text(y), us[1], Text(z));
    TwoSmall(x, p.op, y, q.op, z);
    GroupWritten([x, y, z], [[Text(x)], [Text(y)], [Text(z)]], us);
    hide Matheval, EvalText, Lawful, Prints, In, Group, Join, Slots;
    PrintedEvaluates(h, Group([x, y, z], us), Join([[Text(x)], [Text(y)], [Text(z)]], us), hist);
  }

  lemma TwoSmall(x: Expr, p: BinOp, y: Expr, q: BinOp, z: Expr)
    requires Atom(x) && Atom(y) && Atom(z)
    ensures Slots(Bin(q, Bin(p, x, y), z)) <= 7 && Slots(Bin(p, x, Bin(q, y, z))) <= 7
  {
    assert Slots(Bin(p, x, y)) <= 4 && Slots(Bin(q, y, z)) <= 4;
  }

  lemma GroupsRightMeans(p: Sign, i: nat)
    requires In(p, i)
    ensures GroupsRight(i) <==> p.op == Float(Power) || p.op.Assign?
  {
    Ranked(p, i);
  }

  /** A single operator. */
  lemma OneOperator(h: Host, x: Expr, p: Sign, i: nat, y: Expr, hist: History)
    requires Lawful(h) && Atom(x) && Atom(y) && In(p, i)
    ensures Matheval(h, [Text(x), p.text, Text(y)], hist) == EvalText(h, Bin(p.op, x, y), hist)
  {
    var us := [Use(p, i)];
    OneGrouped(x, us[0], y);
    OneJoined(Text(x), us[0], Text(y));
    GroupWritten([x, y], [[Text(x)], [Text(y)]], us);
    hide Matheval, EvalText, Lawful, Prints, In, Group, Join;
    PrintedEvaluates(h, Group([x, y], us), Join([[Text(x)], [Text(y)]], us), hist);
  }

  /** Parentheses let the looser operator go first. */
  lemma Parenthesised(h: Host, x: Expr, p: Sign, i: nat, y: Expr, q: Sign, j: nat, z: Expr, hist: History)
    requires Lawful(h) && Atom(x) && Atom(y) && Atom(z) && In(p, i) && In(q, j) && i < j
    ensures Matheval(h, [LeftParen, Text(x), q.text, Text(y), RightParen, p.text, Text(z)], hist)
            == EvalText(h, Bin(p.op, Bin(q.op, x, y), z), hist)
    ensures Matheval(h, [Text(x), p.text, LeftParen, Text(y), q.text, Text(z), RightParen], hist)
            == EvalText(h, Bin(p.op, x, Bin(q.op, y, z)), hist)
  {
    ParenthesesPrinted(x, p, i, y, q, j, z);
    TwoSmall(x, q.op, y, p.op, z);
    TwoSmall(x, p.op, y, q.op, z);
    hide Matheval, EvalText, Lawful, Prints, In, Slots;
    PrintedEvaluates(h, Bin(p.op, Bin(q.op, x, y), z),
                     [LeftParen, Text(x), q.text, Text(y), RightParen, p.text, Text(z)], hist);
    PrintedEvaluates(h, Bin(p.op, x, Bin(q.op, y, z)),
                     [Text(x), p.text, LeftParen, Text(y), q.text, Text(z), RightParen], hist);
  }

  lemma ParenthesesPrinted(x: Expr, p: Sign, i: nat, y: Expr, q: Sign, j: nat, z: Expr)
    requires Atom(x) && Atom(y) && Atom(z) && In(p, i) && In(q, j) && i < j
    ensures Prints(Bin(p.op, Bin(q.op, x, y), z),
                   [LeftParen, Text(x), q.text, Text(y), RightParen, p.text, Text(z)], TOPPREC)
    ensures Prints(Bin(p.op, x, Bin(q.op, y, z)),
                   [Text(x), p.text, LeftParen, Text(y), q.text, Text(z), RightParen], TOPPREC)
  {
    Levels(p, i);
    Levels(q, j);
    hide In, BinSpelling, BinPrec, AssocOf;
    OnePrinted(x, q, y, j);
    OnePrinted(y, q, z, j);
    LevelRises(i, j);
    AtomPrints(z, RightLevel(Binary(p.op)));
    AtomPrints(x, LeftLevel(p.op));
    var l, r := Bin(q.op, x, y), Bin(q.op, y, z);
    assert Print(l, LeftLevel(p.op)) == [LeftParen] + [Text(x), q.text, Text(y)] + [RightParen];
    assert Print(r, RightLevel(Binary(p.op))) == [LeftParen] + [Text(y), q.text, Text(z)] + [RightParen];
    assert Print(Bin(p.op, l, z), TOPPREC) == Print(l, LeftLevel(p.op)) + [p.text] + [Text(z)];
    assert Print(Bin(p.op, x, r), TOPPREC) == [Text(x)] + [p.text] + Print(r, RightLevel(Binary(p.op)));
  }

  lemma OnePrinted(x: Expr, p: Sign, y: Expr, i: nat)
    requires Atom(x) && Atom(y) && In(p, i)
    ensures Prints(Bin(p.op, x, y), [Text(x), p.text, Text(y)], TOPPREC)
  {
    var us := [Use(p, i)];
    OneGrouped(x, us[0], y);
    OneJoined(Text(x), us[0], Text(y));
    GroupWritten([x, y], [[Text(x)], [Text(y)]], us);
  }
}
