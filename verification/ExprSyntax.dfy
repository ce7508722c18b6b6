/** Operators, lexemes and expression trees of the expression language (source/expr2.c).

  The token enumeration of the source is factored by shape: all operators that share one
  macro of the reducer share one constructor here.
 */
module ExprSyntax {

  datatype IntOp = BitAnd | BitXor | BitOr | ShiftLeft | ShiftRight | Mod
  datatype FloatOp = Add | Sub | Mul | Div | Power
  datatype BoolOp = DAnd | DXor | DOr
  datatype CompareOp = Les | Leq | Gre | Geq | Match | NoMatch | Deq | Neq

  datatype AssignOp =
    | Set                  // =
    | IntSet(i: IntOp)     // &= ^= |= <<= >>= %=
    | FloatSet(f: FloatOp) // += -= *= /= **=
    | BoolSet(b: BoolOp)   // &&= ^^= ||=
    | CatSet               // ##= and #=
    | PreSet               // #~
    | Swap                 // <=>

  datatype BinOp =
    | Int(i: IntOp)
    | Float(f: FloatOp)
    | Bool(b: BoolOp)
    | StrCat
    | Compare(c: CompareOp)
    | Assign(a: AssignOp)
    | Comma

  datatype UnOp =
    | Not | Comp | UPlus | UMinus | StrLen | WordC | Deref | PrePlus | PreMinus
    | PostPlus | PostMinus

  /** What the lexer returns. */
  datatype Tok = InPar | OutPar | Id | Quest | Colon | Unary(u: UnOp) | Binary(b: BinOp) | Eoi

  predicate IsPostfix(u: UnOp) {
    u == PostPlus || u == PostMinus
  }

  predicate IsPrefix(u: UnOp) {
    !IsPostfix(u)
  }

  /** The precedence table: a lower value binds tighter. */
  function Prec(t: Tok): int {
    match t
    case Id => 0
    case InPar => 1
    case Unary(_) => 2
    case Binary(b) => BinPrec(b)
    case Quest => 16
    case Colon => 16
    case OutPar => 137
    case Eoi => 200
  }

  function BinPrec(b: BinOp): int {
    match b
    case Float(Power) => 3
    case Float(Mul) => 4
    case Float(Div) => 4
    case Int(Mod) => 4
    case Float(Add) => 5
    case Float(Sub) => 5
    case StrCat => 5
    case Int(ShiftLeft) => 6
    case Int(ShiftRight) => 6
    case Compare(c) => if c.Les? || c.Leq? || c.Gre? || c.Geq? then 7 else if c.Match? || c.NoMatch? then 8 else 9
    case Int(BitAnd) => 10
    case Int(BitXor) => 11
    case Int(BitOr) => 12
    case Bool(DAnd) => 13
    case Bool(DXor) => 14
    case Bool(DOr) => 15
    case Assign(_) => 17
    case Comma => 18
  }

  const TOPPREC := 21

  /** The associativity table. `Short` is the source's BOOL: left to right, checked for short-circuiting. */
  datatype Assoc = LR | RL | Short

  function AssocOf(t: Tok): Assoc {
    match t
    case Unary(_) => RL
    case Quest => RL
    case Colon => RL
    case Binary(Float(Power)) => RL
    case Binary(Assign(_)) => RL
    case Binary(Bool(_)) => Short
    case _ => LR
  }

  /** The level the parser uses for what follows operator `t`. */
  function RightLevel(t: Tok): int {
    Prec(t) - (if AssocOf(t) != RL then 1 else 0)
  }

  /** What a maximal munch of the input text can be. The signs `+ - * # ++ --` have a meaning that
      depends on the lexer's `operand` flag; `Infix` stands for every operator text that does not. */
  datatype Lexeme =
    | LeftParen | RightParen
    | PlusSign | MinusSign | PlusPlus | MinusMinus | Star | Hash
    | At | Bang | Tilde
    | QuestMark | ColonMark | CommaMark
    | Infix(b: BinOp)
    | Number(text: string)
    | Name(text: string)
    | Quoted(text: string)  // [text]
    | Braced(text: string)  // {text}
    | Junk                  // a character that starts nothing

  /** Expression trees. */
  datatype Expr =
    | Num(text: string)
    | Var(text: string)
    | Str(text: string)
    | Block(text: string)
    | Pre(u: UnOp, e: Expr)
    | Post(u: UnOp, e: Expr)
    | Bin(b: BinOp, l: Expr, r: Expr)
    | Cond(c: Expr, a: Expr, z: Expr)

  predicate WellFormed(e: Expr) {
    match e
    case Pre(u, x) => IsPrefix(u) && WellFormed(x)
    case Post(u, x) => IsPostfix(u) && WellFormed(x)
    case Bin(_, l, r) => WellFormed(l) && WellFormed(r)
    case Cond(c, a, z) => WellFormed(c) && WellFormed(a) && WellFormed(z)
    case _ => true
  }

  /** The operator at the root, as the lexer reports it. */
  function RootTok(e: Expr): Tok {
    match e
    case Pre(u, _) => Unary(u)
    case Post(u, _) => Unary(u)
    case Bin(b, _, _) => Binary(b)
    case Cond(_, _, _) => Quest
    case _ => Id
  }

  function PrefixSpelling(u: UnOp): Lexeme
    requires IsPrefix(u)
  {
    match u
    case Not => Bang
    case Comp => Tilde
    case UPlus => PlusSign
    case UMinus => MinusSign
    case StrLen => At
    case WordC => Hash
    case Deref => Star
    case PrePlus => PlusPlus
    case PreMinus => MinusMinus
  }

  function BinSpelling(b: BinOp): Lexeme {
    match b
    case Float(Add) => PlusSign
    case Float(Sub) => MinusSign
    case Float(Mul) => Star
    case StrCat => Hash
    case Comma => CommaMark
    case _ => Infix(b)
  }

  function PostSpelling(u: UnOp): Lexeme
    requires IsPostfix(u)
  {
    if u == PostPlus then PlusPlus else MinusMinus
  }

  /** After `@`, `#` and `*` the lexer may still supply the implied argument. */
  predicate AwaitsImplied(u: UnOp) {
    u == StrLen || u == WordC || u == Deref
  }

  /** The lexemes that make it do so. */
  predicate TakesImplied(x: Lexeme) {
    x == PlusSign || x == MinusSign || x == PlusPlus || x == MinusMinus || x == Hash || x == RightParen || x.Infix?
  }

  predicate StartsImplied(e: Expr)
    requires WellFormed(e)
  {
    e.Pre? && TakesImplied(PrefixSpelling(e.u))
  }

  /** True when `e` can stand without parentheses where the parser accepts level `lvl`. */
  predicate Bare(e: Expr, lvl: int) {
    Prec(RootTok(e)) <= lvl
  }

  function PrefixLevel(u: UnOp, e: Expr): int
    requires WellFormed(e)
  {
    if AwaitsImplied(u) && StartsImplied(e) then 0 else 2
  }

  /** The minimally parenthesised lexeme string of `e` in a place of level `lvl`. */
  function Print(e: Expr, lvl: int): (s: seq<Lexeme>)
    requires WellFormed(e)
    ensures |s| > 0
    decreases e, if Bare(e, lvl) then 0 else 1
  {
    if !Bare(e, lvl) then [LeftParen] + Print(e, TOPPREC) + [RightParen] else
    match e
    case Num(t) => [Number(t)]
    case Var(t) => [Name(t)]
    case Str(t) => [Quoted(t)]
    case Block(t) => [Braced(t)]
    case Pre(u, x) => [PrefixSpelling(u)] + Print(x, PrefixLevel(u, x))
    case Post(u, x) => Print(x, 1) + [PostSpelling(u)]
    case Bin(b, l, r) =>
      Print(l, LeftLevel(b)) + [BinSpelling(b)] + Print(r, RightLevel(Binary(b)))
    case Cond(c, a, z) => Print(c, 15) + [QuestMark] + Print(a, 15) + [ColonMark] + Print(z, 16)
  }

  /** An operator accepts operators of its own level on the side it associates to. */
  function LeftLevel(b: BinOp): int {
    if AssocOf(Binary(b)) == RL then BinPrec(b) - 1 else BinPrec(b)
  }

  /** Whether `u` is an increment or a decrement. */
  predicate Bumps(u: UnOp) {
    u in {PrePlus, PreMinus, PostPlus, PostMinus}
  }

  /** How many table entries one operator takes at most. */
  function OpSlots(t: Tok): nat {
    match t
    case Unary(u) => if Bumps(u) then 2 else 1
    case Binary(Bool(o)) => if o == DXor then 1 else 2
    case Binary(Comma) => 0
    case Binary(Assign(a)) => if a.Set? || a.Swap? then 0 else 1
    case _ => 1
  }

  /** How many table entries `e` takes at most, whatever is skipped. */
  function Slots(e: Expr): (n: nat)
    ensures n >= 1
  {
    match e
    case Pre(u, x) => Slots(x) + OpSlots(Unary(u))
    case Post(u, x) => Slots(x) + OpSlots(Unary(u))
    case Bin(b, l, r) => Slots(l) + Slots(r) + OpSlots(Binary(b))
    case Cond(c, a, z) => Slots(c) + Slots(a) + Slots(z) + OpSlots(Quest)
    case _ => 1
  }

  function Max(a: nat, b: nat): nat {
    if a > b then a else b
  }

  /** How high the operand stack grows over `e`. */
  function Depth(e: Expr): (n: nat)
    ensures n >= 1
  {
    match e
    case Pre(_, x) => Depth(x)
    case Post(_, x) => Depth(x)
    case Bin(_, l, r) => Max(Depth(l), 1 + Depth(r))
    case Cond(c, a, z) => Max(Depth(c), Max(1 + Depth(a), 2 + Depth(z)))
    case _ => 1
  }

  lemma {:induction false} DepthBySize(e: Expr)
    ensures Depth(e) <= Slots(e)
  {
    match e
    case Pre(_, x) => DepthBySize(x);
    case Post(_, x) => DepthBySize(x);
    case Bin(_, l, r) =>
      DepthBySize(l);
      DepthBySize(r);
    case Cond(c, a, z) =>
      DepthBySize(c);
      DepthBySize(a);
      DepthBySize(z);
    case _ =>
  }
}
