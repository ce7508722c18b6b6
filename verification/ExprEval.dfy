/** What an expression tree means, without parser, operand stack or token table.

  Reads are deferred: a variable evaluates to a reference, and the operator that consumes it looks
  up its name and value. A branch that short-circuiting skips has a meaning too: the dummy operand
  it leaves and the stores it makes all the same.
 */
module ExprEval {
  import opened Options
  import opened ExprSyntax
  import opened ExprMachine

  datatype Val =
    | VRef(text: string, name: Option<string>, value: Option<string>) // a variable, as far as it was looked up
    | VRaw(text: string, value: Option<string>)                       // a [...] string, perhaps expanded
    | VStr(s: string)
    | VInt(i: int)
    | VFloat(d: Double)
    | VBool(b: bool)

  /** The variable name a reference stands for; other values have none. */
  function AsName(h: Host, v: Val, hist: History): (Option<string>, Val, History) {
    match v
    case VRef(t, None, x) =>
      var (n, hist1) := ExpandAlias(h, t, hist);
      (Some(n), VRef(t, Some(n), x), hist1)
    case VRef(t, n, x) => (n, v, hist)
    case _ => (None, v, hist)
  }

  function AsText(h: Host, v: Val, hist: History): (string, Val, History) {
    match v
    case VRef(t, n, Some(x)) => (x, v, hist)
    case VRef(t, _, None) =>
      var (n, v1, hist1) := AsName(h, v, hist);
      var (x, hist2) := ReadVar(h, n.value, hist1);
      (x, VRef(t, n, Some(x)), hist2)
    case VRaw(t, Some(x)) => (x, v, hist)
    case VRaw(t, None) =>
      var (x, hist1) := ExpandAlias(h, t, hist);
      (x, VRaw(t, Some(x)), hist1)
    case VStr(s) => (s, v, hist)
    case VInt(i) => (h.showInt(i), v, hist)
    case VFloat(d) => (h.showDouble(d), v, hist)
    case VBool(b) => (ShowBool(b), v, hist)
  }

  function AsInt(h: Host, v: Val, hist: History): (int, Val, History) {
    if v.VInt? then (v.i, v, hist) else
    var (t, v1, hist1) := AsText(h, v, hist);
    (h.atol(t), v1, hist1)
  }

  function AsFloat(h: Host, v: Val, hist: History): (Double, Val, History) {
    if v.VFloat? then (v.d, v, hist) else
    var (t, v1, hist1) := AsText(h, v, hist);
    (h.atof(t), v1, hist1)
  }

  function AsBool(h: Host, v: Val, hist: History): (bool, Val, History) {
    if v.VBool? then (v.b, v, hist) else
    var (t, v1, hist1) := AsText(h, v, hist);
    (h.checkVal(t), v1, hist1)
  }

  /** Increment and decrement: `v` gets its value plus `delta`, the result is its value plus `result`. */
  function Bump(h: Host, v: Val, delta: int, result: int, hist: History): (Val, History) {
    var (name, v1, hist1) := AsName(h, v, hist);
    if name.None? then (VStr(""), hist1) else
    var (j, _, hist2) := AsInt(h, v1, hist1);
    (VInt(j + result), hist2 + [Store(name.value, h.showInt(j + delta))])
  }

  function ApplyUnary(h: Host, u: UnOp, v: Val, hist: History): (Val, History) {
    match u
    case PrePlus => Bump(h, v, 1, 1, hist)
    case PreMinus => Bump(h, v, -1, -1, hist)
    case PostPlus => Bump(h, v, 1, 0, hist)
    case PostMinus => Bump(h, v, -1, 0, hist)
    case Not => var (b, _, hist1) := AsBool(h, v, hist); (VBool(!b), hist1)
    case Comp => var (i, _, hist1) := AsInt(h, v, hist); (VInt(h.complement(i)), hist1)
    case UPlus => var (d, _, hist1) := AsFloat(h, v, hist); (VFloat(d), hist1)
    case UMinus => var (d, _, hist1) := AsFloat(h, v, hist); (VFloat(h.negate(d)), hist1)
    case StrLen => var (s, _, hist1) := AsText(h, v, hist); (VInt(|s|), hist1)
    case WordC => var (s, _, hist1) := AsText(h, v, hist); (VInt(h.wordCount(s)), hist1)
    case Deref => var (s, _, hist1) := AsText(h, v, hist); (VRef(s, None, None), hist1)
  }

  /** An assignment to the variable called `name` that `v` refers to. */
  function ApplyAssign(h: Host, a: AssignOp, name: string, v: Val, w: Val, hist: History): (Val, History) {
    match a
    case Set =>
      var (t, w1, hist1) := AsText(h, w, hist);
      (w1, hist1 + [Store(name, t)])
    case IntSet(i) =>
      if i == Mod then
        var (x, _, hist1) := AsFloat(h, v, hist);
        var (y, _, hist2) := AsFloat(h, w, hist1);
        if h.trunc(y) == 0 then (VStr(""), hist2 + [Store(name, "")])
        else
          var d := h.fromInt(h.intOp(Mod, h.trunc(x), h.trunc(y)));
          (VFloat(d), hist2 + [Store(name, h.showDouble(d))])
      else
        var (x, _, hist1) := AsInt(h, v, hist);
        var (y, _, hist2) := AsInt(h, w, hist1);
        var r := h.intOp(i, x, y);
        (VInt(r), hist2 + [Store(name, h.showInt(r))])
    case FloatSet(f) =>
      var (x, _, hist1) := AsFloat(h, v, hist);
      var (y, _, hist2) := AsFloat(h, w, hist1);
      if f == Div && h.isZero(y) then (VStr(""), hist2 + [Store(name, "")])
      else
        var d := h.floatOp(f, x, y);
        (VFloat(d), hist2 + [Store(name, h.showDouble(d))])
    case BoolSet(o) =>
      var (x, _, hist1) := AsBool(h, v, hist);
      var (y, _, hist2) := AsBool(h, w, hist1);
      var r := BoolResult(o, x, y);
      (VBool(r), hist2 + [Store(name, ShowBool(r))])
    case CatSet =>
      var (s, _, hist1) := AsText(h, v, hist);
      var (t, _, hist2) := AsText(h, w, hist1);
      (VStr(s + t), hist2 + [Store(name, s + t)])
    case PreSet =>
      var (t, _, hist1) := AsText(h, w, hist);
      var (s, _, hist2) := AsText(h, v, hist1);
      (VStr(t + s), hist2 + [Store(name, t + s)])
    case Swap =>
      var (name2, w1, hist1) := AsName(h, w, hist);
      if name2.None? then (VStr(""), hist1) else
      var (s, _, hist2) := AsText(h, v, hist1);
      var (t, w2, hist3) := AsText(h, w1, hist2);
      (w2, hist3 + [Store(name, t)] + [Store(name2.value, s)])
  }

  /** Operators that evaluate both operands force the right one first, except assignments. */
  function ApplyBinary(h: Host, b: BinOp, v: Val, w: Val, hist: History): (Val, History) {
    match b
    case Int(i) =>
      var (y, _, hist1) := AsInt(h, w, hist);
      var (x, _, hist2) := AsInt(h, v, hist1);
      (if i == Mod && y == 0 then VStr("") else VInt(h.intOp(i, x, y)), hist2)
    case Float(f) =>
      var (y, _, hist1) := AsFloat(h, w, hist);
      var (x, _, hist2) := AsFloat(h, v, hist1);
      (if f == Div && h.isZero(y) then VStr("") else VFloat(h.floatOp(f, x, y)), hist2)
    case Bool(o) =>
      var (y, _, hist1) := AsBool(h, w, hist);
      var (x, _, hist2) := AsBool(h, v, hist1);
      (VBool(BoolResult(o, x, y)), hist2)
    case StrCat =>
      var (t, _, hist1) := AsText(h, w, hist);
      var (s, _, hist2) := AsText(h, v, hist1);
      (VStr(s + t), hist2)
    case Compare(c) =>
      var (t, _, hist1) := AsText(h, w, hist);
      var (s, _, hist2) := AsText(h, v, hist1);
      (VBool(h.compareOp(c, s, t)), hist2)
    case Assign(a) =>
      var (name, v1, hist1) := AsName(h, v, hist);
      if name.None? then (VStr(""), hist1) else ApplyAssign(h, a, name.value, v1, w, hist1)
    case Comma => (w, hist)
  }

  /** The operators whose right operand may be skipped. */
  predicate Shorts(b: BinOp) {
    b == Bool(DAnd) || b == Bool(DOr)
  }

  // ---------- skipped branches ----------

  /** The operand a skipped branch leaves: an empty token, a number or a boolean one, or the nameless
      variable reference that `*` makes even while nothing is evaluated. */
  datatype Dummy = Inert | Whole(i: int) | Real(r: Double) | Flag(b: bool) | Nameless

  function DummyInt(h: Host, d: Dummy): int {
    if d.Whole? then d.i else h.atol("")
  }

  function DummyFloat(h: Host, d: Dummy): Double {
    if d.Real? then d.r else h.atof("")
  }

  function DummyBool(h: Host, d: Dummy): bool {
    if d.Flag? then d.b else h.checkVal("")
  }

  /** What an increment or decrement that stores has for its own value, relative to the old one. */
  function BumpResult(u: UnOp): int {
    if u == PrePlus then 1 else if u == PreMinus then -1 else 0
  }

  function SkipUnary(h: Host, u: UnOp, d: Dummy): Dummy {
    match u
    case Not => Flag(!DummyBool(h, d))
    case Comp => Whole(h.complement(DummyInt(h, d)))
    case UPlus => Real(DummyFloat(h, d))
    case UMinus => Real(h.negate(DummyFloat(h, d)))
    case StrLen => Whole(0)
    case WordC => Whole(h.wordCount(""))
    case Deref => Nameless
    case _ => if d.Nameless? then Whole(DummyInt(h, d) + BumpResult(u)) else Inert
  }

  function SkipUnaryStores(u: UnOp, d: Dummy): nat {
    if Bumps(u) && d.Nameless? then 1 else 0
  }

  /** An assignment to the nameless variable. */
  function SkipAssign(h: Host, a: AssignOp, d: Dummy, f: Dummy): Dummy {
    match a
    case Set => f
    case IntSet(i) =>
      if i == Mod then
        var x, y := h.trunc(DummyFloat(h, d)), h.trunc(DummyFloat(h, f));
        if y == 0 then Inert else Real(h.fromInt(h.intOp(Mod, x, y)))
      else Whole(h.intOp(i, DummyInt(h, d), DummyInt(h, f)))
    case FloatSet(o) =>
      if o == Div && h.isZero(DummyFloat(h, f)) then Inert else Real(h.floatOp(o, DummyFloat(h, d), DummyFloat(h, f)))
    case BoolSet(o) => Flag(BoolResult(o, DummyBool(h, d), DummyBool(h, f)))
    case Swap => if f.Nameless? then f else Inert
    case _ => Inert
  }

  function SkipBinary(h: Host, b: BinOp, d: Dummy, f: Dummy): Dummy {
    match b
    case Int(i) =>
      if i == Mod && DummyInt(h, f) == 0 then Inert else Whole(h.intOp(i, DummyInt(h, d), DummyInt(h, f)))
    case Float(o) =>
      if o == Div && h.isZero(DummyFloat(h, f)) then Inert else Real(h.floatOp(o, DummyFloat(h, d), DummyFloat(h, f)))
    case Bool(o) => Flag(BoolResult(o, DummyBool(h, d), DummyBool(h, f)))
    case Compare(c) => Flag(h.compareOp(c, "", ""))
    case StrCat => Inert
    case Comma => f
    case Assign(a) => if d.Nameless? then SkipAssign(h, a, d, f) else Inert
  }

  function SkipBinaryStores(b: BinOp, d: Dummy, f: Dummy): nat {
    if b.Assign? && d.Nameless? then (if b.a.Swap? then (if f.Nameless? then 2 else 0) else 1) else 0
  }

  function Skip(h: Host, e: Expr): Dummy {
    match e
    case Pre(u, x) => SkipUnary(h, u, Skip(h, x))
    case Post(u, x) => SkipUnary(h, u, Skip(h, x))
    case Bin(b, l, r) => SkipBinary(h, b, Skip(h, l), Skip(h, r))
    case Cond(c, a, z) => if DummyBool(h, Skip(h, c)) then Skip(h, a) else Skip(h, z)
    case _ => Inert
  }

  /** How often a skipped tree still stores: always the empty string, into the variable without a name. */
  function SkipStores(h: Host, e: Expr): nat {
    match e
    case Pre(u, x) => SkipStores(h, x) + SkipUnaryStores(u, Skip(h, x))
    case Post(u, x) => SkipStores(h, x) + SkipUnaryStores(u, Skip(h, x))
    case Bin(b, l, r) => SkipStores(h, l) + SkipStores(h, r) + SkipBinaryStores(b, Skip(h, l), Skip(h, r))
    case Cond(c, a, z) => SkipStores(h, c) + SkipStores(h, a) + SkipStores(h, z)
    case _ => 0
  }

  function EmptyStores(n: nat): (s: History)
    ensures |s| == n
  {
    seq(n, _ => Store("", ""))
  }

  // ---------- trees ----------

  /** Everything skipping `e` asks of the client. */
  function SkipRequests(h: Host, e: Expr): History {
    EmptyStores(SkipStores(h, e))
  }

  /** A short-circuiting operator still forces the dummy its right operand left. */
  function SkipOperandRequests(h: Host, e: Expr): History {
    SkipRequests(h, e) + (if Skip(h, e) == Nameless then [Read("")] else [])
  }

  /** The value of a tree, and everything it asks of the client on the way. */
  function Eval(h: Host, e: Expr, hist: History): (Val, History) {
    match e
    case Num(t) => (VStr(t), hist)
    case Var(t) => (VRef(t, None, None), hist)
    case Str(t) => (VRaw(t, None), hist)
    case Block(t) => (VStr(h.run(t, hist)), hist + [Run(t)])
    case Pre(u, x) => var (v, hist1) := Eval(h, x, hist); ApplyUnary(h, u, v, hist1)
    case Post(u, x) => var (v, hist1) := Eval(h, x, hist); ApplyUnary(h, u, v, hist1)
    case Bin(b, l, r) =>
      var (v, hist1) := Eval(h, l, hist);
      if Shorts(b) then
        var (x, _, hist2) := AsBool(h, v, hist1);
        if x == (b == Bool(DOr)) then (VBool(x), hist2 + SkipOperandRequests(h, r)) else
        var (w, hist3) := Eval(h, r, hist2);
        var (y, _, hist4) := AsBool(h, w, hist3);
        (VBool(y), hist4)
      else
        var (w, hist2) := Eval(h, r, hist1);
        ApplyBinary(h, b, v, w, hist2)
    case Cond(c, a, z) =>
      var (v, hist1) := Eval(h, c, hist);
      var (x, _, hist2) := AsBool(h, v, hist1);
      if x then
        var (w, hist3) := Eval(h, a, hist2);
        (w, hist3 + SkipRequests(h, z))
      else
        Eval(h, z, hist2 + SkipRequests(h, a))
  }

  // ---------- table entries ----------

  /** Increment and decrement make an entry to store and one for the result, if there is a variable; every
      other unary operator makes one for its result. */
  function UnaryEntries(u: UnOp, v: Val): nat {
    if !Bumps(u) then 1 else if v.VRef? then 2 else 0
  }

  /** An assignment makes an entry for a value it computes, and none where it leaves one of its operands, or
      the empty string for a division by zero. */
  function AssignEntries(a: AssignOp, result: Val): nat {
    if a.Set? || a.Swap? then 0
    else if a.CatSet? || a.PreSet? then 1
    else if result.VStr? then 0 else 1
  }

  function BinaryEntries(b: BinOp, v: Val, result: Val): nat {
    match b
    case Comma => 0
    case StrCat => 1
    case Assign(a) => if v.VRef? then AssignEntries(a, result) else 0
    case _ => if result.VStr? then 0 else 1
  }

  function SkipUnaryEntries(u: UnOp, d: Dummy): nat {
    if !Bumps(u) then 1 else if d.Nameless? then 2 else 0
  }

  function SkipAssignEntries(a: AssignOp, result: Dummy): nat {
    if a.Set? || a.Swap? then 0
    else if a.CatSet? || a.PreSet? then 1
    else if result.Inert? then 0 else 1
  }

  function SkipBinaryEntries(b: BinOp, d: Dummy, result: Dummy): nat {
    match b
    case Comma => 0
    case StrCat => 1
    case Assign(a) => if d.Nameless? then SkipAssignEntries(a, result) else 0
    case _ => if result.Inert? then 0 else 1
  }

  /** The entries a skipped tree takes: none for its operands, but its operators go on making theirs. */
  function SkipEntries(h: Host, e: Expr): nat {
    match e
    case Pre(u, x) => SkipEntries(h, x) + SkipUnaryEntries(u, Skip(h, x))
    case Post(u, x) => SkipEntries(h, x) + SkipUnaryEntries(u, Skip(h, x))
    case Bin(b, l, r) =>
      SkipEntries(h, l) + (if Shorts(b) then 1 else 0) + SkipEntries(h, r)
      + SkipBinaryEntries(b, Skip(h, l), Skip(h, e))
    case Cond(c, a, z) => SkipEntries(h, c) + 1 + SkipEntries(h, a) + SkipEntries(h, z)
    case _ => 0
  }

  /** The table entries that evaluating a tree takes, one for each operand and what the operators make. */
  function Entries(h: Host, e: Expr, hist: History): nat {
    match e
    case Pre(u, x) => Entries(h, x, hist) + UnaryEntries(u, Eval(h, x, hist).0)
    case Post(u, x) => Entries(h, x, hist) + UnaryEntries(u, Eval(h, x, hist).0)
    case Bin(b, l, r) =>
      var (v, hist1) := Eval(h, l, hist);
      if Shorts(b) then
        var (x, _, hist2) := AsBool(h, v, hist1);
        Entries(h, l, hist) + 1 + (if x == (b == Bool(DOr)) then SkipEntries(h, r) else Entries(h, r, hist2)) + 1
      else
        var (w, hist2) := Eval(h, r, hist1);
        Entries(h, l, hist) + Entries(h, r, hist1) + BinaryEntries(b, v, ApplyBinary(h, b, v, w, hist2).0)
    case Cond(c, a, z) =>
      var (v, hist1) := Eval(h, c, hist);
      var (x, _, hist2) := AsBool(h, v, hist1);
      if x then Entries(h, c, hist) + 1 + Entries(h, a, hist2) + SkipEntries(h, z)
      else Entries(h, c, hist) + 1 + SkipEntries(h, a) + Entries(h, z, hist2 + SkipRequests(h, a))
    case _ => 1
  }

  /** The tables are large enough for `e`: entry 0 is always taken. */
  predicate Fits(h: Host, e: Expr, hist: History) {
    1 + Entries(h, e, hist) <= TOKENCOUNT && Depth(e) <= STACKSZ
  }

  lemma {:induction false} SkipEntriesBySize(h: Host, e: Expr)
    ensures SkipEntries(h, e) <= Slots(e)
  {
    match e
    case Pre(_, x) => SkipEntriesBySize(h, x);
    case Post(_, x) => SkipEntriesBySize(h, x);
    case Bin(_, l, r) =>
      SkipEntriesBySize(h, l);
      SkipEntriesBySize(h, r);
    case Cond(c, a, z) =>
      SkipEntriesBySize(h, c);
      SkipEntriesBySize(h, a);
      SkipEntriesBySize(h, z);
    case _ =>
  }

  lemma {:induction false} EntriesBySize(h: Host, e: Expr, hist: History)
    ensures Entries(h, e, hist) <= Slots(e)
  {
    hide ApplyBinary, AsBool, SkipEntries, Eval;
    match e
    case Pre(_, x) => EntriesBySize(h, x, hist);
    case Post(_, x) => EntriesBySize(h, x, hist);
    case Bin(b, l, r) =>
      var (v, hist1) := Eval(h, l, hist);
      EntriesBySize(h, l, hist);
      EntriesBySize(h, r, hist1);
      EntriesBySize(h, r, AsBool(h, v, hist1).2);
      SkipEntriesBySize(h, r);
      BinBySize(h, b, l, r, hist);
    case Cond(c, a, z) =>
      var (v, hist1) := Eval(h, c, hist);
      var hist2 := AsBool(h, v, hist1).2;
      EntriesBySize(h, c, hist);
      EntriesBySize(h, a, hist2);
      EntriesBySize(h, z, hist2 + SkipRequests(h, a));
      SkipEntriesBySize(h, a);
      SkipEntriesBySize(h, z);
      CondBySize(h, c, a, z, hist);
    case _ =>
  }

  /** The case of a binary operator. */
  lemma BinBySize(h: Host, b: BinOp, l: Expr, r: Expr, hist: History)
    requires var (v, hist1) := Eval(h, l, hist);
             && Entries(h, l, hist) <= Slots(l) && Entries(h, r, hist1) <= Slots(r)
             && Entries(h, r, AsBool(h, v, hist1).2) <= Slots(r) && SkipEntries(h, r) <= Slots(r)
    ensures Entries(h, Bin(b, l, r), hist) <= Slots(Bin(b, l, r))
  {
    var (v, hist1) := Eval(h, l, hist);
    var (w, hist2) := Eval(h, r, hist1);
    OpBySize(b, v, ApplyBinary(h, b, v, w, hist2).0);
    hide ApplyBinary, AsBool, SkipEntries, Eval, SkipRequests, BinaryEntries, OpSlots;
  }

  lemma OpBySize(b: BinOp, v: Val, result: Val)
    ensures BinaryEntries(b, v, result) <= OpSlots(Binary(b))
    ensures Shorts(b) ==> OpSlots(Binary(b)) == 2
  {
  }

  /** The case of the conditional operator. */
  lemma CondBySize(h: Host, c: Expr, a: Expr, z: Expr, hist: History)
    requires var (v, hist1) := Eval(h, c, hist);
             var hist2 := AsBool(h, v, hist1).2;
             && Entries(h, c, hist) <= Slots(c) && Entries(h, a, hist2) <= Slots(a) && SkipEntries(h, a) <= Slots(a)
             && Entries(h, z, hist2 + SkipRequests(h, a)) <= Slots(z) && SkipEntries(h, z) <= Slots(z)
    ensures Entries(h, Cond(c, a, z), hist) <= Slots(Cond(c, a, z))
  {
    hide ApplyBinary, AsBool, SkipEntries, Eval, SkipRequests;
  }

  /** A tree that is small enough fits whatever its variables hold. */
  lemma FitsBySize(h: Host, e: Expr, hist: History)
    requires Slots(e) < 80
    ensures Fits(h, e, hist)
  {
    EntriesBySize(h, e, hist);
    DepthBySize(e);
  }

  predicate NoDeref(e: Expr) {
    match e
    case Pre(u, x) => u != Deref && NoDeref(x)
    case Post(_, x) => NoDeref(x)
    case Bin(_, l, r) => NoDeref(l) && NoDeref(r)
    case Cond(c, a, z) => NoDeref(c) && NoDeref(a) && NoDeref(z)
    case _ => true
  }

  /** Without `*`, skipping stores nothing. */
  lemma {:induction false} NoDerefSkipsClean(h: Host, e: Expr)
    requires NoDeref(e) && WellFormed(e)
    ensures Skip(h, e) != Nameless && SkipStores(h, e) == 0
  {
    match e
    case Pre(u, x) => NoDerefSkipsClean(h, x);
    case Post(u, x) => NoDerefSkipsClean(h, x);
    case Bin(b, l, r) => NoDerefSkipsClean(h, l); NoDerefSkipsClean(h, r);
    case Cond(c, a, z) => NoDerefSkipsClean(h, c); NoDerefSkipsClean(h, a); NoDerefSkipsClean(h, z);
    case _ =>
  }
}
