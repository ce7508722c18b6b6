/** The reducer computes the operators of the reference semantics: table entries represent values,
    and every reduction takes represented operands to a represented result. */
module ExprReduce {
  import opened Options
  import opened ExprSyntax
  import opened ExprMachine
  import opened ExprEval

  // ---------- representation ----------

  /** Cached conversions agree with the text they come from. */
  ghost predicate CachesOf(h: Host, s: Sym, text: Option<string>) {
    && (s.integer.Some? ==> text.Some? && s.integer.value == h.atol(text.value))
    && (s.float.Some? ==> text.Some? && s.float.value == h.atof(text.value))
    && (s.boolean.Some? ==> text.Some? && s.boolean.value == h.checkVal(text.value))
  }

  /** The entry of a computed number: its text, if present, is the formatted number. */
  ghost predicate NumberText(s: Sym, text: string) {
    && s.lval == None
    && (s.raw.None? || s.raw == Some(text))
    && (s.expanded.None? || (s.expanded == Some(text) && s.raw.Some?))
  }

  ghost predicate Represents(h: Host, s: Sym, v: Val) {
    match v
    case VRef(t, n, x) =>
      s.lval == Some(t) && s.raw == n && s.expanded == x && (x.Some? ==> n.Some?) && CachesOf(h, s, x)
    case VRaw(t, x) => s.lval == None && s.raw == Some(t) && s.expanded == x && CachesOf(h, s, x)
    case VStr(t) => s.lval == None && s.raw == None && s.expanded == Some(t) && CachesOf(h, s, Some(t))
    case VInt(i) =>
      NumberText(s, h.showInt(i)) && s.integer == Some(i) &&
      CachesOf(h, s.(integer := None), if s.expanded.Some? then Some(h.showInt(i)) else None)
    case VFloat(d) =>
      NumberText(s, h.showDouble(d)) && s.float == Some(d) &&
      CachesOf(h, s.(float := None), if s.expanded.Some? then Some(h.showDouble(d)) else None)
    case VBool(b) =>
      NumberText(s, ShowBool(b)) && s.boolean == Some(b) &&
      CachesOf(h, s.(boolean := None), if s.expanded.Some? then Some(ShowBool(b)) else None)
  }

  /** Handle `v` stands for `x`. Handle 0 is the empty string. */
  ghost predicate Holds(h: Host, ev: Ev, v: int, x: Val) {
    if v == 0 then x == VStr("") else 0 < v < |ev.table| && Represents(h, ev.table[v], x)
  }

  /** The state invariant of evaluation: entry 0 only caches conversions of the empty string. */
  ghost predicate Good(h: Host, ev: Ev) {
    EvOk(ev) && CachesOf(h, ev.table[0], Some(""))
  }

  /** Entry `v` may have gained conversions; nothing else of the table changed. */
  ghost predicate OnlyAt(ev: Ev, e1: Ev, v: int) {
    |ev.table| == |e1.table| && (forall i | 0 <= i < |ev.table| && i != v :: e1.table[i] == ev.table[i])
  }

  lemma NameHolds(h: Host, ev: Ev, v: int, x: Val)
    requires Lawful(h) && Good(h, ev) && ev.noeval == 0 && Holds(h, ev, v, x)
    ensures var (n, e1) := GetLval(h, ev, v); var (n', x', hist) := AsName(h, x, ev.history);
            n == n' && e1.history == hist && Good(h, e1) && Holds(h, e1, v, x') && OnlyAt(ev, e1, v)
  {
  }

  lemma TextHolds(h: Host, ev: Ev, v: int, x: Val)
    requires Lawful(h) && Good(h, ev) && ev.noeval == 0 && Holds(h, ev, v, x)
    ensures var (t, e1) := GetExpanded(h, ev, v); var (t', x', hist) := AsText(h, x, ev.history);
            t == t' && e1.history == hist && Good(h, e1) && Holds(h, e1, v, x') && OnlyAt(ev, e1, v)
            && (v != 0 ==> e1.table[v].expanded == Some(t))
  {
    hide Lookups, LogOk, Plain, SymLe;
  }

  lemma IntHolds(h: Host, ev: Ev, v: int, x: Val)
    requires Lawful(h) && Good(h, ev) && ev.noeval == 0 && Holds(h, ev, v, x)
    ensures var (t, e1) := GetInt(h, ev, v); var (t', x', hist) := AsInt(h, x, ev.history);
            t == t' && e1.history == hist && Good(h, e1) && Holds(h, e1, v, x') && OnlyAt(ev, e1, v)
  {
    hide GetExpanded, Lookups, LogOk, SymLe;
    TextHolds(h, ev, v, x);
  }

  lemma FloatHolds(h: Host, ev: Ev, v: int, x: Val)
    requires Lawful(h) && Good(h, ev) && ev.noeval == 0 && Holds(h, ev, v, x)
    ensures var (t, e1) := GetFloat(h, ev, v); var (t', x', hist) := AsFloat(h, x, ev.history);
            t == t' && e1.history == hist && Good(h, e1) && Holds(h, e1, v, x') && OnlyAt(ev, e1, v)
  {
    hide GetExpanded, Lookups, LogOk, SymLe;
    TextHolds(h, ev, v, x);
  }

  lemma BoolHolds(h: Host, ev: Ev, v: int, x: Val)
    requires Lawful(h) && Good(h, ev) && ev.noeval == 0 && Holds(h, ev, v, x)
    ensures var (t, e1) := GetBool(h, ev, v); var (t', x', hist) := AsBool(h, x, ev.history);
            t == t' && e1.history == hist && Good(h, e1) && Holds(h, e1, v, x') && OnlyAt(ev, e1, v)
  {
    hide GetExpanded, Lookups, LogOk, SymLe;
    TextHolds(h, ev, v, x);
  }

  // ---------- reductions ----------

  /** Entries 1..n-1, those of operands still waiting, are as they were. */
  ghost predicate Untouched(ev: Ev, e1: Ev, n: nat) {
    n <= |ev.table| <= |e1.table| && (forall i | 1 <= i < n :: e1.table[i] == ev.table[i])
  }

  /** An operand of the expression at hand: its entry is none of the waiting ones. */
  ghost predicate Operand(h: Host, ev: Ev, n: nat, v: int, x: Val) {
    Holds(h, ev, v, x) && (v == 0 || v >= n)
  }

  /** The state after evaluation left one operand, representing `x`, on top of `base`. */
  ghost predicate Leaves(h: Host, ev: Ev, e1: Ev, base: seq<int>, n: nat, x: Val, hist: History) {
    && Good(h, e1) && e1.noeval == ev.noeval && e1.history == hist
    && |e1.stack| == |base| + 1 && e1.stack[..|base|] == base
    && Operand(h, e1, n, e1.stack[|base|], x)
    && Untouched(ev, e1, n)
  }

  ghost predicate Ready(h: Host, ev: Ev, base: seq<int>, n: nat, room: nat) {
    && Lawful(h) && Good(h, ev) && ev.noeval == 0
    && 1 <= n <= |ev.table| && |ev.table| + room <= TOKENCOUNT && |base| < STACKSZ
  }

  ghost predicate Ready1(h: Host, ev: Ev, base: seq<int>, n: nat, room: nat, v: int, x: Val) {
    Ready(h, ev, base, n, room) && ev.stack == base + [v] && Operand(h, ev, n, v, x)
  }

  ghost predicate Ready2(h: Host, ev: Ev, base: seq<int>, n: nat, room: nat, v: int, x: Val, w: int, y: Val) {
    && Ready(h, ev, base, n, room) && ev.stack == base + [v, w]
    && Operand(h, ev, n, v, x) && Operand(h, ev, n, w, y)
    && (v == w ==> v == 0)
  }

  lemma PopOne(ev: Ev, base: seq<int>, v: int)
    requires EvOk(ev) && ev.stack == base + [v]
    ensures Pop(ev) == (v, ev.(stack := base))
  {
    assert ev.stack[..|base|] == base;
  }

  lemma PopTwo(ev: Ev, base: seq<int>, v: int, w: int)
    requires EvOk(ev) && ev.stack == base + [v, w]
    ensures Pop(ev) == (w, ev.(stack := base + [v]))
  {
    assert ev.stack[..|base| + 1] == base + [v];
  }

  /** Pushing a fresh entry leaves the value it represents. */
  lemma PushNewLeaves(h: Host, ev: Ev, base: seq<int>, n: nat, s: Sym, x: Val)
    requires Ready(h, ev, base, n, 1) && ev.stack == base && SymOk(s) && Represents(h, s, x)
    ensures Leaves(h, ev, PushNew(ev, s), base, n, x, ev.history)
    ensures |PushNew(ev, s).table| == |ev.table| + 1
  {
    hide Represents, Lawful;
  }

  lemma PushLeaves(h: Host, ev: Ev, base: seq<int>, n: nat, v: int, x: Val)
    requires Ready(h, ev, base, n, 0) && ev.stack == base && Operand(h, ev, n, v, x)
    ensures Leaves(h, ev, Push(ev, v), base, n, x, ev.history)
    ensures Push(ev, v).table == ev.table
  {
  }

  lemma SetVarKeeps(h: Host, ev: Ev, name: string, value: string)
    requires Good(h, ev)
    ensures Good(h, SetVar(ev, name, value))
    ensures SetVar(ev, name, value) == ev.(history := ev.history + [Store(name, value)])
  {
  }

  /** How a computed value is written. */
  function Show(h: Host, x: Val): string
    requires x.VInt? || x.VFloat? || x.VBool?
  {
    match x
    case VInt(i) => h.showInt(i)
    case VFloat(d) => h.showDouble(d)
    case VBool(b) => ShowBool(b)
  }

  /** Storing a fresh number entry stores its formatted value. */
  lemma StoreTextHolds(h: Host, ev: Ev, base: seq<int>, n: nat, name: string, s: Sym, x: Val)
    requires Ready(h, ev, base, n, 1) && ev.stack == base && SymOk(s) && Represents(h, s, x)
    requires x.VInt? || x.VFloat? || x.VBool?
    ensures var (w, e1) := StoreText(h, ev, name, s);
            Good(h, e1) && e1.history == ev.history + [Store(name, Show(h, x))] && e1.stack == base
            && Operand(h, e1, n, w, x) && Untouched(ev, e1, n) && |e1.table| == |ev.table| + 1
  {
    hide Represents, GetExpanded;
    var (w, e1) := Tokenize(ev, s);
    TextHolds(h, e1, w, x);
    var (t, e2) := GetExpanded(h, e1, w);
    SetVarKeeps(h, e2, name, t);
  }

  lemma StoreNewLeaves(h: Host, ev: Ev, base: seq<int>, n: nat, name: string, s: Sym, x: Val)
    requires Ready(h, ev, base, n, 1) && ev.stack == base && SymOk(s) && Represents(h, s, x)
    requires x.VInt? || x.VFloat? || x.VBool?
    ensures Leaves(h, ev, StoreNew(h, ev, name, s), base, n, x, ev.history + [Store(name, Show(h, x))])
    ensures |StoreNew(h, ev, name, s).table| == |ev.table| + 1
  {
    hide Represents, StoreText;
    StoreTextHolds(h, ev, base, n, name, s, x);
    var (w, e1) := StoreText(h, ev, name, s);
    PushLeaves(h, e1, base, n, w, x);
  }

  lemma BumpLeaves(h: Host, ev: Ev, base: seq<int>, n: nat, v: int, x: Val, delta: int, result: int)
    requires Ready1(h, ev, base, n, if x.VRef? then 2 else 0, v, x)
    ensures var (r, hist) := Bump(h, x, delta, result, ev.history);
            var e1 := AutoUnary(h, ev, delta, result);
            Leaves(h, ev, e1, base, n, r, hist) && |e1.table| == |ev.table| + (if x.VRef? then 2 else 0)
  {
    hide Represents, EvOk, Later, CachesOf, GetLval, GetInt, AsName, AsInt, Plain, StoreText, PushNew, Push;
    PopOne(ev, base, v);
    var e1 := Pop(ev).1;
    NameHolds(h, e1, v, x);
    var (name, e2) := GetLval(h, e1, v);
    var x1 := AsName(h, x, ev.history).1;
    OnlyRefsNamed(h, x, ev.history);
    if name.None? {
      PushLeaves(h, e2, base, n, 0, VStr(""));
    } else {
      IntHolds(h, e2, v, x1);
      var (j, e3) := GetInt(h, e2, v);
      NewInt(h, j + delta);
      StoreTextHolds(h, e3, base, n, name.value, IntSym(j + delta), VInt(j + delta));
      NewInt(h, j + result);
      PushNewLeaves(h, StoreText(h, e3, name.value, IntSym(j + delta)).1, base, n, IntSym(j + result),
        VInt(j + result));
    }
  }

  lemma OnlyRefsNamed(h: Host, x: Val, hist: History)
    ensures AsName(h, x, hist).0.Some? <==> x.VRef?
    ensures x.VRef? ==> AsName(h, x, hist).1.VRef?
  {
  }

  lemma NewInt(h: Host, i: int)
    ensures Represents(h, IntSym(i), VInt(i)) && SymOk(IntSym(i))
  {
  }

  lemma NewDouble(h: Host, d: Double)
    ensures Represents(h, DoubleSym(d), VFloat(d)) && SymOk(DoubleSym(d))
  {
  }

  lemma NewBool(h: Host, b: bool)
    ensures Represents(h, BoolSym(b), VBool(b)) && SymOk(BoolSym(b))
  {
  }

  lemma NewText(h: Host, t: string)
    ensures Represents(h, ExpandedSym(t), VStr(t)) && SymOk(ExpandedSym(t))
  {
  }

  lemma NewLval(h: Host, t: string)
    ensures Represents(h, LvalSym(t), VRef(t, None, None)) && SymOk(LvalSym(t))
  {
  }

  lemma NotLeaves(h: Host, ev: Ev, base: seq<int>, n: nat, v: int, x: Val)
    requires Ready1(h, ev, base, n, 1, v, x)
    ensures var (r, hist) := ApplyUnary(h, Not, x, ev.history);
            var e1 := ReduceNot(h, ev);
            Leaves(h, ev, e1, base, n, r, hist) && |e1.table| == |ev.table| + 1
  {
    hide Represents, EvOk, Later, CachesOf, GetLval, GetInt, GetFloat, GetBool, GetExpanded, AsName, AsText, AsInt,
         AsFloat, AsBool, Plain, StoreText, StoreNew, PushNew, Push, SetVar;
    PopOne(ev, base, v);
    var e1 := Pop(ev).1;
    BoolHolds(h, e1, v, x);
    var (a, e2) := GetBool(h, e1, v);
    var r := !a;
    NewBool(h, r);
    PushNewLeaves(h, e2, base, n, BoolSym(r), VBool(r));
  }

  lemma CompLeaves(h: Host, ev: Ev, base: seq<int>, n: nat, v: int, x: Val)
    requires Ready1(h, ev, base, n, 1, v, x)
    ensures var (r, hist) := ApplyUnary(h, Comp, x, ev.history);
            var e1 := ReduceComp(h, ev);
            Leaves(h, ev, e1, base, n, r, hist) && |e1.table| == |ev.table| + 1
  {
    hide Represents, EvOk, Later, CachesOf, GetLval, GetInt, GetFloat, GetBool, GetExpanded, AsName, AsText, AsInt,
         AsFloat, AsBool, Plain, StoreText, StoreNew, PushNew, Push, SetVar;
    PopOne(ev, base, v);
    var e1 := Pop(ev).1;
    IntHolds(h, e1, v, x);
    var (a, e2) := GetInt(h, e1, v);
    var r := h.complement(a);
    NewInt(h, r);
    PushNewLeaves(h, e2, base, n, IntSym(r), VInt(r));
  }

  lemma SignLeaves(h: Host, ev: Ev, base: seq<int>, n: nat, v: int, x: Val, minus: bool)
    requires Ready1(h, ev, base, n, 1, v, x)
    ensures var (r, hist) := ApplyUnary(h, if minus then UMinus else UPlus, x, ev.history);
            var e1 := ReduceSign(h, ev, minus);
            Leaves(h, ev, e1, base, n, r, hist) && |e1.table| == |ev.table| + 1
  {
    hide Represents, EvOk, Later, CachesOf, GetLval, GetInt, GetFloat, GetBool, GetExpanded, AsName, AsText, AsInt,
         AsFloat, AsBool, Plain, StoreText, StoreNew, PushNew, Push, SetVar;
    PopOne(ev, base, v);
    var e1 := Pop(ev).1;
    FloatHolds(h, e1, v, x);
    var (a, e2) := GetFloat(h, e1, v);
    var r := if minus then h.negate(a) else a;
    NewDouble(h, r);
    PushNewLeaves(h, e2, base, n, DoubleSym(r), VFloat(r));
  }

  lemma LengthLeaves(h: Host, ev: Ev, base: seq<int>, n: nat, v: int, x: Val, words: bool)
    requires Ready1(h, ev, base, n, 1, v, x)
    ensures var (r, hist) := ApplyUnary(h, if words then WordC else StrLen, x, ev.history);
            var e1 := ReduceLength(h, ev, words);
            Leaves(h, ev, e1, base, n, r, hist) && |e1.table| == |ev.table| + 1
  {
    hide Represents, EvOk, Later, CachesOf, GetLval, GetInt, GetFloat, GetBool, GetExpanded, AsName, AsText, AsInt,
         AsFloat, AsBool, Plain, StoreText, StoreNew, PushNew, Push, SetVar;
    PopOne(ev, base, v);
    var e1 := Pop(ev).1;
    TextHolds(h, e1, v, x);
    var (a, e2) := GetExpanded(h, e1, v);
    var r := if words then h.wordCount(a) else |a|;
    NewInt(h, r);
    PushNewLeaves(h, e2, base, n, IntSym(r), VInt(r));
  }

  lemma DerefLeaves(h: Host, ev: Ev, base: seq<int>, n: nat, v: int, x: Val)
    requires Ready1(h, ev, base, n, 1, v, x)
    ensures var (r, hist) := ApplyUnary(h, Deref, x, ev.history);
            var e1 := ReduceDeref(h, ev);
            Leaves(h, ev, e1, base, n, r, hist) && |e1.table| == |ev.table| + 1
  {
    hide Represents, EvOk, Later, CachesOf, GetLval, GetInt, GetFloat, GetBool, GetExpanded, AsName, AsText, AsInt,
         AsFloat, AsBool, Plain, StoreText, StoreNew, PushNew, Push, SetVar;
    PopOne(ev, base, v);
    var e1 := Pop(ev).1;
    TextHolds(h, e1, v, x);
    var (a, e2) := GetExpanded(h, e1, v);
    var r := a;
    NewLval(h, r);
    PushNewLeaves(h, e2, base, n, LvalSym(r), VRef(r, None, None));
  }

  /** Every unary reduction computes the operator. */
  lemma UnaryLeaves(h: Host, ev: Ev, base: seq<int>, n: nat, v: int, x: Val, u: UnOp)
    requires Ready1(h, ev, base, n, UnaryEntries(u, x), v, x)
    ensures var (r, hist) := ApplyUnary(h, u, x, ev.history);
            var e1 := Reduce(h, ev, Unary(u));
            Leaves(h, ev, e1, base, n, r, hist) && |e1.table| == |ev.table| + UnaryEntries(u, x)
  {
    hide Represents, EvOk, CachesOf, Later, AutoUnary, ReduceNot, ReduceComp, ReduceSign, ReduceLength, ReduceDeref,
         Bump;
    match u
    case PrePlus => BumpLeaves(h, ev, base, n, v, x, 1, 1);
    case PreMinus => BumpLeaves(h, ev, base, n, v, x, -1, -1);
    case PostPlus => BumpLeaves(h, ev, base, n, v, x, 1, 0);
    case PostMinus => BumpLeaves(h, ev, base, n, v, x, -1, 0);
    case Not => NotLeaves(h, ev, base, n, v, x);
    case Comp => CompLeaves(h, ev, base, n, v, x);
    case UPlus => SignLeaves(h, ev, base, n, v, x, false);
    case UMinus => SignLeaves(h, ev, base, n, v, x, true);
    case StrLen => LengthLeaves(h, ev, base, n, v, x, false);
    case WordC => LengthLeaves(h, ev, base, n, v, x, true);
    case Deref => DerefLeaves(h, ev, base, n, v, x);
  }

  /** Two operands are off the stack, both represented in the table. */
  ghost predicate Pair(h: Host, ev: Ev, base: seq<int>, n: nat, v: int, x: Val, w: int, y: Val) {
    && Ready(h, ev, base, n, 0) && ev.stack == base
    && Operand(h, ev, n, v, x) && Operand(h, ev, n, w, y)
    && (v == w ==> v == 0)
  }

  /** `e1` is `ev` with operand `v` looked up further. */
  ghost predicate Forced(ev: Ev, e1: Ev, n: nat) {
    |e1.table| == |ev.table| && Untouched(ev, e1, n) && e1.noeval == ev.noeval && e1.stack == ev.stack
  }

  lemma PairForced(h: Host, ev: Ev, e1: Ev, base: seq<int>, n: nat, v: int, x: Val, w: int, y: Val, x1: Val)
    requires Pair(h, ev, base, n, v, x, w, y) && Quiet(ev, e1)
    requires Good(h, e1) && Holds(h, e1, v, x1) && OnlyAt(ev, e1, v)
    ensures Pair(h, e1, base, n, v, x1, w, y) && Forced(ev, e1, n)
  {
    hide Represents, EvOk, CachesOf, Later;
  }

  lemma NameForced(h: Host, ev: Ev, base: seq<int>, n: nat, v: int, x: Val, w: int, y: Val)
    requires Pair(h, ev, base, n, v, x, w, y)
    ensures var (a, e1) := GetLval(h, ev, v); var (a', x1, hist) := AsName(h, x, ev.history);
            a == a' && e1.history == hist && Pair(h, e1, base, n, v, x1, w, y) && Forced(ev, e1, n)
  {
    hide Represents, EvOk, CachesOf, Later, GetLval, AsName;
    NameHolds(h, ev, v, x);
    PairForced(h, ev, GetLval(h, ev, v).1, base, n, v, x, w, y, AsName(h, x, ev.history).1);
  }

  lemma TextForced(h: Host, ev: Ev, base: seq<int>, n: nat, v: int, x: Val, w: int, y: Val)
    requires Pair(h, ev, base, n, v, x, w, y)
    ensures var (a, e1) := GetExpanded(h, ev, v); var (a', x1, hist) := AsText(h, x, ev.history);
            a == a' && e1.history == hist && Pair(h, e1, base, n, v, x1, w, y) && Forced(ev, e1, n)
  {
    hide Represents, EvOk, CachesOf, Later, GetExpanded, AsText;
    TextHolds(h, ev, v, x);
    PairForced(h, ev, GetExpanded(h, ev, v).1, base, n, v, x, w, y, AsText(h, x, ev.history).1);
  }

  lemma IntForced(h: Host, ev: Ev, base: seq<int>, n: nat, v: int, x: Val, w: int, y: Val)
    requires Pair(h, ev, base, n, v, x, w, y)
    ensures var (a, e1) := GetInt(h, ev, v); var (a', x1, hist) := AsInt(h, x, ev.history);
            a == a' && e1.history == hist && Pair(h, e1, base, n, v, x1, w, y) && Forced(ev, e1, n)
  {
    hide Represents, EvOk, CachesOf, Later, GetInt, AsInt;
    IntHolds(h, ev, v, x);
    PairForced(h, ev, GetInt(h, ev, v).1, base, n, v, x, w, y, AsInt(h, x, ev.history).1);
  }

  lemma FloatForced(h: Host, ev: Ev, base: seq<int>, n: nat, v: int, x: Val, w: int, y: Val)
    requires Pair(h, ev, base, n, v, x, w, y)
    ensures var (a, e1) := GetFloat(h, ev, v); var (a', x1, hist) := AsFloat(h, x, ev.history);
            a == a' && e1.history == hist && Pair(h, e1, base, n, v, x1, w, y) && Forced(ev, e1, n)
  {
    hide Represents, EvOk, CachesOf, Later, GetFloat, AsFloat;
    FloatHolds(h, ev, v, x);
    PairForced(h, ev, GetFloat(h, ev, v).1, base, n, v, x, w, y, AsFloat(h, x, ev.history).1);
  }

  lemma BoolForced(h: Host, ev: Ev, base: seq<int>, n: nat, v: int, x: Val, w: int, y: Val)
    requires Pair(h, ev, base, n, v, x, w, y)
    ensures var (a, e1) := GetBool(h, ev, v); var (a', x1, hist) := AsBool(h, x, ev.history);
            a == a' && e1.history == hist && Pair(h, e1, base, n, v, x1, w, y) && Forced(ev, e1, n)
  {
    hide Represents, EvOk, CachesOf, Later, GetBool, AsBool;
    BoolHolds(h, ev, v, x);
    PairForced(h, ev, GetBool(h, ev, v).1, base, n, v, x, w, y, AsBool(h, x, ev.history).1);
  }

  /** What is left after `e1` is left after `ev`. */
  lemma LeavesAfter(h: Host, ev: Ev, e1: Ev, e2: Ev, base: seq<int>, n: nat, x: Val, hist: History)
    requires Leaves(h, e1, e2, base, n, x, hist) && Untouched(ev, e1, n) && e1.noeval == ev.noeval
    ensures Leaves(h, ev, e2, base, n, x, hist)
  {
    hide Represents, EvOk, CachesOf;
  }

  lemma PopBoth(h: Host, ev: Ev, base: seq<int>, n: nat, v: int, x: Val, w: int, y: Val)
    requires Ready2(h, ev, base, n, 0, v, x, w, y)
    ensures Pop(ev) == (w, ev.(stack := base + [v])) && Pop(Pop(ev).1) == (v, ev.(stack := base))
    ensures Pair(h, ev.(stack := base), base, n, v, x, w, y)
  {
    hide Represents;
    PopTwo(ev, base, v, w);
    PopOne(ev.(stack := base + [v]), base, v);
  }

  // ---------- binary operators ----------

  /** What is on the stack does not matter to the table. */
  lemma OtherStack(h: Host, ev: Ev, stack: seq<int>, n: nat, v: int, x: Val)
    requires Good(h, ev) && Operand(h, ev, n, v, x) && |stack| <= |ev.stack| && stack == ev.stack[..|stack|]
    ensures var e1 := ev.(stack := stack); Good(h, e1) && Operand(h, e1, n, v, x)
  {
    hide Represents;
  }

  lemma ZeroHolds(h: Host, ev: Ev)
    ensures Holds(h, ev, 0, VStr(""))
  {
  }

  /** Looking up one operand leaves the others alone, and those that wait. */
  lemma OthersKept(h: Host, e1: Ev, e2: Ev, n: nat, w: int, v: int, x: Val)
    requires OnlyAt(e1, e2, w) && Holds(h, e1, v, x) && (v == w ==> v == 0) && (w == 0 || w >= n) && n <= |e1.table|
    ensures Holds(h, e2, v, x) && Untouched(e1, e2, n) && |e2.table| == |e1.table|
  {
    hide Represents;
  }

  lemma PoppedBoth(ev: Ev, e1: Ev, e2: Ev, e3: Ev, e4: Ev, n: nat)
    requires e1.table == ev.table && e3.table == e2.table && Untouched(e1, e2, n) && Untouched(e3, e4, n)
    ensures Untouched(ev, e4, n)
  {
  }

  lemma PopIntsHold(h: Host, ev: Ev, base: seq<int>, n: nat, room: nat, v: int, x: Val, w: int, y: Val)
    requires Ready2(h, ev, base, n, room, v, x, w, y)
    ensures var (b, _, hist1) := AsInt(h, y, ev.history);
            var (a, _, hist2) := AsInt(h, x, hist1);
            var (a', b', e1) := PopInts(h, ev);
            a == a' && b == b' && e1.history == hist2 && e1.stack == base && e1.noeval == ev.noeval
            && Ready(h, e1, base, n, room) && Untouched(ev, e1, n) && |e1.table| == |ev.table|
  {
    hide Represents, EvOk, Later, CachesOf, Holds, OnlyAt, Untouched, GetLval, GetInt, GetFloat, GetBool, GetExpanded,
         AsName, AsText, AsInt, AsFloat, AsBool, Lawful;
    PopTwo(ev, base, v, w);
    var e1 := Pop(ev).1;
    OtherStack(h, ev, base + [v], n, v, x);
    OtherStack(h, ev, base + [v], n, w, y);
    IntHolds(h, e1, w, y);
    var e2 := GetInt(h, e1, w).1;
    OthersKept(h, e1, e2, n, w, v, x);
    PopOne(e2, base, v);
    var e3 := Pop(e2).1;
    OtherStack(h, e2, base, n, v, x);
    IntHolds(h, e3, v, x);
    var e4 := GetInt(h, e3, v).1;
    ZeroHolds(h, e3);
    OthersKept(h, e3, e4, n, v, 0, VStr(""));
    PoppedBoth(ev, e1, e2, e3, e4, n);
  }

  lemma PopFloatsHold(h: Host, ev: Ev, base: seq<int>, n: nat, room: nat, v: int, x: Val, w: int, y: Val)
    requires Ready2(h, ev, base, n, room, v, x, w, y)
    ensures var (b, _, hist1) := AsFloat(h, y, ev.history);
            var (a, _, hist2) := AsFloat(h, x, hist1);
            var (a', b', e1) := PopFloats(h, ev);
            a == a' && b == b' && e1.history == hist2 && e1.stack == base && e1.noeval == ev.noeval
            && Ready(h, e1, base, n, room) && Untouched(ev, e1, n) && |e1.table| == |ev.table|
  {
    hide Represents, EvOk, Later, CachesOf, Holds, OnlyAt, Untouched, GetLval, GetInt, GetFloat, GetBool, GetExpanded,
         AsName, AsText, AsInt, AsFloat, AsBool, Lawful;
    PopTwo(ev, base, v, w);
    var e1 := Pop(ev).1;
    OtherStack(h, ev, base + [v], n, v, x);
    OtherStack(h, ev, base + [v], n, w, y);
    FloatHolds(h, e1, w, y);
    var e2 := GetFloat(h, e1, w).1;
    OthersKept(h, e1, e2, n, w, v, x);
    PopOne(e2, base, v);
    var e3 := Pop(e2).1;
    OtherStack(h, e2, base, n, v, x);
    FloatHolds(h, e3, v, x);
    var e4 := GetFloat(h, e3, v).1;
    ZeroHolds(h, e3);
    OthersKept(h, e3, e4, n, v, 0, VStr(""));
    PoppedBoth(ev, e1, e2, e3, e4, n);
  }

  lemma PopBoolsHold(h: Host, ev: Ev, base: seq<int>, n: nat, room: nat, v: int, x: Val, w: int, y: Val)
    requires Ready2(h, ev, base, n, room, v, x, w, y)
    ensures var (b, _, hist1) := AsBool(h, y, ev.history);
            var (a, _, hist2) := AsBool(h, x, hist1);
            var (a', b', e1) := PopBools(h, ev);
            a == a' && b == b' && e1.history == hist2 && e1.stack == base && e1.noeval == ev.noeval
            && Ready(h, e1, base, n, room) && Untouched(ev, e1, n) && |e1.table| == |ev.table|
  {
    hide Represents, EvOk, Later, CachesOf, Holds, OnlyAt, Untouched, GetLval, GetInt, GetFloat, GetBool, GetExpanded,
         AsName, AsText, AsInt, AsFloat, AsBool, Lawful;
    PopTwo(ev, base, v, w);
    var e1 := Pop(ev).1;
    OtherStack(h, ev, base + [v], n, v, x);
    OtherStack(h, ev, base + [v], n, w, y);
    BoolHolds(h, e1, w, y);
    var e2 := GetBool(h, e1, w).1;
    OthersKept(h, e1, e2, n, w, v, x);
    PopOne(e2, base, v);
    var e3 := Pop(e2).1;
    OtherStack(h, e2, base, n, v, x);
    BoolHolds(h, e3, v, x);
    var e4 := GetBool(h, e3, v).1;
    ZeroHolds(h, e3);
    OthersKept(h, e3, e4, n, v, 0, VStr(""));
    PoppedBoth(ev, e1, e2, e3, e4, n);
  }

  lemma PopStringsHold(h: Host, ev: Ev, base: seq<int>, n: nat, room: nat, v: int, x: Val, w: int, y: Val)
    requires Ready2(h, ev, base, n, room, v, x, w, y)
    ensures var (b, _, hist1) := AsText(h, y, ev.history);
            var (a, _, hist2) := AsText(h, x, hist1);
            var (a', b', e1) := PopStrings(h, ev);
            a == a' && b == b' && e1.history == hist2 && e1.stack == base && e1.noeval == ev.noeval
            && Ready(h, e1, base, n, room) && Untouched(ev, e1, n) && |e1.table| == |ev.table|
  {
    hide Represents, EvOk, Later, CachesOf, Holds, OnlyAt, Untouched, GetLval, GetInt, GetFloat, GetBool, GetExpanded,
         AsName, AsText, AsInt, AsFloat, AsBool, Lawful;
    PopTwo(ev, base, v, w);
    var e1 := Pop(ev).1;
    OtherStack(h, ev, base + [v], n, v, x);
    OtherStack(h, ev, base + [v], n, w, y);
    TextHolds(h, e1, w, y);
    var e2 := GetExpanded(h, e1, w).1;
    OthersKept(h, e1, e2, n, w, v, x);
    PopOne(e2, base, v);
    var e3 := Pop(e2).1;
    OtherStack(h, e2, base, n, v, x);
    TextHolds(h, e3, v, x);
    var e4 := GetExpanded(h, e3, v).1;
    ZeroHolds(h, e3);
    OthersKept(h, e3, e4, n, v, 0, VStr(""));
    PoppedBoth(ev, e1, e2, e3, e4, n);
  }

  lemma ZeroOperand(h: Host, ev: Ev, base: seq<int>, n: nat)
    requires Ready(h, ev, base, n, 0) && ev.stack == base
    ensures Leaves(h, ev, Push(ev, 0), base, n, VStr(""), ev.history)
    ensures Push(ev, 0).table == ev.table
  {
    PushLeaves(h, ev, base, n, 0, VStr(""));
  }

  lemma IntLeaves(h: Host, ev: Ev, base: seq<int>, n: nat, v: int, x: Val, w: int, y: Val, i: IntOp)
    requires Ready2(h, ev, base, n, BinaryEntries(Int(i), x, ApplyBinary(h, Int(i), x, y, ev.history).0),
                    v, x, w, y)
    ensures var (r, hist) := ApplyBinary(h, Int(i), x, y, ev.history);
            var e1 := ReduceInt(h, ev, i);
            Leaves(h, ev, e1, base, n, r, hist) && |e1.table| == |ev.table| + BinaryEntries(Int(i), x, r)
  {
    hide Represents, EvOk, Later, CachesOf, SymOk, OnlyAt, Untouched, GetLval, GetInt, GetFloat, GetBool,
         GetExpanded, AsName, AsText, AsInt, AsFloat, AsBool, StoreNew, PushNew, Push, SetVar, PopInts;
    var room := BinaryEntries(Int(i), x, ApplyBinary(h, Int(i), x, y, ev.history).0);
    PopIntsHold(h, ev, base, n, room, v, x, w, y);
    var (a, c, e1) := PopInts(h, ev);
    if i == Mod && c == 0 {
      ZeroOperand(h, e1, base, n);
      LeavesAfter(h, ev, e1, Push(e1, 0), base, n, VStr(""), e1.history);
    } else {
      var r := h.intOp(i, a, c);
      NewInt(h, r);
      PushNewLeaves(h, e1, base, n, IntSym(r), VInt(r));
      LeavesAfter(h, ev, e1, PushNew(e1, IntSym(r)), base, n, VInt(r), e1.history);
    }
  }

  lemma FloatLeaves(h: Host, ev: Ev, base: seq<int>, n: nat, v: int, x: Val, w: int, y: Val, f: FloatOp)
    requires Ready2(h, ev, base, n, BinaryEntries(Float(f), x, ApplyBinary(h, Float(f), x, y, ev.history).0),
                    v, x, w, y)
    ensures var (r, hist) := ApplyBinary(h, Float(f), x, y, ev.history);
            var e1 := ReduceFloat(h, ev, f);
            Leaves(h, ev, e1, base, n, r, hist) && |e1.table| == |ev.table| + BinaryEntries(Float(f), x, r)
  {
    hide Represents, EvOk, Later, CachesOf, SymOk, OnlyAt, Untouched, GetLval, GetInt, GetFloat, GetBool,
         GetExpanded, AsName, AsText, AsInt, AsFloat, AsBool, StoreNew, PushNew, Push, SetVar, PopFloats;
    var room := BinaryEntries(Float(f), x, ApplyBinary(h, Float(f), x, y, ev.history).0);
    PopFloatsHold(h, ev, base, n, room, v, x, w, y);
    var (a, c, e1) := PopFloats(h, ev);
    if f == Div && h.isZero(c) {
      ZeroOperand(h, e1, base, n);
      LeavesAfter(h, ev, e1, Push(e1, 0), base, n, VStr(""), e1.history);
    } else {
      var r := h.floatOp(f, a, c);
      NewDouble(h, r);
      PushNewLeaves(h, e1, base, n, DoubleSym(r), VFloat(r));
      LeavesAfter(h, ev, e1, PushNew(e1, DoubleSym(r)), base, n, VFloat(r), e1.history);
    }
  }

  lemma BoolLeaves(h: Host, ev: Ev, base: seq<int>, n: nat, v: int, x: Val, w: int, y: Val, o: BoolOp)
    requires Ready2(h, ev, base, n, 1, v, x, w, y)
    ensures var (r, hist) := ApplyBinary(h, Bool(o), x, y, ev.history);
            var e1 := ReduceBool(h, ev, o);
            Leaves(h, ev, e1, base, n, r, hist) && |e1.table| == |ev.table| + 1
  {
    hide Represents, EvOk, Later, CachesOf, SymOk, OnlyAt, Untouched, GetLval, GetInt, GetFloat, GetBool,
         GetExpanded, AsName, AsText, AsInt, AsFloat, AsBool, StoreNew, PushNew, Push, SetVar, PopBools;
    PopBoolsHold(h, ev, base, n, 1, v, x, w, y);
    var (a, c, e1) := PopBools(h, ev);
    var r := BoolResult(o, a, c);
    NewBool(h, r);
    PushNewLeaves(h, e1, base, n, BoolSym(r), VBool(r));
    LeavesAfter(h, ev, e1, PushNew(e1, BoolSym(r)), base, n, VBool(r), e1.history);
  }

  lemma StrCatLeaves(h: Host, ev: Ev, base: seq<int>, n: nat, v: int, x: Val, w: int, y: Val)
    requires Ready2(h, ev, base, n, 1, v, x, w, y)
    ensures var (r, hist) := ApplyBinary(h, StrCat, x, y, ev.history);
            var e1 := ReduceStrCat(h, ev);
            Leaves(h, ev, e1, base, n, r, hist) && |e1.table| == |ev.table| + 1
  {
    hide Represents, EvOk, Later, CachesOf, SymOk, OnlyAt, Untouched, GetLval, GetInt, GetFloat, GetBool,
         GetExpanded, AsName, AsText, AsInt, AsFloat, AsBool, StoreNew, PushNew, Push, SetVar, PopStrings;
    PopStringsHold(h, ev, base, n, 1, v, x, w, y);
    var (s, t, e1) := PopStrings(h, ev);
    NewText(h, s + t);
    PushNewLeaves(h, e1, base, n, ExpandedSym(s + t), VStr(s + t));
    LeavesAfter(h, ev, e1, PushNew(e1, ExpandedSym(s + t)), base, n, VStr(s + t), e1.history);
  }

  lemma CompareLeaves(h: Host, ev: Ev, base: seq<int>, n: nat, v: int, x: Val, w: int, y: Val, c: CompareOp)
    requires Ready2(h, ev, base, n, 1, v, x, w, y)
    ensures var (r, hist) := ApplyBinary(h, Compare(c), x, y, ev.history);
            var e1 := ReduceCompare(h, ev, c);
            Leaves(h, ev, e1, base, n, r, hist) && |e1.table| == |ev.table| + 1
  {
    hide Represents, EvOk, Later, CachesOf, SymOk, OnlyAt, Untouched, GetLval, GetInt, GetFloat, GetBool,
         GetExpanded, AsName, AsText, AsInt, AsFloat, AsBool, StoreNew, PushNew, Push, SetVar, PopStrings;
    PopStringsHold(h, ev, base, n, 1, v, x, w, y);
    var (s, t, e1) := PopStrings(h, ev);
    var r := h.compareOp(c, s, t);
    NewBool(h, r);
    PushNewLeaves(h, e1, base, n, BoolSym(r), VBool(r));
    LeavesAfter(h, ev, e1, PushNew(e1, BoolSym(r)), base, n, VBool(r), e1.history);
  }

  lemma CommaLeaves(h: Host, ev: Ev, base: seq<int>, n: nat, v: int, x: Val, w: int, y: Val)
    requires Ready2(h, ev, base, n, 0, v, x, w, y)
    ensures Leaves(h, ev, ReduceComma(ev), base, n, y, ev.history) && ReduceComma(ev).table == ev.table
  {
    hide Represents;
    PopBoth(h, ev, base, n, v, x, w, y);
    PushLeaves(h, ev.(stack := base), base, n, w, y);
  }

  // ---------- assignments ----------

  lemma SetVarLeaves(h: Host, ev: Ev, e1: Ev, base: seq<int>, n: nat, x: Val, hist: History, name: string,
      value: string)
    requires Leaves(h, ev, e1, base, n, x, hist)
    ensures Leaves(h, ev, SetVar(e1, name, value), base, n, x, hist + [Store(name, value)])
    ensures SetVar(e1, name, value).table == e1.table
  {
    hide Represents;
    SetVarKeeps(h, e1, name, value);
  }

  /** Division by zero stores the empty string and leaves it. */
  lemma ZeroLeaves(h: Host, ev: Ev, base: seq<int>, n: nat, name: string)
    requires Ready(h, ev, base, n, 0) && ev.stack == base
    ensures Leaves(h, ev, Push(SetVar(ev, name, ""), 0), base, n, VStr(""), ev.history + [Store(name, "")])
    ensures Push(SetVar(ev, name, ""), 0).table == ev.table
  {
    SetVarKeeps(h, ev, name, "");
    PushLeaves(h, SetVar(ev, name, ""), base, n, 0, VStr(""));
  }

  lemma SetLeaves(h: Host, ev: Ev, base: seq<int>, n: nat, v: int, x: Val, w: int, y: Val, name: string)
    requires Pair(h, ev, base, n, v, x, w, y)
    ensures var (r, hist) := ApplyAssign(h, Set, name, x, y, ev.history);
            var e1 := AssignSet(h, ev, name, w);
            Leaves(h, ev, e1, base, n, r, hist) && |e1.table| == |ev.table|
  {
    hide Represents, EvOk, Later, CachesOf, SymOk, OnlyAt, Untouched, GetLval, GetInt, GetFloat, GetBool,
         GetExpanded, AsName, AsText, AsInt, AsFloat, AsBool, StoreNew, PushNew, Push, SetVar;
    TextForced(h, ev, base, n, w, y, v, x);
    var (t, e1) := GetExpanded(h, ev, w);
    var (_, y1, hist) := AsText(h, y, ev.history);
    PushLeaves(h, e1, base, n, w, y1);
    LeavesAfter(h, ev, e1, Push(e1, w), base, n, y1, hist);
    SetVarLeaves(h, ev, Push(e1, w), base, n, y1, hist, name, t);
  }

  lemma AssignBoolLeaves(h: Host, ev: Ev, base: seq<int>, n: nat, v: int, x: Val, w: int, y: Val, name: string,
      b: BoolOp)
    requires Pair(h, ev, base, n, v, x, w, y) && |ev.table| < TOKENCOUNT
    ensures var (r, hist) := ApplyAssign(h, BoolSet(b), name, x, y, ev.history);
            var e1 := AssignBool(h, ev, name, v, w, b);
            Leaves(h, ev, e1, base, n, r, hist) && |e1.table| == |ev.table| + 1
  {
    hide Represents, EvOk, Later, CachesOf, SymOk, OnlyAt, Untouched, GetLval, GetInt, GetFloat, GetBool,
         GetExpanded, AsName, AsText, AsInt, AsFloat, AsBool, StoreNew, PushNew, Push, SetVar;
    BoolForced(h, ev, base, n, v, x, w, y);
    var (a, e1) := GetBool(h, ev, v);
    BoolForced(h, e1, base, n, w, y, v, AsBool(h, x, ev.history).1);
    var (c, e2) := GetBool(h, e1, w);
    UntouchedTrans(ev, e1, e2, n);
    var r := BoolResult(b, a, c);
    NewBool(h, r);
    StoreNewLeaves(h, e2, base, n, name, BoolSym(r), VBool(r));
    LeavesAfter(h, ev, e2, StoreNew(h, e2, name, BoolSym(r)), base, n, VBool(r),
      e2.history + [Store(name, ShowBool(r))]);
  }

  lemma UntouchedTrans(e0: Ev, e1: Ev, e2: Ev, n: nat)
    requires Untouched(e0, e1, n) && Untouched(e1, e2, n)
    ensures Untouched(e0, e2, n)
  {
  }

  lemma AssignIntLeaves(h: Host, ev: Ev, base: seq<int>, n: nat, v: int, x: Val, w: int, y: Val, name: string, i: IntOp)
    requires Pair(h, ev, base, n, v, x, w, y) && i != Mod && |ev.table| < TOKENCOUNT
    ensures var (r, hist) := ApplyAssign(h, IntSet(i), name, x, y, ev.history);
            var e1 := AssignInt(h, ev, name, v, w, i);
            Leaves(h, ev, e1, base, n, r, hist) && |e1.table| == |ev.table| + 1
  {
    hide Represents, EvOk, Later, CachesOf, SymOk, OnlyAt, Untouched, GetLval, GetInt, GetFloat, GetBool,
         GetExpanded, AsName, AsText, AsInt, AsFloat, AsBool, StoreNew, PushNew, Push, SetVar;
    IntForced(h, ev, base, n, v, x, w, y);
    var (a, e1) := GetInt(h, ev, v);
    IntForced(h, e1, base, n, w, y, v, AsInt(h, x, ev.history).1);
    var (c, e2) := GetInt(h, e1, w);
    UntouchedTrans(ev, e1, e2, n);
    var r := h.intOp(i, a, c);
    NewInt(h, r);
    StoreNewLeaves(h, e2, base, n, name, IntSym(r), VInt(r));
    LeavesAfter(h, ev, e2, StoreNew(h, e2, name, IntSym(r)), base, n, VInt(r),
      e2.history + [Store(name, h.showInt(r))]);
  }

  lemma AssignModLeaves(h: Host, ev: Ev, base: seq<int>, n: nat, v: int, x: Val, w: int, y: Val, name: string)
    requires Pair(h, ev, base, n, v, x, w, y)
    requires |ev.table| + AssignEntries(IntSet(Mod), ApplyAssign(h, IntSet(Mod), name, x, y, ev.history).0)
             <= TOKENCOUNT
    ensures var (r, hist) := ApplyAssign(h, IntSet(Mod), name, x, y, ev.history);
            var e1 := AssignInt(h, ev, name, v, w, Mod);
            Leaves(h, ev, e1, base, n, r, hist) && |e1.table| == |ev.table| + AssignEntries(IntSet(Mod), r)
  {
    hide Represents, EvOk, Later, CachesOf, SymOk, OnlyAt, Untouched, GetLval, GetInt, GetFloat, GetBool,
         GetExpanded, AsName, AsText, AsInt, AsFloat, AsBool, StoreNew, PushNew, Push, SetVar;
    FloatForced(h, ev, base, n, v, x, w, y);
    var (a, e1) := GetFloat(h, ev, v);
    FloatForced(h, e1, base, n, w, y, v, AsFloat(h, x, ev.history).1);
    var (c, e2) := GetFloat(h, e1, w);
    UntouchedTrans(ev, e1, e2, n);
    if h.trunc(c) == 0 {
      ZeroLeaves(h, e2, base, n, name);
      LeavesAfter(h, ev, e2, Push(SetVar(e2, name, ""), 0), base, n, VStr(""), e2.history + [Store(name, "")]);
    } else {
      var r := h.fromInt(h.intOp(Mod, h.trunc(a), h.trunc(c)));
      NewDouble(h, r);
      StoreNewLeaves(h, e2, base, n, name, DoubleSym(r), VFloat(r));
      LeavesAfter(h, ev, e2, StoreNew(h, e2, name, DoubleSym(r)), base, n, VFloat(r),
        e2.history + [Store(name, h.showDouble(r))]);
    }
  }

  lemma AssignFloatLeaves(h: Host, ev: Ev, base: seq<int>, n: nat, v: int, x: Val, w: int, y: Val, name: string,
      f: FloatOp)
    requires Pair(h, ev, base, n, v, x, w, y)
    requires |ev.table| + AssignEntries(FloatSet(f), ApplyAssign(h, FloatSet(f), name, x, y, ev.history).0)
             <= TOKENCOUNT
    ensures var (r, hist) := ApplyAssign(h, FloatSet(f), name, x, y, ev.history);
            var e1 := AssignFloat(h, ev, name, v, w, f);
            Leaves(h, ev, e1, base, n, r, hist) && |e1.table| == |ev.table| + AssignEntries(FloatSet(f), r)
  {
    hide Represents, EvOk, Later, CachesOf, SymOk, OnlyAt, Untouched, GetLval, GetInt, GetFloat, GetBool,
         GetExpanded, AsName, AsText, AsInt, AsFloat, AsBool, StoreNew, PushNew, Push, SetVar;
    FloatForced(h, ev, base, n, v, x, w, y);
    var (a, e1) := GetFloat(h, ev, v);
    FloatForced(h, e1, base, n, w, y, v, AsFloat(h, x, ev.history).1);
    var (c, e2) := GetFloat(h, e1, w);
    UntouchedTrans(ev, e1, e2, n);
    if f == Div && h.isZero(c) {
      ZeroLeaves(h, e2, base, n, name);
      LeavesAfter(h, ev, e2, Push(SetVar(e2, name, ""), 0), base, n, VStr(""), e2.history + [Store(name, "")]);
    } else {
      var r := h.floatOp(f, a, c);
      NewDouble(h, r);
      StoreNewLeaves(h, e2, base, n, name, DoubleSym(r), VFloat(r));
      LeavesAfter(h, ev, e2, StoreNew(h, e2, name, DoubleSym(r)), base, n, VFloat(r),
        e2.history + [Store(name, h.showDouble(r))]);
    }
  }

  /** Concatenation of `x` (forced first) and `y`. */
  lemma AssignCatLeaves(h: Host, ev: Ev, base: seq<int>, n: nat, v: int, x: Val, w: int, y: Val, name: string)
    requires Pair(h, ev, base, n, v, x, w, y) && |ev.table| < TOKENCOUNT
    ensures var (s, _, hist1) := AsText(h, x, ev.history);
            var (t, _, hist2) := AsText(h, y, hist1);
            var e1 := AssignCat(h, ev, name, v, w);
            Leaves(h, ev, e1, base, n, VStr(s + t), hist2 + [Store(name, s + t)]) && |e1.table| == |ev.table| + 1
  {
    hide Represents, EvOk, Later, CachesOf, SymOk, OnlyAt, Untouched, GetLval, GetInt, GetFloat, GetBool,
         GetExpanded, AsName, AsText, AsInt, AsFloat, AsBool, StoreNew, PushNew, Push, SetVar;
    TextForced(h, ev, base, n, v, x, w, y);
    var (s, e1) := GetExpanded(h, ev, v);
    TextForced(h, e1, base, n, w, y, v, AsText(h, x, ev.history).1);
    var (t, e2) := GetExpanded(h, e1, w);
    UntouchedTrans(ev, e1, e2, n);
    NewText(h, s + t);
    PushNewLeaves(h, e2, base, n, ExpandedSym(s + t), VStr(s + t));
    var e3 := PushNew(e2, ExpandedSym(s + t));
    LeavesAfter(h, ev, e2, e3, base, n, VStr(s + t), e2.history);
    SetVarLeaves(h, ev, e3, base, n, VStr(s + t), e2.history, name, s + t);
  }

  /** Two stores, then one of the operands is pushed back. */
  lemma SwapStores(h: Host, ev: Ev, base: seq<int>, n: nat, v: int, x: Val, w: int, y: Val,
                   n1: string, t1: string, n2: string, t2: string)
    requires Pair(h, ev, base, n, v, x, w, y)
    ensures var e1 := Push(SetVar(SetVar(ev, n1, t1), n2, t2), w);
            Leaves(h, ev, e1, base, n, y, ev.history + [Store(n1, t1)] + [Store(n2, t2)]) && e1.table == ev.table
  {
    hide Represents, Push;
    SetVarKeeps(h, ev, n1, t1);
    SetVarKeeps(h, SetVar(ev, n1, t1), n2, t2);
    PushLeaves(h, SetVar(SetVar(ev, n1, t1), n2, t2), base, n, w, y);
  }

  lemma SwapLeaves(h: Host, ev: Ev, base: seq<int>, n: nat, v: int, x: Val, w: int, y: Val, name: string)
    requires Pair(h, ev, base, n, v, x, w, y)
    ensures var (r, hist) := ApplyAssign(h, Swap, name, x, y, ev.history);
            var e1 := AssignSwap(h, ev, name, v, w);
            Leaves(h, ev, e1, base, n, r, hist) && |e1.table| == |ev.table|
  {
    hide Represents, EvOk, Later, CachesOf, SymOk, OnlyAt, Untouched, GetLval, GetInt, GetFloat, GetBool,
         GetExpanded, AsName, AsText, AsInt, AsFloat, AsBool, StoreNew, PushNew, Push, SetVar;
    NameForced(h, ev, base, n, w, y, v, x);
    var (name2, e1) := GetLval(h, ev, w);
    var y1 := AsName(h, y, ev.history).1;
    if name2.None? {
      ZeroOperand(h, e1, base, n);
      LeavesAfter(h, ev, e1, Push(e1, 0), base, n, VStr(""), e1.history);
    } else {
      TextForced(h, e1, base, n, v, x, w, y1);
      var (s, e2) := GetExpanded(h, e1, v);
      TextForced(h, e2, base, n, w, y1, v, AsText(h, x, e1.history).1);
      var (t, e3) := GetExpanded(h, e2, w);
      var y2 := AsText(h, y1, e2.history).1;
      UntouchedTrans(ev, e1, e2, n);
      UntouchedTrans(ev, e2, e3, n);
      SwapStores(h, e3, base, n, v, AsText(h, x, e1.history).1, w, y2, name, t, name2.value, s);
      LeavesAfter(h, ev, e3, Push(SetVar(SetVar(e3, name, t), name2.value, s), w), base, n, y2,
                  e3.history + [Store(name, t)] + [Store(name2.value, s)]);
    }
  }

  lemma DispatchLeaves(h: Host, ev: Ev, base: seq<int>, n: nat, v: int, x: Val, w: int, y: Val, name: string,
      a: AssignOp)
    requires Pair(h, ev, base, n, v, x, w, y)
    requires |ev.table| + AssignEntries(a, ApplyAssign(h, a, name, x, y, ev.history).0) <= TOKENCOUNT
    ensures var (r, hist) := ApplyAssign(h, a, name, x, y, ev.history);
            var e1 := DispatchAssign(h, ev, a, name, v, w);
            Leaves(h, ev, e1, base, n, r, hist) && |e1.table| == |ev.table| + AssignEntries(a, r)
  {
    hide Represents, EvOk, Later, CachesOf, Holds, AsName, AsText, AsInt, AsFloat, AsBool;
    hide AssignSet, AssignInt, AssignFloat, AssignBool, AssignCat, AssignSwap, Leaves;
    match a
    case Set => SetLeaves(h, ev, base, n, v, x, w, y, name);
    case IntSet(i) =>
      if i == Mod {
        AssignModLeaves(h, ev, base, n, v, x, w, y, name);
      } else {
        AssignIntLeaves(h, ev, base, n, v, x, w, y, name, i);
      }
    case FloatSet(f) => AssignFloatLeaves(h, ev, base, n, v, x, w, y, name, f);
    case BoolSet(b) => AssignBoolLeaves(h, ev, base, n, v, x, w, y, name, b);
    case CatSet => AssignCatLeaves(h, ev, base, n, v, x, w, y, name);
    case PreSet => AssignCatLeaves(h, ev, base, n, w, y, v, x, name);
    case Swap => SwapLeaves(h, ev, base, n, v, x, w, y, name);
  }

  lemma AssignLeaves(h: Host, ev: Ev, base: seq<int>, n: nat, v: int, x: Val, w: int, y: Val, a: AssignOp)
    requires Ready2(h, ev, base, n, BinaryEntries(Assign(a), x, ApplyBinary(h, Assign(a), x, y, ev.history).0),
                    v, x, w, y)
    ensures var (r, hist) := ApplyBinary(h, Assign(a), x, y, ev.history);
            var e1 := ReduceAssign(h, ev, a);
            Leaves(h, ev, e1, base, n, r, hist) && |e1.table| == |ev.table| + BinaryEntries(Assign(a), x, r)
  {
    hide Represents, EvOk, Later, CachesOf, SymOk, OnlyAt, Untouched, GetLval, GetInt, GetFloat, GetBool,
         GetExpanded, AsName, AsText, AsInt, AsFloat, AsBool, StoreNew, PushNew, Push, SetVar, DispatchAssign,
         ApplyAssign, Pop;
    PopBoth(h, ev, base, n, v, x, w, y);
    var e2 := ev.(stack := base);
    NameForced(h, e2, base, n, v, x, w, y);
    var (name, e3) := GetLval(h, e2, v);
    assert Untouched(ev, e3, n) by { SameTable(ev, e2, e3, n); }
    OnlyRefsNamed(h, x, ev.history);
    if name.None? {
      ZeroOperand(h, e3, base, n);
      LeavesAfter(h, ev, e3, Push(e3, 0), base, n, VStr(""), e3.history);
    } else {
      var x1 := AsName(h, x, ev.history).1;
      DispatchLeaves(h, e3, base, n, v, x1, w, y, name.value, a);
      var (r, hist) := ApplyAssign(h, a, name.value, x1, y, e3.history);
      LeavesAfter(h, ev, e3, DispatchAssign(h, e3, a, name.value, v, w), base, n, r, hist);
    }
  }

  lemma SameTable(ev: Ev, e2: Ev, e3: Ev, n: nat)
    requires Untouched(e2, e3, n) && e2.table == ev.table
    ensures Untouched(ev, e3, n)
  {
  }

  /** Every binary reduction computes the operator. */
  lemma BinaryLeaves(h: Host, ev: Ev, base: seq<int>, n: nat, v: int, x: Val, w: int, y: Val, b: BinOp)
    requires Ready2(h, ev, base, n, BinaryEntries(b, x, ApplyBinary(h, b, x, y, ev.history).0), v, x, w, y)
    ensures var (r, hist) := ApplyBinary(h, b, x, y, ev.history);
            var e1 := Reduce(h, ev, Binary(b));
            Leaves(h, ev, e1, base, n, r, hist) && |e1.table| == |ev.table| + BinaryEntries(b, x, r)
  {
    hide Represents, EvOk, Later, CachesOf, SymOk, OnlyAt, Untouched, GetLval, GetInt, GetFloat, GetBool,
         GetExpanded, AsName, AsText, AsInt, AsFloat, AsBool, StoreNew, PushNew, Push, SetVar, ReduceInt,
         ReduceFloat, ReduceBool, ReduceStrCat, ReduceCompare, ReduceAssign, ReduceComma, Leaves;
    match b
    case Int(i) => IntLeaves(h, ev, base, n, v, x, w, y, i);
    case Float(f) => FloatLeaves(h, ev, base, n, v, x, w, y, f);
    case Bool(o) => BoolLeaves(h, ev, base, n, v, x, w, y, o);
    case StrCat => StrCatLeaves(h, ev, base, n, v, x, w, y);
    case Compare(c) => CompareLeaves(h, ev, base, n, v, x, w, y, c);
    case Assign(a) => AssignLeaves(h, ev, base, n, v, x, w, y, a);
    case Comma => CommaLeaves(h, ev, base, n, v, x, w, y);
  }
}
