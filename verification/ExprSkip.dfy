/** The reducer while nothing is evaluated (noeval > 0): operands are dummies, variables are not
    looked up, and the only stores possible are of the empty string to the nameless variable. */
module ExprSkip {
  import opened Options
  import opened ExprSyntax
  import opened ExprMachine
  import opened ExprEval
  import opened ExprReduce

  /** Whatever number the entry has, its own or a cached conversion, is the one the dummy counts as. */
  ghost predicate DummyCaches(h: Host, s: Sym, d: Dummy) {
    && (s.integer.Some? ==> s.integer.value == DummyInt(h, d))
    && (s.float.Some? ==> s.float.value == DummyFloat(h, d))
    && (s.boolean.Some? ==> s.boolean.value == DummyBool(h, d))
  }

  /** Handle `v` is dummy operand `d`, perhaps with conversions made while skipping. */
  ghost predicate DummyUsed(h: Host, ev: Ev, v: int, d: Dummy) {
    if v == 0 then d == Inert else
    && 0 < v < |ev.table| && ev.table[v].raw == None && DummyCaches(h, ev.table[v], d)
    && var s := ev.table[v];
       match d
       case Inert => s.lval == None && s.expanded.Some?
       case Whole(_) => s.lval == None && s.integer.Some?
       case Real(_) => s.lval == None && s.float.Some?
       case Flag(_) => s.lval == None && s.boolean.Some?
       case Nameless => s.lval == Some("") && s.expanded == None
  }

  /** Handle `v` is dummy operand `d`; a nameless reference has not been looked at. */
  ghost predicate DummyAt(h: Host, ev: Ev, v: int, d: Dummy) {
    DummyUsed(h, ev, v, d) && (d.Nameless? ==> ev.table[v] == LvalSym(""))
  }

  ghost predicate DummyOperand(h: Host, ev: Ev, n: nat, v: int, d: Dummy) {
    DummyAt(h, ev, v, d) && (v == 0 || v >= n)
  }

  ghost predicate DeadLeaves(h: Host, ev: Ev, e1: Ev, base: seq<int>, n: nat, d: Dummy, hist: History) {
    && Good(h, e1) && e1.noeval == ev.noeval && e1.history == hist
    && |e1.stack| == |base| + 1 && e1.stack[..|base|] == base
    && DummyOperand(h, e1, n, e1.stack[|base|], d)
    && Untouched(ev, e1, n)
  }

  ghost predicate DeadReady(h: Host, ev: Ev, base: seq<int>, n: nat, room: nat) {
    && Good(h, ev) && ev.noeval != 0
    && 1 <= n <= |ev.table| && |ev.table| + room <= TOKENCOUNT && |base| < STACKSZ
  }

  ghost predicate DeadReady1(h: Host, ev: Ev, base: seq<int>, n: nat, room: nat, v: int, d: Dummy) {
    DeadReady(h, ev, base, n, room) && ev.stack == base + [v] && DummyOperand(h, ev, n, v, d)
  }

  ghost predicate DeadReady2(h: Host, ev: Ev, base: seq<int>, n: nat, room: nat, v: int, d: Dummy, w: int, f: Dummy) {
    && DeadReady(h, ev, base, n, room) && ev.stack == base + [v, w]
    && DummyOperand(h, ev, n, v, d) && DummyOperand(h, ev, n, w, f)
    && (v == w ==> v == 0)
  }

  // ---------- conversions ----------

  /** No conversion of a dummy reaches the client. */
  lemma DeadConversions(h: Host, ev: Ev, v: int, d: Dummy)
    requires Good(h, ev) && ev.noeval != 0 && DummyUsed(h, ev, v, d)
    ensures GetExpanded(h, ev, v) == ("", ev)
    ensures GetLval(h, ev, v) == (if d.Nameless? then Some("") else None, ev)
  {
    hide SymLe, Lookups;
  }

  lemma DeadInt(h: Host, ev: Ev, v: int, d: Dummy)
    requires Good(h, ev) && ev.noeval != 0 && DummyUsed(h, ev, v, d)
    ensures var (x, e1) := GetInt(h, ev, v);
            x == DummyInt(h, d) && e1.history == ev.history
            && Good(h, e1) && DummyUsed(h, e1, v, d) && OnlyAt(ev, e1, v)
  {
    hide SymLe, Lookups, GetExpanded;
    DeadConversions(h, ev, v, d);
  }

  lemma DeadFloat(h: Host, ev: Ev, v: int, d: Dummy)
    requires Good(h, ev) && ev.noeval != 0 && DummyUsed(h, ev, v, d)
    ensures var (x, e1) := GetFloat(h, ev, v);
            x == DummyFloat(h, d) && e1.history == ev.history
            && Good(h, e1) && DummyUsed(h, e1, v, d) && OnlyAt(ev, e1, v)
  {
    hide SymLe, Lookups, GetExpanded;
    DeadConversions(h, ev, v, d);
  }

  lemma DeadBool(h: Host, ev: Ev, v: int, d: Dummy)
    requires Good(h, ev) && ev.noeval != 0 && DummyUsed(h, ev, v, d)
    ensures var (x, e1) := GetBool(h, ev, v);
            x == DummyBool(h, d) && e1.history == ev.history
            && Good(h, e1) && DummyUsed(h, e1, v, d) && OnlyAt(ev, e1, v)
  {
    hide SymLe, Lookups, GetExpanded;
    DeadConversions(h, ev, v, d);
  }

  // ---------- pushing ----------

  predicate Makes(s: Sym, d: Dummy) {
    match d
    case Inert => s == ExpandedSym("")
    case Whole(i) => s == IntSym(i)
    case Real(r) => s == DoubleSym(r)
    case Flag(b) => s == BoolSym(b)
    case Nameless => s == LvalSym("")
  }

  lemma DeadPushNew(h: Host, ev: Ev, base: seq<int>, n: nat, s: Sym, d: Dummy)
    requires DeadReady(h, ev, base, n, 1) && ev.stack == base && SymOk(s) && Makes(s, d)
    ensures DeadLeaves(h, ev, PushNew(ev, s), base, n, d, ev.history)
    ensures |PushNew(ev, s).table| == |ev.table| + 1
  {
  }

  lemma DeadPush(h: Host, ev: Ev, base: seq<int>, n: nat, v: int, d: Dummy)
    requires DeadReady(h, ev, base, n, 0) && ev.stack == base && DummyOperand(h, ev, n, v, d)
    ensures DeadLeaves(h, ev, Push(ev, v), base, n, d, ev.history)
    ensures Push(ev, v).table == ev.table
  {
  }

  /** The one store a skipped branch can make. */
  lemma DeadSetVar(h: Host, ev: Ev)
    requires Good(h, ev)
    ensures Good(h, SetVar(ev, "", "")) && SetVar(ev, "", "") == ev.(history := ev.history + EmptyStores(1))
  {
    assert EmptyStores(1) == [Store("", "")];
  }

  lemma DeadStoreText(h: Host, ev: Ev, base: seq<int>, n: nat, s: Sym, d: Dummy)
    requires DeadReady(h, ev, base, n, 1) && ev.stack == base && SymOk(s) && Makes(s, d)
    ensures var (w, e1) := StoreText(h, ev, "", s);
            Good(h, e1) && e1.history == ev.history + EmptyStores(1) && e1.stack == base && e1.noeval == ev.noeval
            && DummyOperand(h, e1, n, w, d) && Untouched(ev, e1, n) && |e1.table| == |ev.table| + 1
  {
    hide SymLe, Lookups;
    var (w, e1) := Tokenize(ev, s);
    assert DummyAt(h, e1, w, d);
    DeadConversions(h, e1, w, d);
    DeadSetVar(h, e1);
  }

  lemma DeadStoreNew(h: Host, ev: Ev, base: seq<int>, n: nat, s: Sym, d: Dummy)
    requires DeadReady(h, ev, base, n, 1) && ev.stack == base && SymOk(s) && Makes(s, d)
    ensures DeadLeaves(h, ev, StoreNew(h, ev, "", s), base, n, d, ev.history + EmptyStores(1))
    ensures |StoreNew(h, ev, "", s).table| == |ev.table| + 1
  {
    hide StoreText, SymLe, Lookups;
    DeadStoreText(h, ev, base, n, s, d);
    var (w, e1) := StoreText(h, ev, "", s);
    DeadPush(h, e1, base, n, w, d);
  }

  lemma DeadAfter(h: Host, ev: Ev, e1: Ev, e2: Ev, base: seq<int>, n: nat, d: Dummy, hist: History)
    requires DeadLeaves(h, e1, e2, base, n, d, hist) && Untouched(ev, e1, n) && e1.noeval == ev.noeval
    ensures DeadLeaves(h, ev, e2, base, n, d, hist)
  {
    hide EvOk, CachesOf, DummyUsed;
  }

  lemma NoStores(hist: History)
    ensures hist + EmptyStores(0) == hist
  {
  }

  // ---------- unary operators ----------

  lemma DeadBump(h: Host, ev: Ev, base: seq<int>, n: nat, v: int, d: Dummy, delta: int, result: int)
    requires DeadReady1(h, ev, base, n, if d.Nameless? then 2 else 0, v, d)
    ensures var e1 := AutoUnary(h, ev, delta, result);
            DeadLeaves(h, ev, e1, base, n, if d.Nameless? then Whole(DummyInt(h, d) + result) else Inert,
                       ev.history + EmptyStores(if d.Nameless? then 1 else 0))
            && |e1.table| == |ev.table| + (if d.Nameless? then 2 else 0)
  {
    hide EvOk, Later, CachesOf, DummyUsed, GetLval, GetInt, StoreText, PushNew, Push;
    PopOne(ev, base, v);
    var e1 := Pop(ev).1;
    assert DummyAt(h, e1, v, d) by { DummySameTable(h, ev, e1, v, d); }
    DeadConversions(h, e1, v, d);
    if d.Nameless? {
      DeadInt(h, e1, v, d);
      var (j, e3) := GetInt(h, e1, v);
      DeadStoreText(h, e3, base, n, IntSym(j + delta), Whole(j + delta));
      var e4 := StoreText(h, e3, "", IntSym(j + delta)).1;
      DeadPushNew(h, e4, base, n, IntSym(j + result), Whole(j + result));
    } else {
      NoStores(ev.history);
      assert DummyAt(h, e1, 0, Inert) by { ZeroInert(h, e1); }
      DeadPush(h, e1, base, n, 0, Inert);
    }
  }

  lemma ZeroInert(h: Host, ev: Ev)
    ensures DummyAt(h, ev, 0, Inert)
  {
  }

  lemma DummySameTable(h: Host, ev: Ev, e1: Ev, v: int, d: Dummy)
    requires DummyAt(h, ev, v, d) && (v == 0 || (|ev.table| <= |e1.table| && e1.table[v] == ev.table[v]))
    ensures DummyAt(h, e1, v, d)
  {
  }

  lemma DeadNot(h: Host, ev: Ev, base: seq<int>, n: nat, v: int, d: Dummy)
    requires DeadReady1(h, ev, base, n, 1, v, d)
    ensures var e1 := ReduceNot(h, ev);
            DeadLeaves(h, ev, e1, base, n, Flag(!DummyBool(h, d)), ev.history) && |e1.table| == |ev.table| + 1
  {
    hide EvOk, Later, CachesOf, GetLval, GetInt, GetFloat, GetBool, GetExpanded, StoreText, StoreNew, PushNew, Push,
         SetVar, DummyUsed;
    PopOne(ev, base, v);
    var e1 := Pop(ev).1;
    assert DummyAt(h, e1, v, d) by { DummySameTable(h, ev, e1, v, d); }
    DeadBool(h, e1, v, d);
    var (a, e2) := GetBool(h, e1, v);
    DeadPushNew(h, e2, base, n, BoolSym(!a), Flag(!DummyBool(h, d)));
  }

  lemma DeadComp(h: Host, ev: Ev, base: seq<int>, n: nat, v: int, d: Dummy)
    requires DeadReady1(h, ev, base, n, 1, v, d)
    ensures var e1 := ReduceComp(h, ev);
            DeadLeaves(h, ev, e1, base, n, Whole(h.complement(DummyInt(h, d))), ev.history)
            && |e1.table| == |ev.table| + 1
  {
    hide EvOk, Later, CachesOf, GetLval, GetInt, GetFloat, GetBool, GetExpanded, StoreText, StoreNew, PushNew, Push,
         SetVar, DummyUsed;
    PopOne(ev, base, v);
    var e1 := Pop(ev).1;
    assert DummyAt(h, e1, v, d) by { DummySameTable(h, ev, e1, v, d); }
    DeadInt(h, e1, v, d);
    var (a, e2) := GetInt(h, e1, v);
    DeadPushNew(h, e2, base, n, IntSym(h.complement(a)), Whole(h.complement(a)));
  }

  lemma DeadSign(h: Host, ev: Ev, base: seq<int>, n: nat, v: int, d: Dummy, minus: bool)
    requires DeadReady1(h, ev, base, n, 1, v, d)
    ensures var e1 := ReduceSign(h, ev, minus);
            DeadLeaves(h, ev, e1, base, n, SkipUnary(h, if minus then UMinus else UPlus, d), ev.history)
            && |e1.table| == |ev.table| + 1
  {
    hide EvOk, Later, CachesOf, GetLval, GetInt, GetFloat, GetBool, GetExpanded, StoreText, StoreNew, PushNew, Push,
         SetVar, DummyUsed;
    PopOne(ev, base, v);
    var e1 := Pop(ev).1;
    assert DummyAt(h, e1, v, d) by { DummySameTable(h, ev, e1, v, d); }
    DeadFloat(h, e1, v, d);
    var (a, e2) := GetFloat(h, e1, v);
    var r := if minus then h.negate(a) else a;
    DeadPushNew(h, e2, base, n, DoubleSym(r), Real(r));
  }

  lemma DeadLength(h: Host, ev: Ev, base: seq<int>, n: nat, v: int, d: Dummy, words: bool)
    requires DeadReady1(h, ev, base, n, 1, v, d)
    ensures var e1 := ReduceLength(h, ev, words);
            DeadLeaves(h, ev, e1, base, n, Whole(if words then h.wordCount("") else 0), ev.history)
            && |e1.table| == |ev.table| + 1
  {
    hide EvOk, Later, CachesOf, GetLval, GetInt, GetFloat, GetBool, GetExpanded, StoreText, StoreNew, PushNew, Push,
         SetVar, DummyUsed;
    PopOne(ev, base, v);
    var e1 := Pop(ev).1;
    assert DummyAt(h, e1, v, d) by { DummySameTable(h, ev, e1, v, d); }
    DeadConversions(h, e1, v, d);
    var (a, e2) := GetExpanded(h, e1, v);
    var r := if words then h.wordCount(a) else |a|;
    DeadPushNew(h, e2, base, n, IntSym(r), Whole(r));
  }

  lemma DeadDeref(h: Host, ev: Ev, base: seq<int>, n: nat, v: int, d: Dummy)
    requires DeadReady1(h, ev, base, n, 1, v, d)
    ensures var e1 := ReduceDeref(h, ev);
            DeadLeaves(h, ev, e1, base, n, Nameless, ev.history) && |e1.table| == |ev.table| + 1
  {
    hide EvOk, Later, CachesOf, GetLval, GetInt, GetFloat, GetBool, GetExpanded, StoreText, StoreNew, PushNew, Push,
         SetVar;
    PopOne(ev, base, v);
    var e1 := Pop(ev).1;
    assert DummyAt(h, e1, v, d) by { DummySameTable(h, ev, e1, v, d); }
    DeadConversions(h, e1, v, d);
    var (a, e2) := GetExpanded(h, e1, v);
    DeadPushNew(h, e2, base, n, LvalSym(a), Nameless);
  }

  lemma DeadUnary(h: Host, ev: Ev, base: seq<int>, n: nat, v: int, d: Dummy, u: UnOp)
    requires DeadReady1(h, ev, base, n, SkipUnaryEntries(u, d), v, d)
    ensures var e1 := Reduce(h, ev, Unary(u));
            DeadLeaves(h, ev, e1, base, n, SkipUnary(h, u, d), ev.history + EmptyStores(SkipUnaryStores(u, d)))
            && |e1.table| == |ev.table| + SkipUnaryEntries(u, d)
  {
    hide EvOk, Later, CachesOf, DummyUsed, AutoUnary, ReduceNot, ReduceComp, ReduceSign, ReduceLength, ReduceDeref;
    NoStores(ev.history);
    match u
    case PrePlus => DeadBump(h, ev, base, n, v, d, 1, 1);
    case PreMinus => DeadBump(h, ev, base, n, v, d, -1, -1);
    case PostPlus => DeadBump(h, ev, base, n, v, d, 1, 0);
    case PostMinus => DeadBump(h, ev, base, n, v, d, -1, 0);
    case Not => DeadNot(h, ev, base, n, v, d);
    case Comp => DeadComp(h, ev, base, n, v, d);
    case UPlus => DeadSign(h, ev, base, n, v, d, false);
    case UMinus => DeadSign(h, ev, base, n, v, d, true);
    case StrLen => DeadLength(h, ev, base, n, v, d, false);
    case WordC => DeadLength(h, ev, base, n, v, d, true);
    case Deref => DeadDeref(h, ev, base, n, v, d);
  }

  // ---------- binary operators ----------

  /** Two dummies are off the stack. */
  ghost predicate DeadPair(h: Host, ev: Ev, base: seq<int>, n: nat, v: int, d: Dummy, w: int, f: Dummy) {
    && DeadReady(h, ev, base, n, 0) && ev.stack == base
    && DummyUsed(h, ev, v, d) && (v == 0 || v >= n)
    && DummyUsed(h, ev, w, f) && (w == 0 || w >= n)
    && (v == w ==> v == 0)
  }

  lemma DeadPairForced(h: Host, ev: Ev, e1: Ev, base: seq<int>, n: nat, v: int, d: Dummy, w: int, f: Dummy)
    requires DeadPair(h, ev, base, n, v, d, w, f) && Quiet(ev, e1)
    requires Good(h, e1) && DummyUsed(h, e1, v, d) && OnlyAt(ev, e1, v)
    ensures DeadPair(h, e1, base, n, v, d, w, f) && Forced(ev, e1, n)
  {
    hide EvOk, CachesOf, Later;
  }

  lemma DeadIntForced(h: Host, ev: Ev, base: seq<int>, n: nat, v: int, d: Dummy, w: int, f: Dummy)
    requires DeadPair(h, ev, base, n, v, d, w, f)
    ensures var (x, e1) := GetInt(h, ev, v);
            x == DummyInt(h, d) && e1.history == ev.history && DeadPair(h, e1, base, n, v, d, w, f) && Forced(ev, e1, n)
  {
    hide EvOk, CachesOf, Later, DummyUsed, GetInt;
    DeadInt(h, ev, v, d);
    DeadPairForced(h, ev, GetInt(h, ev, v).1, base, n, v, d, w, f);
  }

  lemma DeadFloatForced(h: Host, ev: Ev, base: seq<int>, n: nat, v: int, d: Dummy, w: int, f: Dummy)
    requires DeadPair(h, ev, base, n, v, d, w, f)
    ensures var (x, e1) := GetFloat(h, ev, v);
            x == DummyFloat(h, d) && e1.history == ev.history && DeadPair(h, e1, base, n, v, d, w, f)
            && Forced(ev, e1, n)
  {
    hide EvOk, CachesOf, Later, DummyUsed, GetFloat;
    DeadFloat(h, ev, v, d);
    DeadPairForced(h, ev, GetFloat(h, ev, v).1, base, n, v, d, w, f);
  }

  lemma DeadBoolForced(h: Host, ev: Ev, base: seq<int>, n: nat, v: int, d: Dummy, w: int, f: Dummy)
    requires DeadPair(h, ev, base, n, v, d, w, f)
    ensures var (x, e1) := GetBool(h, ev, v);
            x == DummyBool(h, d) && e1.history == ev.history && DeadPair(h, e1, base, n, v, d, w, f)
              && Forced(ev, e1, n)
  {
    hide EvOk, CachesOf, Later, DummyUsed, GetBool;
    DeadBool(h, ev, v, d);
    DeadPairForced(h, ev, GetBool(h, ev, v).1, base, n, v, d, w, f);
  }

  lemma DeadPopInts(h: Host, ev: Ev, base: seq<int>, n: nat, room: nat, v: int, d: Dummy, w: int, f: Dummy)
    requires DeadReady2(h, ev, base, n, room, v, d, w, f)
    ensures var (a, b, e1) := PopInts(h, ev);
            a == DummyInt(h, d) && b == DummyInt(h, f) && e1.history == ev.history && e1.stack == base
            && e1.noeval == ev.noeval
            && DeadReady(h, e1, base, n, room) && Untouched(ev, e1, n) && |e1.table| == |ev.table|
  {
    hide EvOk, Later, CachesOf, GetLval, GetInt, GetFloat, GetBool, GetExpanded, StoreText, StoreNew, PushNew, Push,
         SetVar, DummyUsed;
    PopTwo(ev, base, v, w);
    var e1 := Pop(ev).1;
    assert DummyAt(h, e1, w, f) by { DummySameTable(h, ev, e1, w, f); }
    DeadInt(h, e1, w, f);
    var e2 := GetInt(h, e1, w).1;
    PopOne(e2, base, v);
    var e3 := Pop(e2).1;
    assert DummyAt(h, e3, v, d) by { DummySameTable(h, ev, e3, v, d); }
    DeadInt(h, e3, v, d);
  }

  lemma DeadPopFloats(h: Host, ev: Ev, base: seq<int>, n: nat, room: nat, v: int, d: Dummy, w: int, f: Dummy)
    requires DeadReady2(h, ev, base, n, room, v, d, w, f)
    ensures var (a, b, e1) := PopFloats(h, ev);
            a == DummyFloat(h, d) && b == DummyFloat(h, f) && e1.history == ev.history && e1.stack == base
            && e1.noeval == ev.noeval
            && DeadReady(h, e1, base, n, room) && Untouched(ev, e1, n) && |e1.table| == |ev.table|
  {
    hide EvOk, Later, CachesOf, GetLval, GetInt, GetFloat, GetBool, GetExpanded, StoreText, StoreNew, PushNew, Push,
         SetVar, DummyUsed;
    PopTwo(ev, base, v, w);
    var e1 := Pop(ev).1;
    assert DummyAt(h, e1, w, f) by { DummySameTable(h, ev, e1, w, f); }
    DeadFloat(h, e1, w, f);
    var e2 := GetFloat(h, e1, w).1;
    PopOne(e2, base, v);
    var e3 := Pop(e2).1;
    assert DummyAt(h, e3, v, d) by { DummySameTable(h, ev, e3, v, d); }
    DeadFloat(h, e3, v, d);
  }

  lemma DeadPopBools(h: Host, ev: Ev, base: seq<int>, n: nat, room: nat, v: int, d: Dummy, w: int, f: Dummy)
    requires DeadReady2(h, ev, base, n, room, v, d, w, f)
    ensures var (a, b, e1) := PopBools(h, ev);
            a == DummyBool(h, d) && b == DummyBool(h, f) && e1.history == ev.history && e1.stack == base
              && e1.noeval == ev.noeval
            && DeadReady(h, e1, base, n, room) && Untouched(ev, e1, n) && |e1.table| == |ev.table|
  {
    hide EvOk, Later, CachesOf, GetLval, GetInt, GetFloat, GetBool, GetExpanded, StoreText, StoreNew, PushNew, Push,
         SetVar, DummyUsed;
    PopTwo(ev, base, v, w);
    var e1 := Pop(ev).1;
    assert DummyAt(h, e1, w, f) by { DummySameTable(h, ev, e1, w, f); }
    DeadBool(h, e1, w, f);
    var e2 := GetBool(h, e1, w).1;
    PopOne(e2, base, v);
    var e3 := Pop(e2).1;
    assert DummyAt(h, e3, v, d) by { DummySameTable(h, ev, e3, v, d); }
    DeadBool(h, e3, v, d);
  }

  lemma DeadPopStrings(h: Host, ev: Ev, base: seq<int>, n: nat, room: nat, v: int, d: Dummy, w: int, f: Dummy)
    requires DeadReady2(h, ev, base, n, room, v, d, w, f)
    ensures var (a, b, e1) := PopStrings(h, ev);
            a == "" && b == "" && e1.history == ev.history && e1.stack == base && e1.noeval == ev.noeval
            && DeadReady(h, e1, base, n, room) && Untouched(ev, e1, n) && |e1.table| == |ev.table|
  {
    hide EvOk, Later, CachesOf, GetLval, GetInt, GetFloat, GetBool, GetExpanded, StoreText, StoreNew, PushNew, Push,
         SetVar, DummyUsed;
    PopTwo(ev, base, v, w);
    var e1 := Pop(ev).1;
    assert DummyAt(h, e1, w, f) by { DummySameTable(h, ev, e1, w, f); }
    DeadConversions(h, e1, w, f);
    var e2 := GetExpanded(h, e1, w).1;
    PopOne(e2, base, v);
    var e3 := Pop(e2).1;
    assert DummyAt(h, e3, v, d) by { DummySameTable(h, ev, e3, v, d); }
    DeadConversions(h, e3, v, d);
  }

  lemma DeadIntOp(h: Host, ev: Ev, base: seq<int>, n: nat, v: int, d: Dummy, w: int, f: Dummy, i: IntOp)
    requires DeadReady2(h, ev, base, n, SkipBinaryEntries(Int(i), d, SkipBinary(h, Int(i), d, f)), v, d, w, f)
    ensures var e1 := ReduceInt(h, ev, i);
            DeadLeaves(h, ev, e1, base, n, SkipBinary(h, Int(i), d, f), ev.history)
            && |e1.table| == |ev.table| + SkipBinaryEntries(Int(i), d, SkipBinary(h, Int(i), d, f))
  {
    hide EvOk, Later, CachesOf, GetLval, GetInt, GetFloat, GetBool, GetExpanded, StoreText, StoreNew, PushNew, Push,
         SetVar, OnlyAt, Untouched, DummyAt, PopInts;
    DeadPopInts(h, ev, base, n, SkipBinaryEntries(Int(i), d, SkipBinary(h, Int(i), d, f)), v, d, w, f);
    var (a, b, e1) := PopInts(h, ev);
    if i == Mod && b == 0 {
      ZeroInert(h, e1);
      DeadPush(h, e1, base, n, 0, Inert);
      DeadAfter(h, ev, e1, Push(e1, 0), base, n, Inert, e1.history);
    } else {
      DeadPushNew(h, e1, base, n, IntSym(h.intOp(i, a, b)), Whole(h.intOp(i, a, b)));
      DeadAfter(h, ev, e1, PushNew(e1, IntSym(h.intOp(i, a, b))), base, n, Whole(h.intOp(i, a, b)), e1.history);
    }
  }

  lemma DeadFloatOp(h: Host, ev: Ev, base: seq<int>, n: nat, v: int, d: Dummy, w: int, f: Dummy, o: FloatOp)
    requires DeadReady2(h, ev, base, n, SkipBinaryEntries(Float(o), d, SkipBinary(h, Float(o), d, f)), v, d, w, f)
    ensures var e1 := ReduceFloat(h, ev, o);
            DeadLeaves(h, ev, e1, base, n, SkipBinary(h, Float(o), d, f), ev.history)
            && |e1.table| == |ev.table| + SkipBinaryEntries(Float(o), d, SkipBinary(h, Float(o), d, f))
  {
    hide EvOk, Later, CachesOf, GetLval, GetInt, GetFloat, GetBool, GetExpanded, StoreText, StoreNew, PushNew, Push,
         SetVar, OnlyAt, Untouched, DummyAt, PopFloats;
    DeadPopFloats(h, ev, base, n, SkipBinaryEntries(Float(o), d, SkipBinary(h, Float(o), d, f)), v, d, w, f);
    var (a, b, e1) := PopFloats(h, ev);
    if o == Div && h.isZero(b) {
      ZeroInert(h, e1);
      DeadPush(h, e1, base, n, 0, Inert);
      DeadAfter(h, ev, e1, Push(e1, 0), base, n, Inert, e1.history);
    } else {
      DeadPushNew(h, e1, base, n, DoubleSym(h.floatOp(o, a, b)), Real(h.floatOp(o, a, b)));
      DeadAfter(h, ev, e1, PushNew(e1, DoubleSym(h.floatOp(o, a, b))), base, n, Real(h.floatOp(o, a, b)), e1.history);
    }
  }

  lemma DeadBoolOp(h: Host, ev: Ev, base: seq<int>, n: nat, v: int, d: Dummy, w: int, f: Dummy, o: BoolOp)
    requires DeadReady2(h, ev, base, n, 1, v, d, w, f)
    ensures var e1 := ReduceBool(h, ev, o);
            DeadLeaves(h, ev, e1, base, n, Flag(BoolResult(o, DummyBool(h, d), DummyBool(h, f))), ev.history)
              && |e1.table| == |ev.table| + 1
  {
    hide EvOk, Later, CachesOf, GetLval, GetInt, GetFloat, GetBool, GetExpanded, StoreText, StoreNew, PushNew, Push,
         SetVar, OnlyAt, Untouched, DummyAt, PopBools;
    DeadPopBools(h, ev, base, n, 1, v, d, w, f);
    var (a, b, e1) := PopBools(h, ev);
    DeadPushNew(h, e1, base, n, BoolSym(BoolResult(o, a, b)), Flag(BoolResult(o, DummyBool(h, d), DummyBool(h, f))));
    DeadAfter(h, ev, e1, PushNew(e1, BoolSym(BoolResult(o, a, b))), base, n,
      Flag(BoolResult(o, DummyBool(h, d), DummyBool(h, f))), e1.history);
  }

  lemma DeadStrCat(h: Host, ev: Ev, base: seq<int>, n: nat, v: int, d: Dummy, w: int, f: Dummy)
    requires DeadReady2(h, ev, base, n, 1, v, d, w, f)
    ensures var e1 := ReduceStrCat(h, ev);
            DeadLeaves(h, ev, e1, base, n, Inert, ev.history) && |e1.table| == |ev.table| + 1
  {
    hide EvOk, Later, CachesOf, GetLval, GetInt, GetFloat, GetBool, GetExpanded, StoreText, StoreNew, PushNew, Push,
         SetVar, OnlyAt, Untouched, DummyAt, PopStrings;
    DeadPopStrings(h, ev, base, n, 1, v, d, w, f);
    var (a, b, e1) := PopStrings(h, ev);
    assert a + b == "";
    DeadPushNew(h, e1, base, n, ExpandedSym(a + b), Inert);
    DeadAfter(h, ev, e1, PushNew(e1, ExpandedSym(a + b)), base, n, Inert, e1.history);
  }

  lemma DeadCompare(h: Host, ev: Ev, base: seq<int>, n: nat, v: int, d: Dummy, w: int, f: Dummy, c: CompareOp)
    requires DeadReady2(h, ev, base, n, 1, v, d, w, f)
    ensures var e1 := ReduceCompare(h, ev, c);
            DeadLeaves(h, ev, e1, base, n, Flag(h.compareOp(c, "", "")), ev.history) && |e1.table| == |ev.table| + 1
  {
    hide EvOk, Later, CachesOf, GetLval, GetInt, GetFloat, GetBool, GetExpanded, StoreText, StoreNew, PushNew, Push,
         SetVar, OnlyAt, Untouched, DummyAt, PopStrings;
    DeadPopStrings(h, ev, base, n, 1, v, d, w, f);
    var (a, b, e1) := PopStrings(h, ev);
    DeadPushNew(h, e1, base, n, BoolSym(h.compareOp(c, a, b)), Flag(h.compareOp(c, "", "")));
    DeadAfter(h, ev, e1, PushNew(e1, BoolSym(h.compareOp(c, a, b))), base, n, Flag(h.compareOp(c, "", "")), e1.history);
  }

  lemma DeadPopBoth(h: Host, ev: Ev, base: seq<int>, n: nat, v: int, d: Dummy, w: int, f: Dummy)
    requires DeadReady2(h, ev, base, n, 0, v, d, w, f)
    ensures Pop(ev) == (w, ev.(stack := base + [v])) && Pop(Pop(ev).1) == (v, ev.(stack := base))
    ensures DeadPair(h, ev.(stack := base), base, n, v, d, w, f) && DummyAt(h, ev.(stack := base), w, f)
  {
    PopTwo(ev, base, v, w);
    PopOne(ev.(stack := base + [v]), base, v);
  }

  lemma DeadComma(h: Host, ev: Ev, base: seq<int>, n: nat, v: int, d: Dummy, w: int, f: Dummy)
    requires DeadReady2(h, ev, base, n, 0, v, d, w, f)
    ensures DeadLeaves(h, ev, ReduceComma(ev), base, n, f, ev.history) && ReduceComma(ev).table == ev.table
  {
    DeadPopBoth(h, ev, base, n, v, d, w, f);
    DeadPush(h, ev.(stack := base), base, n, w, f);
  }

  // ---------- assignments through a nameless reference ----------

  lemma DeadSet(h: Host, ev: Ev, base: seq<int>, n: nat, v: int, d: Dummy, w: int, f: Dummy)
    requires DeadPair(h, ev, base, n, v, d, w, f) && DummyAt(h, ev, w, f)
    ensures var e1 := AssignSet(h, ev, "", w);
            DeadLeaves(h, ev, e1, base, n, f, ev.history + EmptyStores(1)) && e1.table == ev.table
  {
    DeadConversions(h, ev, w, f);
    DeadPush(h, ev, base, n, w, f);
    DeadSetVar(h, Push(ev, w));
  }

  lemma DeadZero(h: Host, ev: Ev, base: seq<int>, n: nat)
    requires DeadReady(h, ev, base, n, 0) && ev.stack == base
    ensures DeadLeaves(h, ev, Push(SetVar(ev, "", ""), 0), base, n, Inert, ev.history + EmptyStores(1))
    ensures Push(SetVar(ev, "", ""), 0).table == ev.table
  {
    DeadSetVar(h, ev);
    DeadPush(h, SetVar(ev, "", ""), base, n, 0, Inert);
  }

  lemma DeadAssignInt(h: Host, ev: Ev, base: seq<int>, n: nat, v: int, d: Dummy, w: int, f: Dummy, i: IntOp)
    requires DeadPair(h, ev, base, n, v, d, w, f)
    requires |ev.table| + SkipAssignEntries(IntSet(i), SkipAssign(h, IntSet(i), d, f)) <= TOKENCOUNT
    ensures var e1 := AssignInt(h, ev, "", v, w, i);
            var r := SkipAssign(h, IntSet(i), d, f);
            DeadLeaves(h, ev, e1, base, n, r, ev.history + EmptyStores(1))
            && |e1.table| == |ev.table| + SkipAssignEntries(IntSet(i), r)
  {
    hide EvOk, Later, CachesOf, GetLval, GetInt, GetFloat, GetBool, GetExpanded, StoreText, StoreNew, PushNew, Push,
         SetVar, OnlyAt, Untouched, DummyUsed;
    if i == Mod {
      DeadFloatForced(h, ev, base, n, v, d, w, f);
      var (a, e1) := GetFloat(h, ev, v);
      DeadFloatForced(h, e1, base, n, w, f, v, d);
      var (c, e2) := GetFloat(h, e1, w);
      UntouchedTrans(ev, e1, e2, n);
      if h.trunc(c) == 0 {
        DeadZero(h, e2, base, n);
        DeadAfter(h, ev, e2, Push(SetVar(e2, "", ""), 0), base, n, Inert, e2.history + EmptyStores(1));
      } else {
        var r := h.fromInt(h.intOp(Mod, h.trunc(a), h.trunc(c)));
        DeadStoreNew(h, e2, base, n, DoubleSym(r), Real(r));
        DeadAfter(h, ev, e2, StoreNew(h, e2, "", DoubleSym(r)), base, n, Real(r), e2.history + EmptyStores(1));
      }
    } else {
      DeadIntForced(h, ev, base, n, v, d, w, f);
      var (a, e1) := GetInt(h, ev, v);
      DeadIntForced(h, e1, base, n, w, f, v, d);
      var (c, e2) := GetInt(h, e1, w);
      UntouchedTrans(ev, e1, e2, n);
      var r := h.intOp(i, a, c);
      DeadStoreNew(h, e2, base, n, IntSym(r), Whole(r));
      DeadAfter(h, ev, e2, StoreNew(h, e2, "", IntSym(r)), base, n, Whole(r), e2.history + EmptyStores(1));
    }
  }

  lemma DeadAssignFloat(h: Host, ev: Ev, base: seq<int>, n: nat, v: int, d: Dummy, w: int, f: Dummy, o: FloatOp)
    requires DeadPair(h, ev, base, n, v, d, w, f)
    requires |ev.table| + SkipAssignEntries(FloatSet(o), SkipAssign(h, FloatSet(o), d, f)) <= TOKENCOUNT
    ensures var e1 := AssignFloat(h, ev, "", v, w, o);
            var r := SkipAssign(h, FloatSet(o), d, f);
            DeadLeaves(h, ev, e1, base, n, r, ev.history + EmptyStores(1))
            && |e1.table| == |ev.table| + SkipAssignEntries(FloatSet(o), r)
  {
    hide EvOk, Later, CachesOf, GetLval, GetInt, GetFloat, GetBool, GetExpanded, StoreText, StoreNew, PushNew, Push,
         SetVar, OnlyAt, Untouched, DummyUsed;
    DeadFloatForced(h, ev, base, n, v, d, w, f);
    var (a, e1) := GetFloat(h, ev, v);
    DeadFloatForced(h, e1, base, n, w, f, v, d);
    var (c, e2) := GetFloat(h, e1, w);
    UntouchedTrans(ev, e1, e2, n);
    if o == Div && h.isZero(c) {
      DeadZero(h, e2, base, n);
      DeadAfter(h, ev, e2, Push(SetVar(e2, "", ""), 0), base, n, Inert, e2.history + EmptyStores(1));
    } else {
      var r := h.floatOp(o, a, c);
      DeadStoreNew(h, e2, base, n, DoubleSym(r), Real(r));
      DeadAfter(h, ev, e2, StoreNew(h, e2, "", DoubleSym(r)), base, n, Real(r), e2.history + EmptyStores(1));
    }
  }

  lemma DeadAssignBool(h: Host, ev: Ev, base: seq<int>, n: nat, v: int, d: Dummy, w: int, f: Dummy, o: BoolOp)
    requires DeadPair(h, ev, base, n, v, d, w, f) && |ev.table| < TOKENCOUNT
    ensures var e1 := AssignBool(h, ev, "", v, w, o);
            DeadLeaves(h, ev, e1, base, n, Flag(BoolResult(o, DummyBool(h, d), DummyBool(h, f))),
              ev.history + EmptyStores(1))
            && |e1.table| == |ev.table| + 1
  {
    hide EvOk, Later, CachesOf, GetLval, GetInt, GetFloat, GetBool, GetExpanded, StoreText, StoreNew, PushNew, Push,
         SetVar, OnlyAt, Untouched, DummyUsed;
    DeadBoolForced(h, ev, base, n, v, d, w, f);
    var (a, e1) := GetBool(h, ev, v);
    DeadBoolForced(h, e1, base, n, w, f, v, d);
    var (c, e2) := GetBool(h, e1, w);
    UntouchedTrans(ev, e1, e2, n);
    var r := BoolResult(o, a, c);
    DeadStoreNew(h, e2, base, n, BoolSym(r), Flag(r));
    DeadAfter(h, ev, e2, StoreNew(h, e2, "", BoolSym(r)), base, n, Flag(r), e2.history + EmptyStores(1));
  }

  lemma DeadAssignCat(h: Host, ev: Ev, base: seq<int>, n: nat, v: int, d: Dummy, w: int, f: Dummy)
    requires DeadPair(h, ev, base, n, v, d, w, f) && |ev.table| < TOKENCOUNT
    ensures var e1 := AssignCat(h, ev, "", v, w);
            DeadLeaves(h, ev, e1, base, n, Inert, ev.history + EmptyStores(1)) && |e1.table| == |ev.table| + 1
  {
    hide SymLe, Lookups, PushNew, GetExpanded, DummyUsed;
    DeadConversions(h, ev, v, d);
    DeadConversions(h, ev, w, f);
    assert "" + "" == "";
    DeadPushNew(h, ev, base, n, ExpandedSym(""), Inert);
    DeadSetVar(h, PushNew(ev, ExpandedSym("")));
    assert DeadLeaves(h, ev, PushNew(ev, ExpandedSym("")), base, n, Inert, ev.history);
    DeadStoreAfter(h, ev, PushNew(ev, ExpandedSym("")), base, n, Inert, ev.history);
  }

  lemma DeadStoreAfter(h: Host, ev: Ev, e1: Ev, base: seq<int>, n: nat, d: Dummy, hist: History)
    requires DeadLeaves(h, ev, e1, base, n, d, hist)
    ensures DeadLeaves(h, ev, SetVar(e1, "", ""), base, n, d, hist + EmptyStores(1))
  {
    DeadSetVar(h, e1);
  }

  lemma DeadSwap(h: Host, ev: Ev, base: seq<int>, n: nat, v: int, d: Dummy, w: int, f: Dummy)
    requires DeadPair(h, ev, base, n, v, d, w, f) && DummyAt(h, ev, w, f)
    ensures var e1 := AssignSwap(h, ev, "", v, w);
            DeadLeaves(h, ev, e1, base, n, if f.Nameless? then f else Inert,
              ev.history + EmptyStores(if f.Nameless? then 2 else 0))
            && e1.table == ev.table
  {
    hide SymLe, Lookups, GetExpanded, GetLval;
    DeadConversions(h, ev, v, d);
    DeadConversions(h, ev, w, f);
    if f.Nameless? {
      DeadSetVar(h, ev);
      var e1 := SetVar(ev, "", "");
      DeadSetVar(h, e1);
      assert ev.history + EmptyStores(1) + EmptyStores(1) == ev.history + EmptyStores(2);
      DeadPush(h, SetVar(e1, "", ""), base, n, w, f);
    } else {
      NoStores(ev.history);
      DeadPush(h, ev, base, n, 0, Inert);
    }
  }

  lemma DeadDispatch(h: Host, ev: Ev, base: seq<int>, n: nat, v: int, d: Dummy, w: int, f: Dummy, a: AssignOp)
    requires DeadPair(h, ev, base, n, v, d, w, f) && d.Nameless? && DummyAt(h, ev, w, f)
    requires |ev.table| + SkipAssignEntries(a, SkipAssign(h, a, d, f)) <= TOKENCOUNT
    ensures var e1 := DispatchAssign(h, ev, a, "", v, w);
            DeadLeaves(h, ev, e1, base, n, SkipBinary(h, Assign(a), d, f),
                       ev.history + EmptyStores(SkipBinaryStores(Assign(a), d, f)))
            && |e1.table| == |ev.table| + SkipAssignEntries(a, SkipAssign(h, a, d, f))
  {
    hide EvOk, Later, CachesOf, DummyUsed, AssignSet, AssignInt, AssignFloat, AssignBool, AssignCat, AssignSwap,
         DeadLeaves;
    match a
    case Set => DeadSet(h, ev, base, n, v, d, w, f);
    case IntSet(i) => DeadAssignInt(h, ev, base, n, v, d, w, f, i);
    case FloatSet(o) => DeadAssignFloat(h, ev, base, n, v, d, w, f, o);
    case BoolSet(o) => DeadAssignBool(h, ev, base, n, v, d, w, f, o);
    case CatSet => DeadAssignCat(h, ev, base, n, v, d, w, f);
    case PreSet => DeadAssignCat(h, ev, base, n, w, f, v, d);
    case Swap => DeadSwap(h, ev, base, n, v, d, w, f);
  }

  lemma DeadAssign(h: Host, ev: Ev, base: seq<int>, n: nat, v: int, d: Dummy, w: int, f: Dummy, a: AssignOp)
    requires DeadReady2(h, ev, base, n, SkipBinaryEntries(Assign(a), d, SkipBinary(h, Assign(a), d, f)), v, d, w, f)
    ensures var e1 := ReduceAssign(h, ev, a);
            DeadLeaves(h, ev, e1, base, n, SkipBinary(h, Assign(a), d, f),
                       ev.history + EmptyStores(SkipBinaryStores(Assign(a), d, f)))
            && |e1.table| == |ev.table| + SkipBinaryEntries(Assign(a), d, SkipBinary(h, Assign(a), d, f))
  {
    hide EvOk, Later, CachesOf, DummyUsed, GetLval, Pop, Push, DispatchAssign;
    DeadPopBoth(h, ev, base, n, v, d, w, f);
    var e2 := ev.(stack := base);
    DeadConversions(h, e2, v, d);
    if d.Nameless? {
      DeadDispatch(h, e2, base, n, v, d, w, f, a);
    } else {
      NoStores(ev.history);
      ZeroInert(h, e2);
      DeadPush(h, e2, base, n, 0, Inert);
    }
  }

  /** While nothing is evaluated, a binary operator makes the dummy and the stores `Skip` says. */
  lemma DeadBinary(h: Host, ev: Ev, base: seq<int>, n: nat, v: int, d: Dummy, w: int, f: Dummy, b: BinOp)
    requires DeadReady2(h, ev, base, n, SkipBinaryEntries(b, d, SkipBinary(h, b, d, f)), v, d, w, f)
    ensures var e1 := Reduce(h, ev, Binary(b));
            DeadLeaves(h, ev, e1, base, n, SkipBinary(h, b, d, f),
                       ev.history + EmptyStores(SkipBinaryStores(b, d, f)))
            && |e1.table| == |ev.table| + SkipBinaryEntries(b, d, SkipBinary(h, b, d, f))
  {
    hide EvOk, Later, CachesOf, DummyUsed, ReduceInt, ReduceFloat, ReduceBool, ReduceStrCat, ReduceCompare,
         ReduceAssign, ReduceComma, DeadLeaves;
    NoStores(ev.history);
    match b
    case Int(i) => DeadIntOp(h, ev, base, n, v, d, w, f, i);
    case Float(o) => DeadFloatOp(h, ev, base, n, v, d, w, f, o);
    case Bool(o) => DeadBoolOp(h, ev, base, n, v, d, w, f, o);
    case StrCat => DeadStrCat(h, ev, base, n, v, d, w, f);
    case Compare(c) => DeadCompare(h, ev, base, n, v, d, w, f, c);
    case Assign(a) => DeadAssign(h, ev, base, n, v, d, w, f, a);
    case Comma => DeadComma(h, ev, base, n, v, d, w, f);
  }
}
