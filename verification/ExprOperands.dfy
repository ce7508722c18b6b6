/** How the operands of a tree's subtrees combine: the state left by evaluating the parts, reduced by
    the operator at the root, is the state the reference semantics gives the whole tree. */
module ExprOperands {
  import opened Options
  import opened ExprSyntax
  import opened ExprMachine
  import opened ExprEval
  import opened ExprReduce
  import opened ExprSkip

  /** `e2` is `ev` after the tree `e` was evaluated. */
  ghost predicate Evaluated(h: Host, ev: Ev, e2: Ev, e: Expr) {
    var (x, hist) := Eval(h, e, ev.history);
    Leaves(h, ev, e2, ev.stack, |ev.table|, x, hist)
  }

  /** `e2` is `ev` after the tree `e` was skipped. */
  ghost predicate Skipped(h: Host, ev: Ev, e2: Ev, e: Expr) {
    DeadLeaves(h, ev, e2, ev.stack, |ev.table|, Skip(h, e), ev.history + EmptyStores(SkipStores(h, e)))
  }

  /** The table entries that `e` takes, in the mode `ev` is in. */
  function Takes(h: Host, ev: Ev, e: Expr): nat {
    if ev.noeval == 0 then Entries(h, e, ev.history) else SkipEntries(h, e)
  }

  /** `e2` is `ev` after the tree `e`, in the mode `ev` is in. */
  ghost predicate ResultIn(h: Host, ev: Ev, e2: Ev, e: Expr) {
    && |e2.table| == |ev.table| + Takes(h, ev, e)
    && (if ev.noeval == 0 then Evaluated(h, ev, e2, e) else Skipped(h, ev, e2, e))
  }

  /** What evaluating `e` demands of the state: room in the tables. */
  ghost predicate Room(h: Host, ev: Ev, e: Expr) {
    && Lawful(h) && Good(h, ev) && WellFormed(e)
    && |ev.table| + Takes(h, ev, e) <= TOKENCOUNT && |ev.stack| + Depth(e) <= STACKSZ
  }

  /** The operand on top of the stack. */
  function Top(ev: Ev): int
    requires |ev.stack| > 0
  {
    ev.stack[|ev.stack| - 1]
  }

  lemma TableBounds(ev: Ev)
    requires EvOk(ev)
    ensures 1 <= |ev.table| <= TOKENCOUNT
  {
  }

  /** The noeval level plays no part in the invariant. */
  lemma GoodAnyLevel(h: Host, ev: Ev, noeval: nat)
    requires Good(h, ev)
    ensures Good(h, ev.(noeval := noeval))
  {
  }

  lemma StoresAdd(hist: History, a: nat, b: nat)
    ensures hist + EmptyStores(a) + EmptyStores(b) == hist + EmptyStores(a + b)
  {
  }

  lemma StackSplit(ev: Ev, base: seq<int>)
    requires |ev.stack| == |base| + 1 && ev.stack[..|base|] == base
    ensures ev.stack == base + [Top(ev)]
  {
  }

  /** Operands of a subtree already evaluated survive the next one. */
  lemma HoldsKept(h: Host, e1: Ev, e2: Ev, v: int, x: Val)
    requires Holds(h, e1, v, x) && Untouched(e1, e2, |e1.table|)
    ensures Holds(h, e2, v, x)
  {
    hide Represents;
  }

  lemma DummyKept(h: Host, e1: Ev, e2: Ev, v: int, d: Dummy)
    requires DummyAt(h, e1, v, d) && Untouched(e1, e2, |e1.table|)
    ensures DummyAt(h, e2, v, d)
  {
  }

  lemma DummyBound(h: Host, ev: Ev, v: int, d: Dummy)
    requires DummyAt(h, ev, v, d)
    ensures v == 0 || 0 < v < |ev.table|
  {
  }

  lemma UntouchedMono(e1: Ev, e2: Ev, n: nat)
    requires Untouched(e1, e2, |e1.table|) && n <= |e1.table|
    ensures Untouched(e1, e2, n)
  {
  }

  // ---------- unary ----------

  lemma UnaryResult(h: Host, ev: Ev, e1: Ev, x: Expr, u: UnOp, e: Expr)
    requires e == Pre(u, x) || e == Post(u, x)
    requires Room(h, ev, e) && ResultIn(h, ev, e1, x)
    ensures ResultIn(h, ev, Reduce(h, e1, Unary(u)), e)
  {
    hide CachesOf, Later, Represents, DummyAt, Reduce;
    StackSplit(e1, ev.stack);
    var e2 := Reduce(h, e1, Unary(u));
    if ev.noeval == 0 {
      var (v, hist) := Eval(h, x, ev.history);
      UnaryLeaves(h, e1, ev.stack, |ev.table|, Top(e1), v, u);
      var (r, hist2) := ApplyUnary(h, u, v, hist);
      LeavesAfter(h, ev, e1, e2, ev.stack, |ev.table|, r, hist2);
    } else {
      DeadUnary(h, e1, ev.stack, |ev.table|, Top(e1), Skip(h, x), u);
      StoresAdd(ev.history, SkipStores(h, x), SkipUnaryStores(u, Skip(h, x)));
      DeadAfter(h, ev, e1, e2, ev.stack, |ev.table|, Skip(h, e), ev.history + EmptyStores(SkipStores(h, e)));
    }
  }

  // ---------- forcing a condition ----------

  lemma ForceLive(h: Host, ev: Ev, base: seq<int>, n: nat, v: int, x: Val)
    requires Ready1(h, ev, base, n, 1, v, x)
    ensures var (u, e1) := ForceTop(h, ev); var (u', _, hist) := AsBool(h, x, ev.history);
            u == u' && Leaves(h, ev, e1, base, n, VBool(u), hist) && |e1.table| == |ev.table| + 1
  {
    hide EvOk, Later, CachesOf, Represents, GetBool, AsBool, PushNew;
    PopOne(ev, base, v);
    var e1 := Pop(ev).1;
    BoolHolds(h, e1, v, x);
    var (u, e2) := GetBool(h, e1, v);
    NewBool(h, u);
    PushNewLeaves(h, e2, base, n, BoolSym(u), VBool(u));
  }

  lemma ForceDead(h: Host, ev: Ev, base: seq<int>, n: nat, v: int, d: Dummy)
    requires DeadReady1(h, ev, base, n, 1, v, d)
    ensures var (u, e1) := ForceTop(h, ev);
            u == DummyBool(h, d) && DeadLeaves(h, ev, e1, base, n, Flag(u), ev.history) && |e1.table| == |ev.table| + 1
  {
    hide EvOk, Later, CachesOf, DummyUsed, GetBool, PushNew;
    PopOne(ev, base, v);
    var e1 := Pop(ev).1;
    assert DummyAt(h, e1, v, d) by { DummySameTable(h, ev, e1, v, d); }
    DeadBool(h, e1, v, d);
    var (u, e2) := GetBool(h, e1, v);
    DeadPushNew(h, e2, base, n, BoolSym(u), Flag(u));
  }

  /** What forcing a dummy asks of the client once evaluation is back on. */
  function ForceRequests(d: Dummy): History {
    if d == Nameless then [Read("")] else []
  }

  lemma ForceSkipped(h: Host, ev: Ev, v: int, d: Dummy)
    requires Lawful(h) && Good(h, ev) && ev.noeval == 0 && DummyAt(h, ev, v, d)
    ensures var e1 := GetBool(h, ev, v).1;
            e1.history == ev.history + ForceRequests(d) && Good(h, e1) && OnlyAt(ev, e1, v)
  {
    if v != 0 {
      var s := ev.table[v];
      if s.float.Some? {
        LawfulDouble(h, s.float.value);
      } else if s.integer.Some? {
        LawfulInt(h, s.integer.value);
      }
    }
  }

  lemma LawfulInt(h: Host, i: int)
    requires Lawful(h)
    ensures Plain(h.showInt(i))
  {
  }

  lemma LawfulDouble(h: Host, d: Double)
    requires Lawful(h)
    ensures Plain(h.showDouble(d))
  {
  }

  // ---------- short-circuiting operators ----------

  /** The dummy of the right operand is forced; the left one is left alone on the stack. */
  lemma ShortForces(h: Host, ev: Ev, base: seq<int>, n: nat, v: int, w: int, d: Dummy, x: Val)
    requires Ready(h, ev, base, n, 1) && ev.stack == base + [v, w] && v != w
    requires Operand(h, ev, n, v, x) && DummyOperand(h, ev, n, w, d)
    ensures var e2 := GetBool(h, Pop(ev).1, w).1;
            && Pop(ev).0 == w && Ready1(h, e2, base, n, 1, v, x) && e2.history == ev.history + ForceRequests(d)
            && Untouched(ev, e2, n) && |e2.table| == |ev.table|
  {
    hide Later, CachesOf, Represents, DummyAt, GetBool, Lawful;
    PopTwo(ev, base, v, w);
    var e1 := Pop(ev).1;
    assert DummyAt(h, e1, w, d) by { DummySameTable(h, ev, e1, w, d); }
    ForceSkipped(h, e1, w, d);
  }

  /** The condition decides: the reduction only forces the dummy. */
  lemma ShortReduce(h: Host, ev: Ev, base: seq<int>, n: nat, v: int, w: int, d: Dummy, o: BoolOp)
    requires Ready(h, ev, base, n, 1) && ev.stack == base + [v, w] && (o == DAnd || o == DOr)
    requires Operand(h, ev, n, v, VBool(o == DOr)) && DummyOperand(h, ev, n, w, d)
    requires v != w
    ensures var e1 := Reduce(h, ev, Binary(Bool(o)));
            Leaves(h, ev, e1, base, n, VBool(o == DOr), ev.history + ForceRequests(d)) && |e1.table| == |ev.table| + 1
  {
    hide EvOk, Later, CachesOf, Represents, DummyAt, GetBool, AsBool, PushNew, Pop, Lawful, Untouched;
    ShortForces(h, ev, base, n, v, w, d, VBool(o == DOr));
    var (y, e2) := GetBool(h, Pop(ev).1, w);
    ShortResult(h, e2, base, n, v, o, y);
    var r := VBool(o == DOr);
    LeavesAfter(h, ev, e2, ShortPush(h, e2, o, y), base, n, r, e2.history);
  }

  /** The rest of the reduction: the left operand is forced and the result pushed. */
  function ShortPush(h: Host, ev: Ev, o: BoolOp, y: bool): Ev
    requires EvOk(ev)
  {
    var (v, e1) := Pop(ev);
    var (x, e2) := GetBool(h, e1, v);
    PushNew(e2, BoolSym(BoolResult(o, x, y)))
  }

  lemma ShortResult(h: Host, ev: Ev, base: seq<int>, n: nat, v: int, o: BoolOp, y: bool)
    requires Ready1(h, ev, base, n, 1, v, VBool(o == DOr)) && (o == DAnd || o == DOr)
    ensures var e1 := ShortPush(h, ev, o, y);
            Leaves(h, ev, e1, base, n, VBool(o == DOr), ev.history) && |e1.table| == |ev.table| + 1
  {
    hide EvOk, Later, CachesOf, Represents, GetBool, AsBool, PushNew, Lawful;
    var c := VBool(o == DOr);
    PopOne(ev, base, v);
    var e1 := Pop(ev).1;
    BoolHolds(h, e1, v, c);
    BoolIsBool(h, o == DOr, e1.history);
    var (x, e2) := GetBool(h, e1, v);
    var r := BoolResult(o, x, y);
    NewBool(h, r);
    PushNewLeaves(h, e2, base, n, BoolSym(r), VBool(r));
    LeavesAfter(h, ev, e2, PushNew(e2, BoolSym(r)), base, n, VBool(r), e2.history);
  }

  lemma BoolIsBool(h: Host, b: bool, hist: History)
    ensures AsBool(h, VBool(b), hist) == (b, VBool(b), hist)
  {
  }

  /** After the left operand `l` of `b`, the state in which the right one is parsed. */
  function Between(h: Host, e1: Ev, b: BinOp): (r: Ev)
    requires EvOk(e1)
    ensures EvOk(r)
  {
    if !Shorts(b) then e1 else
    var (u, e2) := ForceTop(h, e1);
    if u == (b == Bool(DOr)) then e2.(noeval := e2.noeval + 1) else e2
  }

  /** What `Between` leaves: the left operand, forced if `b` may short-circuit. */
  lemma BetweenLive(h: Host, ev: Ev, e1: Ev, b: BinOp, l: Expr, r: Expr)
    requires ev.noeval == 0 && Room(h, ev, Bin(b, l, r)) && ResultIn(h, ev, e1, l)
    ensures var (x, hist) := Eval(h, l, ev.history);
            var (u, _, hist1) := AsBool(h, x, hist);
            var e2 := Between(h, e1, b);
            var (y, hist2) := if Shorts(b) then (VBool(u), hist1) else (x, hist);
            Leaves(h, ev.(noeval := e2.noeval), e2, ev.stack, |ev.table|, y, hist2)
            && |e2.table| == |ev.table| + Takes(h, ev, l) + (if Shorts(b) then 1 else 0)
            && (e2.noeval != 0 <==> Shorts(b) && u == (b == Bool(DOr)))
  {
    hide Later, CachesOf, Represents, ForceTop, AsBool;
    StackSplit(e1, ev.stack);
    if Shorts(b) {
      ForceLive(h, e1, ev.stack, |ev.table|, Top(e1), Eval(h, l, ev.history).0);
    }
  }

  lemma BetweenDead(h: Host, ev: Ev, e1: Ev, b: BinOp, l: Expr, r: Expr)
    requires ev.noeval != 0 && Room(h, ev, Bin(b, l, r)) && ResultIn(h, ev, e1, l)
    ensures var d := Skip(h, l);
            var e2 := Between(h, e1, b);
            DeadLeaves(h, ev.(noeval := e2.noeval), e2, ev.stack, |ev.table|,
                       if Shorts(b) then Flag(DummyBool(h, d)) else d, ev.history + EmptyStores(SkipStores(h, l)))
            && |e2.table| == |ev.table| + Takes(h, ev, l) + (if Shorts(b) then 1 else 0)
            && e2.noeval != 0
  {
    hide Later, CachesOf, DummyAt, ForceTop;
    StackSplit(e1, ev.stack);
    if Shorts(b) {
      ForceDead(h, e1, ev.stack, |ev.table|, Top(e1), Skip(h, l));
      var e2 := Between(h, e1, b);
      DummySameTable(h, ForceTop(h, e1).1, e2, Top(e2), Flag(DummyBool(h, Skip(h, l))));
    }
  }

  /** The parser gets back to the right operand with room for it. */
  lemma BetweenRoom(h: Host, ev: Ev, e1: Ev, b: BinOp, l: Expr, r: Expr)
    requires Room(h, ev, Bin(b, l, r)) && ResultIn(h, ev, e1, l)
    ensures Room(h, Between(h, e1, b), r)
  {
    hide CachesOf, Represents, DummyAt, Between;
    if ev.noeval == 0 {
      BetweenLive(h, ev, e1, b, l, r);
    } else {
      BetweenDead(h, ev, e1, b, l, r);
    }
  }

  lemma StackTwo(ev: Ev, base: seq<int>, mid: seq<int>)
    requires |mid| == |base| + 1 && mid[..|base|] == base
    requires |ev.stack| == |mid| + 1 && ev.stack[..|mid|] == mid
    ensures ev.stack == base + [mid[|base|], Top(ev)]
  {
    assert mid == base + [mid[|base|]];
  }

  /** What the parts of an operator that evaluates both sides come to. */
  lemma EvalBin(h: Host, b: BinOp, l: Expr, r: Expr, hist: History)
    ensures var (x, hist0) := Eval(h, l, hist);
            var (u, _, hist1) := AsBool(h, x, hist0);
            var (y, hist2) := if Shorts(b) then (VBool(u), hist1) else (x, hist0);
            var (z, hist3) := Eval(h, r, hist2);
            !(Shorts(b) && u == (b == Bool(DOr))) ==>
               (&& Eval(h, Bin(b, l, r), hist) == ApplyBinary(h, b, y, z, hist3)
                && Entries(h, Bin(b, l, r), hist)
                   == Entries(h, l, hist) + (if Shorts(b) then 1 else 0) + Entries(h, r, hist2)
                      + BinaryEntries(b, y, ApplyBinary(h, b, y, z, hist3).0))
  {
    hide AsBool, ApplyBinary;
    var (x, hist0) := Eval(h, l, hist);
    var (u, _, hist1) := AsBool(h, x, hist0);
    if Shorts(b) && u != (b == Bool(DOr)) {
      var (z, hist3) := Eval(h, r, hist1);
      ApplyShort(h, b, u, z, hist3);
    }
  }

  lemma BinEvaluated(h: Host, ev: Ev, e1: Ev, e3: Ev, b: BinOp, l: Expr, r: Expr)
    requires EvOk(e1) && EvOk(e3)
    requires Room(h, ev, Bin(b, l, r)) && ResultIn(h, ev, e1, l) && ResultIn(h, Between(h, e1, b), e3, r)
    requires ev.noeval == 0 && Between(h, e1, b).noeval == 0
    ensures ResultIn(h, ev, Reduce(h, e3, Binary(b)), Bin(b, l, r))
  {
    hide EvOk, Later, CachesOf, Represents, Between, ApplyBinary, AsBool, Reduce, Eval, Entries, BinaryEntries, Lawful;
    TableBounds(ev);
    var n := |ev.table|;
    BetweenLive(h, ev, e1, b, l, r);
    var e2 := Between(h, e1, b);
    var (x, hist) := Eval(h, l, ev.history);
    var (u, _, hist1) := AsBool(h, x, hist);
    var (y, hist2) := if Shorts(b) then (VBool(u), hist1) else (x, hist);
    var (z, hist3) := Eval(h, r, hist2);
    EvalBin(h, b, l, r, ev.history);
    StackTwo(e3, ev.stack, e2.stack);
    HoldsKept(h, e2, e3, Top(e2), y);
    UntouchedMono(e2, e3, n);
    BinaryLeaves(h, e3, ev.stack, n, Top(e2), y, Top(e3), z, b);
    UntouchedTrans(ev, e2, e3, n);
    var (q, hist4) := ApplyBinary(h, b, y, z, hist3);
    LeavesAfter(h, ev, e3, Reduce(h, e3, Binary(b)), ev.stack, n, q, hist4);
  }

  lemma ApplyShort(h: Host, b: BinOp, u: bool, z: Val, hist: History)
    requires Shorts(b) && u != (b == Bool(DOr))
    ensures var (y, _, hist1) := AsBool(h, z, hist);
            ApplyBinary(h, b, VBool(u), z, hist) == (VBool(y), hist1)
  {
    hide AsText;
  }

  /** The same when the left operand settles it. */
  lemma EvalShort(h: Host, b: BinOp, l: Expr, r: Expr, hist: History)
    requires Shorts(b)
    ensures var (x, hist0) := Eval(h, l, hist);
            var (u, _, hist1) := AsBool(h, x, hist0);
            u == (b == Bool(DOr)) ==>
              && Eval(h, Bin(b, l, r), hist) == (VBool(u), hist1 + SkipOperandRequests(h, r))
              && Entries(h, Bin(b, l, r), hist) == Entries(h, l, hist) + 1 + SkipEntries(h, r) + 1
  {
    hide AsBool, ApplyBinary, SkipOperandRequests;
  }

  lemma BinSkipped(h: Host, ev: Ev, e1: Ev, e3: Ev, b: BinOp, l: Expr, r: Expr)
    requires EvOk(e1) && EvOk(e3)
    requires Room(h, ev, Bin(b, l, r)) && ResultIn(h, ev, e1, l) && ResultIn(h, Between(h, e1, b), e3, r)
    requires ev.noeval == 0 && Between(h, e1, b).noeval != 0
    ensures ResultIn(h, ev, Reduce(h, e3.(noeval := 0), Binary(b)), Bin(b, l, r))
  {
    hide EvOk, Later, CachesOf, Represents, DummyAt, Between, AsBool, Reduce, Eval, Entries, Skip, SkipStores,
         SkipEntries, Lawful;
    TableBounds(ev);
    var n := |ev.table|;
    BetweenLive(h, ev, e1, b, l, r);
    EvalShort(h, b, l, r, ev.history);
    var e2 := Between(h, e1, b);
    StackTwo(e3, ev.stack, e2.stack);
    var c := VBool(b == Bool(DOr));
    HoldsKept(h, e2, e3, Top(e2), c);
    UntouchedMono(e2, e3, n);
    UntouchedTrans(ev, e2, e3, n);
    GoodAnyLevel(h, e3, 0);
    var e4 := e3.(noeval := 0);
    DummySameTable(h, e3, e4, Top(e3), Skip(h, r));
    ShortReduce(h, e4, ev.stack, n, Top(e2), Top(e3), Skip(h, r), b.b);
    assert e4.history + ForceRequests(Skip(h, r)) == e2.history + SkipOperandRequests(h, r);
    LeavesAfter(h, ev, e4, Reduce(h, e4, Binary(b)), ev.stack, n, c, e4.history + ForceRequests(Skip(h, r)));
  }

  /** What the parts of a skipped operator come to. */
  lemma SkipBin(h: Host, b: BinOp, l: Expr, r: Expr)
    ensures var d := if Shorts(b) then Flag(DummyBool(h, Skip(h, l))) else Skip(h, l);
            var f, e := Skip(h, r), Bin(b, l, r);
            && Skip(h, e) == SkipBinary(h, b, d, f)
            && SkipStores(h, e) == SkipStores(h, l) + SkipStores(h, r) + SkipBinaryStores(b, d, f)
            && SkipEntries(h, e) == SkipEntries(h, l) + (if Shorts(b) then 1 else 0) + SkipEntries(h, r)
                                    + SkipBinaryEntries(b, d, SkipBinary(h, b, d, f))
  {
  }

  /** Both dummies are still there, and the level is what it was. */
  lemma BothDead(h: Host, e2: Ev, e3: Ev, noeval: nat, base: seq<int>, n: nat, d: Dummy, f: Dummy, room: nat)
    requires Good(h, e2) && Good(h, e3) && noeval != 0 && 1 <= n && n <= |e2.table| && |base| < STACKSZ
    requires |e2.stack| == |base| + 1 && e2.stack[..|base|] == base && DummyOperand(h, e2, n, Top(e2), d)
    requires |e3.stack| == |e2.stack| + 1 && e3.stack[..|e2.stack|] == e2.stack
    requires Untouched(e2, e3, |e2.table|) && DummyOperand(h, e3, |e2.table|, Top(e3), f)
    requires |e3.table| + room <= TOKENCOUNT
    ensures DeadReady2(h, e3.(noeval := noeval), base, n, room, Top(e2), d, Top(e3), f) && Untouched(e2, e3, n)
  {
    hide EvOk, CachesOf, DummyAt;
    StackTwo(e3, base, e2.stack);
    DummyBound(h, e2, Top(e2), d);
    DummyKept(h, e2, e3, Top(e2), d);
    UntouchedMono(e2, e3, n);
    GoodAnyLevel(h, e3, noeval);
    DummySameTable(h, e3, e3.(noeval := noeval), Top(e2), d);
    DummySameTable(h, e3, e3.(noeval := noeval), Top(e3), f);
  }

  lemma BinDead(h: Host, ev: Ev, e1: Ev, e3: Ev, b: BinOp, l: Expr, r: Expr)
    requires EvOk(e1) && EvOk(e3)
    requires Room(h, ev, Bin(b, l, r)) && ResultIn(h, ev, e1, l) && ResultIn(h, Between(h, e1, b), e3, r)
    requires ev.noeval != 0
    ensures ResultIn(h, ev, Reduce(h, e3.(noeval := ev.noeval), Binary(b)), Bin(b, l, r))
  {
    hide EvOk, Later, CachesOf, DummyAt, Between, Reduce, Evaluated, Skip, SkipStores, SkipEntries, SkipBinary,
         SkipBinaryStores, SkipBinaryEntries, Lawful;
    TableBounds(ev);
    var n := |ev.table|;
    BetweenDead(h, ev, e1, b, l, r);
    SkipBin(h, b, l, r);
    var e2 := Between(h, e1, b);
    var d := if Shorts(b) then Flag(DummyBool(h, Skip(h, l))) else Skip(h, l);
    var f := Skip(h, r);
    BothDead(h, e2, e3, ev.noeval, ev.stack, n, d, f, SkipBinaryEntries(b, d, SkipBinary(h, b, d, f)));
    UntouchedTrans(ev, e2, e3, n);
    var e4 := e3.(noeval := ev.noeval);
    DeadBinary(h, e4, ev.stack, n, Top(e2), d, Top(e3), f, b);
    StoresAdd(ev.history, SkipStores(h, l), SkipStores(h, r));
    StoresAdd(ev.history, SkipStores(h, l) + SkipStores(h, r), SkipBinaryStores(b, d, f));
    DeadAfter(h, ev, e4, Reduce(h, e4, Binary(b)), ev.stack, n, SkipBinary(h, b, d, f),
              e4.history + EmptyStores(SkipBinaryStores(b, d, f)));
  }

  /** A binary operator after both its operands. */
  lemma BinResult(h: Host, ev: Ev, e1: Ev, e3: Ev, b: BinOp, l: Expr, r: Expr)
    requires EvOk(e1) && EvOk(e3)
    requires Room(h, ev, Bin(b, l, r)) && ResultIn(h, ev, e1, l) && ResultIn(h, Between(h, e1, b), e3, r)
    ensures ResultIn(h, ev, Reduce(h, e3.(noeval := ev.noeval), Binary(b)), Bin(b, l, r))
  {
    hide Later, CachesOf, DummyAt, Represents, Between, Reduce, Eval, Skip, SkipStores;
    if ev.noeval != 0 {
      BinDead(h, ev, e1, e3, b, l, r);
    } else if Between(h, e1, b).noeval != 0 {
      BinSkipped(h, ev, e1, e3, b, l, r);
    } else {
      assert e3.(noeval := ev.noeval) == e3;
      BinEvaluated(h, ev, e1, e3, b, l, r);
    }
  }

  // ---------- conditional operator ----------

  /** The state in which a branch of `?:` is parsed, after `ev`: evaluated if taken. */
  function BranchEv(ev: Ev, n: nat, taken: bool): (r: Ev)
    requires EvOk(ev)
    ensures EvOk(r)
  {
    ev.(noeval := if taken then n else n + 1)
  }

  lemma PopThree(ev: Ev, base: seq<int>, c: int, v: int, w: int)
    requires EvOk(ev) && ev.stack == base + [c, v, w]
    ensures Pop(ev) == (w, ev.(stack := base + [c, v]))
    ensures Pop(Pop(ev).1) == (v, ev.(stack := base + [c]))
    ensures Pop(Pop(Pop(ev).1).1) == (c, ev.(stack := base))
  {
    assert ev.stack[..|base| + 2] == base + [c, v];
    PopTwo(ev.(stack := base + [c, v]), base, c, v);
    PopOne(ev.(stack := base + [c]), base, c);
  }

  /** `?:` pushes the chosen token as it is. */
  lemma ReduceCondPicks(h: Host, ev: Ev, base: seq<int>, c: int, v: int, w: int, u: bool)
    requires EvOk(ev) && ev.stack == base + [c, v, w] && 0 <= c < |ev.table| && ev.table[c].boolean == Some(u)
    requires |base| < STACKSZ
    ensures Reduce(h, ev, Quest) == ev.(stack := base + [if u then v else w])
  {
    hide Later, SymLe;
    PopThree(ev, base, c, v, w);
  }

  lemma StackThree(ev: Ev, base: seq<int>, mid: seq<int>, mid2: seq<int>)
    requires |mid| == |base| + 1 && mid[..|base|] == base
    requires |mid2| == |mid| + 1 && mid2[..|mid|] == mid
    requires |ev.stack| == |mid2| + 1 && ev.stack[..|mid2|] == mid2
    ensures ev.stack == base + [mid[|base|], mid2[|mid|], Top(ev)]
  {
    assert mid == base + [mid[|base|]];
    assert mid2 == mid + [mid2[|mid|]];
  }

  /** What the parts of `?:` come to. */
  lemma EvalCond(h: Host, c: Expr, a: Expr, z: Expr, hist: History)
    ensures var (x, hist1) := Eval(h, c, hist);
            var (u, _, hist2) := AsBool(h, x, hist1);
            if u then
              var (w, hist3) := Eval(h, a, hist2);
              && Eval(h, Cond(c, a, z), hist) == (w, hist3 + SkipRequests(h, z))
              && Entries(h, Cond(c, a, z), hist) == Entries(h, c, hist) + 1 + Entries(h, a, hist2) + SkipEntries(h, z)
            else
              var hist3 := hist2 + SkipRequests(h, a);
              && Eval(h, Cond(c, a, z), hist) == Eval(h, z, hist3)
              && Entries(h, Cond(c, a, z), hist) == Entries(h, c, hist) + 1 + SkipEntries(h, a) + Entries(h, z, hist3)
  {
    hide AsBool;
  }

  /** The two states after the branches, one of which was evaluated in its turn. */
  ghost predicate Branches(h: Host, e2: Ev, e3: Ev, e4: Ev, u: bool, a: Expr, z: Expr) {
    && EvOk(e2) && EvOk(e3) && EvOk(e4)
    && ResultIn(h, BranchEv(e2, 0, u), e3, a) && ResultIn(h, BranchEv(e3, 0, !u), e4, z)
  }

  /** Both branches leave their operand, over the condition that is still there. */
  lemma BranchesLeave(h: Host, base: seq<int>, n: nat, e2: Ev, e3: Ev, e4: Ev, u: bool, a: Expr, z: Expr)
    requires Branches(h, e2, e3, e4, u, a, z) && 1 <= n <= |e2.table|
    requires |e2.stack| == |base| + 1 && e2.stack[..|base|] == base && Holds(h, e2, Top(e2), VBool(u))
    ensures |e3.stack| == |e2.stack| + 1 && |e4.stack| == |e3.stack| + 1
    ensures e4.stack == base + [Top(e2), Top(e3), Top(e4)] && Good(h, e4)
    ensures 0 < Top(e2) < |e4.table| && e4.table[Top(e2)].boolean == Some(u) && Untouched(e2, e4, n)
    ensures var y := if u then Eval(h, a, e2.history).0 else Eval(h, z, e2.history + SkipRequests(h, a)).0;
            Operand(h, e4, n, if u then Top(e3) else Top(e4), y)
    ensures e4.history == if u then Eval(h, a, e2.history).1 + SkipRequests(h, z)
                          else Eval(h, z, e2.history + SkipRequests(h, a)).1
    ensures |e4.table| == |e2.table| + (if u then Entries(h, a, e2.history) + SkipEntries(h, z)
                                        else SkipEntries(h, a) + Entries(h, z, e2.history + SkipRequests(h, a)))
  {
    hide EvOk, Later, CachesOf, Represents, DummyAt, Eval, Entries, SkipEntries, Skip, SkipStores;
    StackThree(e4, base, e2.stack, e3.stack);
    HoldsKept(h, e2, e3, Top(e2), VBool(u));
    HoldsKept(h, e3, e4, Top(e2), VBool(u));
    BoolHeld(h, e4, Top(e2), u);
    if u {
      HoldsKept(h, e3, e4, Top(e3), Eval(h, a, e2.history).0);
    }
    UntouchedMono(e2, e3, n);
    UntouchedMono(e3, e4, n);
    UntouchedTrans(e2, e3, e4, n);
  }

  lemma LivePick(h: Host, e4: Ev, base: seq<int>, n: nat, c: int, v: int, w: int, u: bool, y: Val)
    requires Good(h, e4) && 1 <= n <= |e4.table| && |base| < STACKSZ && e4.stack == base + [c, v, w]
    requires 0 < c < |e4.table| && e4.table[c].boolean == Some(u) && Operand(h, e4, n, if u then v else w, y)
    ensures var e5 := e4.(noeval := 0);
            Leaves(h, e5, Reduce(h, e5, Quest), base, n, y, e4.history) && Reduce(h, e5, Quest).table == e4.table
  {
    hide Reduce, Represents;
    ReduceCondPicks(h, e4.(noeval := 0), base, c, v, w, u);
  }

  lemma CondEvaluated(h: Host, ev: Ev, e1: Ev, e3: Ev, e4: Ev, c: Expr, a: Expr, z: Expr)
    requires EvOk(e1) && EvOk(e3) && EvOk(e4) && ev.noeval == 0
    requires Room(h, ev, Cond(c, a, z)) && ResultIn(h, ev, e1, c)
    requires var (u, e2) := ForceTop(h, e1);
             ResultIn(h, BranchEv(e2, 0, u), e3, a) && ResultIn(h, BranchEv(e3, 0, !u), e4, z)
    ensures ResultIn(h, ev, Reduce(h, e4.(noeval := 0), Quest), Cond(c, a, z))
  {
    hide EvOk, Later, CachesOf, Represents, ForceTop, AsBool, Reduce, Eval, Entries, SkipRequests, SkipEntries, Lawful;
    TableBounds(ev);
    var n := |ev.table|;
    StackSplit(e1, ev.stack);
    var (x, hist) := Eval(h, c, ev.history);
    EvalCond(h, c, a, z, ev.history);
    ForceLive(h, e1, ev.stack, n, Top(e1), x);
    var (u, e2) := ForceTop(h, e1);
    BranchesLeave(h, ev.stack, n, e2, e3, e4, u, a, z);
    var y := Eval(h, Cond(c, a, z), ev.history).0;
    LivePick(h, e4, ev.stack, n, Top(e2), Top(e3), Top(e4), u, y);
    UntouchedTrans(ev, e1, e2, n);
    UntouchedTrans(ev, e2, e4, n);
    GoodAnyLevel(h, e4, 0);
    var e5 := e4.(noeval := 0);
    LeavesAfter(h, ev, e5, Reduce(h, e5, Quest), ev.stack, n, y, e4.history);
  }

  lemma BoolHeld(h: Host, ev: Ev, v: int, b: bool)
    requires Holds(h, ev, v, VBool(b))
    ensures 0 < v < |ev.table| && ev.table[v].boolean == Some(b)
  {
  }

  lemma CondDead(h: Host, ev: Ev, e1: Ev, e3: Ev, e4: Ev, c: Expr, a: Expr, z: Expr)
    requires EvOk(e1) && EvOk(e3) && EvOk(e4) && ev.noeval != 0
    requires Room(h, ev, Cond(c, a, z)) && ResultIn(h, ev, e1, c)
    requires var (u, e2) := ForceTop(h, e1);
             ResultIn(h, BranchEv(e2, ev.noeval, u), e3, a) && ResultIn(h, BranchEv(e3, ev.noeval, !u), e4, z)
    ensures ResultIn(h, ev, Reduce(h, e4.(noeval := ev.noeval), Quest), Cond(c, a, z))
  {
    hide EvOk, Later, CachesOf, DummyAt, ForceTop, Reduce, Evaluated, Eval, Lawful;
    TableBounds(ev);
    TableBounds(e4);
    var n := |ev.table|;
    StackSplit(e1, ev.stack);
    ForceDead(h, e1, ev.stack, n, Top(e1), Skip(h, c));
    var (u, e2) := ForceTop(h, e1);
    StackThree(e4, ev.stack, e2.stack, e3.stack);
    DummyKept(h, e2, e3, Top(e2), Flag(u));
    DummyKept(h, e3, e4, Top(e2), Flag(u));
    DummyKept(h, e3, e4, Top(e3), Skip(h, a));
    UntouchedMono(e2, e3, n);
    UntouchedMono(e3, e4, n);
    UntouchedTrans(ev, e2, e3, n);
    UntouchedTrans(ev, e3, e4, n);
    GoodAnyLevel(h, e4, ev.noeval);
    DeadPick(h, e4, ev.noeval, ev.stack, n, Top(e2), Top(e3), Top(e4), u, Skip(h, Cond(c, a, z)));
    StoresAdd(ev.history, SkipStores(h, c), SkipStores(h, a));
    StoresAdd(ev.history, SkipStores(h, c) + SkipStores(h, a), SkipStores(h, z));
    DeadAfter(h, ev, e4.(noeval := ev.noeval), Reduce(h, e4.(noeval := ev.noeval), Quest), ev.stack, n,
              Skip(h, Cond(c, a, z)), e4.history);
  }

  lemma DeadPick(h: Host, e4: Ev, noeval: nat, base: seq<int>, n: nat, c: int, v: int, w: int, u: bool, d: Dummy)
    requires Good(h, e4) && noeval != 0 && 1 <= n <= |e4.table| && |base| < STACKSZ && e4.stack == base + [c, v, w]
    requires DummyAt(h, e4, c, Flag(u)) && DummyOperand(h, e4, n, if u then v else w, d)
    ensures var e5 := e4.(noeval := noeval);
            DeadLeaves(h, e5, Reduce(h, e5, Quest), base, n, d, e4.history) && Reduce(h, e5, Quest).table == e4.table
  {
    hide Reduce, DummyAt;
    FlagHeld(h, e4, c, u);
    var e5 := e4.(noeval := noeval);
    ReduceCondPicks(h, e5, base, c, v, w, u);
    var p := if u then v else w;
    DummySameTable(h, e4, e5.(stack := base + [p]), p, d);
  }

  lemma FlagHeld(h: Host, ev: Ev, v: int, b: bool)
    requires DummyAt(h, ev, v, Flag(b))
    ensures 0 < v < |ev.table| && ev.table[v].boolean == Some(b)
  {
  }

  /** Each branch finds room when its turn comes. */
  lemma CondRoom(h: Host, ev: Ev, e1: Ev, c: Expr, a: Expr, z: Expr)
    requires EvOk(e1)
    requires Room(h, ev, Cond(c, a, z)) && ResultIn(h, ev, e1, c)
    ensures var (u, e2) := ForceTop(h, e1);
            Room(h, BranchEv(e2, ev.noeval, u), a)
            && |e2.table| == |ev.table| + Takes(h, ev, c) + 1 && |e2.stack| == |ev.stack| + 1
            && (ev.noeval == 0 ==>
                  var (x, hist) := Eval(h, c, ev.history);
                  u == AsBool(h, x, hist).0 && e2.history == AsBool(h, x, hist).2)
  {
    hide EvOk, CachesOf, Represents, DummyAt, ForceTop, Later, Eval, Entries, Skip, SkipStores, AsBool, Lawful;
    TableBounds(ev);
    StackSplit(e1, ev.stack);
    if ev.noeval == 0 {
      EvalCond(h, c, a, z, ev.history);
      ForceLive(h, e1, ev.stack, |ev.table|, Top(e1), Eval(h, c, ev.history).0);
    } else {
      ForceDead(h, e1, ev.stack, |ev.table|, Top(e1), Skip(h, c));
    }
    var (u, e2) := ForceTop(h, e1);
    GoodAnyLevel(h, e2, BranchEv(e2, ev.noeval, u).noeval);
  }

  lemma CondRoom2(h: Host, ev: Ev, e1: Ev, e3: Ev, c: Expr, a: Expr, z: Expr)
    requires EvOk(e1) && EvOk(e3)
    requires Room(h, ev, Cond(c, a, z)) && ResultIn(h, ev, e1, c)
    requires var (u, e2) := ForceTop(h, e1); ResultIn(h, BranchEv(e2, ev.noeval, u), e3, a)
    ensures var (u, e2) := ForceTop(h, e1); Room(h, BranchEv(e3, ev.noeval, !u), z)
  {
    hide EvOk, CachesOf, Represents, DummyAt, ForceTop, Later, Eval, Entries, Skip, SkipStores, Lawful;
    TableBounds(ev);
    CondRoom(h, ev, e1, c, a, z);
    GoodAnyLevel(h, e3, BranchEv(e3, ev.noeval, !ForceTop(h, e1).0).noeval);
    if ev.noeval == 0 {
      EvalCond(h, c, a, z, ev.history);
    }
  }

  /** `?:` after its three operands. */
  lemma CondResult(h: Host, ev: Ev, e1: Ev, e3: Ev, e4: Ev, c: Expr, a: Expr, z: Expr)
    requires EvOk(e1) && EvOk(e3) && EvOk(e4)
    requires Room(h, ev, Cond(c, a, z)) && ResultIn(h, ev, e1, c)
    requires var (u, e2) := ForceTop(h, e1);
             ResultIn(h, BranchEv(e2, ev.noeval, u), e3, a) && ResultIn(h, BranchEv(e3, ev.noeval, !u), e4, z)
    ensures ResultIn(h, ev, Reduce(h, e4.(noeval := ev.noeval), Quest), Cond(c, a, z))
  {
    hide Later, CachesOf, DummyAt, Represents, ForceTop, Reduce, Eval, Skip, SkipStores, Room, ResultIn;
    if ev.noeval != 0 {
      CondDead(h, ev, e1, e3, e4, c, a, z);
    } else {
      CondEvaluated(h, ev, e1, e3, e4, c, a, z);
    }
  }
}
