/** The expression engine as the source has it: one context object whose token table, operand stack
    and lexer fields the parser updates step by step. Every method is proved equal to its
    specification function, so every theorem about those holds of the object. */
module ExprProgram {
  import opened Options
  import opened ExprSyntax
  import opened ExprMachine
  import opened ExprTheorems

  const EMPTY_SYM := Sym(None, None, None, None, None, None)

  class ExprInfo {
    const host: Host
    const input: seq<Lexeme>
    var ptr: nat
    var noeval: nat
    var operand: int
    var token: nat
    const tokens: array<Sym>
    const stack: array<int>
    var sp: int
    var mtok: Tok
    var errflag: bool
    var lastToken: int
    var history: History
    ghost var log: seq<Charge>

    /** The fields are within the fixed sizes of the two tables. */
    ghost predicate Shape()
      reads this
    {
      && tokens.Length == TOKENCOUNT + 1 && stack.Length == STACKSZ + 1
      && token <= TOKENCOUNT && -1 <= sp < STACKSZ && ptr <= |input|
    }

    ghost function E(): Ev
      reads this, tokens, stack
      requires Shape()
    {
      Ev(noeval, tokens[..token], stack[..sp + 1], history, log)
    }

    ghost function S(): St
      reads this, tokens, stack
      requires Shape()
    {
      St(Lx(input[ptr..], operand, mtok, lastToken, errflag), E())
    }

    ghost predicate Ready()
      reads this, tokens, stack
    {
      Shape() && EvOk(E())
    }

    ghost predicate Valid()
      reads this, tokens, stack
    {
      Shape() && StOk(S())
    }

    /** setup_expr_info. */
    constructor (host: Host, input: seq<Lexeme>, history: History)
      ensures Valid() && S() == Setup(input, history)
      ensures this.host == host && this.input == input && fresh(tokens) && fresh(stack)
    {
      this.host, this.input, this.history, log := host, input, history, [];
      ptr, noeval, operand, sp, errflag, lastToken, mtok := 0, 0, 1, -1, false, 0, InPar;
      token := 1;
      tokens := new Sym[TOKENCOUNT + 1](i => if i == 0 then RawSym("") else EMPTY_SYM);
      stack := new int[STACKSZ + 1](_ => 0);
      new;
      assert tokens[..token] == [RawSym("")];
    }

    // ---------- the token table ----------

    /** The tokenize_... family. */
    method NewToken(s: Sym) returns (v: int)
      requires Ready() && SymOk(s)
      modifies `token, tokens
      ensures Shape() && (v, E()) == Tokenize(old(E()), s) && Ready()
    {
      if token >= TOKENCOUNT {
        return -1;
      }
      tokens[token] := s;
      v := token;
      token := token + 1;
      assert tokens[..token] == old(tokens[..token]) + [s];
    }

    /** Fill one representation of an entry. */
    method SetToken(v: nat, s: Sym)
      requires Shape() && v < token
      modifies tokens
      ensures Shape() && E() == old(E()).(table := old(E()).table[v := s])
    {
      tokens[v] := s;
      assert tokens[..token] == old(tokens[..token])[v := s];
    }

    /** expand_alias. */
    method CallExpand(text: string) returns (result: string)
      requires Shape()
      modifies `history
      ensures Shape() && (result, history) == ExpandAlias(host, text, old(history))
      ensures E() == old(E()).(history := history)
    {
      if Plain(text) {
        return text;
      }
      result := host.expand(text, history);
      history := history + [Expand(text)];
    }

    method GetTokenRaw(v: int) returns (text: string)
      requires Ready()
      requires 0 < v < token && noeval == 0 && tokens[v].raw.None? ==> tokens[v].expanded.None?
      modifies tokens, `history, `log
      ensures Shape() && (text, E()) == GetRaw(host, old(E()), v) && Ready()
    {
      hide Later, EvOk;
      if v == MAGIC_TOKEN {
        return host.args;
      }
      if v <= 0 || v >= token {
        return "";
      }
      if noeval != 0 {
        return "";
      }
      if tokens[v].raw.None? {
        var s := tokens[v];
        assert SymOk(s) by { EntryOk(E(), v); }
        if s.float.Some? {
          text := host.showDouble(s.float.value);
        } else if s.integer.Some? {
          text := host.showInt(s.integer.value);
        } else if s.boolean.Some? {
          text := ShowBool(s.boolean.value);
        } else {
          text := CallExpand(s.lval.value);
          log := Billed(log, v, NameOf, s.lval.value);
        }
        SetToken(v, s.(raw := Some(text)));
      } else {
        text := tokens[v].raw.value;
      }
    }

    /** An lvalue's name; handle 0, bad handles and rvalues have none. */
    method GetTokenLval(v: int) returns (name: Option<string>)
      requires Ready()
      modifies tokens, `history, `log
      ensures Shape() && (name, E()) == GetLval(host, old(E()), v) && Ready()
    {
      hide Later;
      if v == MAGIC_TOKEN {
        return Some(host.args);
      }
      if v < 0 || v >= token {
        return None;
      }
      if v == 0 || tokens[v].lval.None? {
        return None;
      }
      if noeval != 0 {
        return Some("");
      }
      assert SymOk(E().table[v]);
      var text := GetTokenRaw(v);
      name := Some(text);
    }

    method GetTokenExpanded(v: int) returns (text: string)
      requires Ready()
      modifies tokens, `history, `log
      ensures Shape() && (text, E()) == GetExpanded(host, old(E()), v) && Ready()
    {
      hide Later, GetRaw;
      if v == MAGIC_TOKEN {
        return host.args;
      }
      if v <= 0 || v >= token {
        return "";
      }
      if noeval != 0 {
        return "";
      }
      if tokens[v].expanded.None? {
        var raw := GetTokenRaw(v);
        var s := tokens[v];
        if s.lval.Some? {
          text := host.read(raw, history);
          history := history + [Read(raw)];
          log := log + [Charge(v, TextOf, Read(raw))];
        } else {
          text := CallExpand(raw);
          log := Billed(log, v, TextOf, raw);
        }
        SetToken(v, s.(expanded := Some(text)));
      } else {
        text := tokens[v].expanded.value;
      }
    }

    method GetTokenInteger(v: int) returns (i: int)
      requires Ready()
      modifies tokens, `history, `log
      ensures Shape() && (i, E()) == GetInt(host, old(E()), v) && Ready()
    {
      hide Later, EvOk, GetExpanded;
      if v == MAGIC_TOKEN {
        return host.atol(host.args);
      }
      if v < 0 || v >= token {
        return 0;
      }
      if tokens[v].integer.None? {
        var text := GetTokenExpanded(v);
        i := host.atol(text);
        SetToken(v, tokens[v].(integer := Some(i)));
      } else {
        i := tokens[v].integer.value;
      }
    }

    method GetTokenFloat(v: int) returns (d: Double)
      requires Ready()
      modifies tokens, `history, `log
      ensures Shape() && (d, E()) == GetFloat(host, old(E()), v) && Ready()
    {
      hide Later, EvOk, GetExpanded;
      if v == MAGIC_TOKEN {
        return host.atof(host.args);
      }
      if v < 0 || v >= token {
        return 0;
      }
      if tokens[v].float.None? {
        var text := GetTokenExpanded(v);
        d := host.atof(text);
        SetToken(v, tokens[v].(float := Some(d)));
      } else {
        d := tokens[v].float.value;
      }
    }

    method GetTokenBoolean(v: int) returns (b: bool)
      requires Ready()
      modifies tokens, `history, `log
      ensures Shape() && (b, E()) == GetBool(host, old(E()), v) && Ready()
    {
      hide Later, EvOk, GetExpanded;
      if v == MAGIC_TOKEN {
        return host.checkVal(host.args);
      }
      if v < 0 || v >= token {
        return false;
      }
      if tokens[v].boolean.None? {
        var text := GetTokenExpanded(v);
        b := host.checkVal(text);
        SetToken(v, tokens[v].(boolean := Some(b)));
      } else {
        b := tokens[v].boolean.value;
      }
    }

    // ---------- the operand stack ----------

    method PushToken(v: int)
      requires Ready() && HandleOk(E().table, v)
      modifies stack, `sp
      ensures Shape() && E() == Push(old(E()), v) && Ready()
    {
      if sp == STACKSZ - 1 {
        return;
      }
      sp := sp + 1;
      stack[sp] := v;
      assert stack[..sp + 1] == old(stack[..sp + 1]) + [v];
    }

    method PopToken() returns (v: int)
      requires Ready()
      modifies `sp
      ensures Shape() && (v, E()) == Pop(old(E())) && Ready()
    {
      if sp < 0 {
        return 0;
      }
      v := stack[sp];
      sp := sp - 1;
      assert stack[..sp + 1] == old(stack[..sp + 1])[..sp + 1];
    }

    /** The push_... family: a fresh entry, pushed. */
    method PushFresh(s: Sym)
      requires Ready() && SymOk(s)
      modifies tokens, `token, stack, `sp
      ensures Shape() && E() == PushNew(old(E()), s) && Ready()
    {
      hide Later, EvOk, Tokenize, Push;
      var v := NewToken(s);
      PushToken(v);
    }

    /** add_var_alias. */
    method AddVarAlias(name: string, value: string)
      requires Ready()
      modifies `history, `log
      ensures Shape() && E() == SetVar(old(E()), name, value) && Ready()
    {
      history := history + [Store(name, value)];
    }

    // ---------- the reducer: the operator macros ----------

    method Pop2Integers() returns (i: int, j: int)
      requires Ready()
      modifies tokens, `token, stack, `sp, `history, `log
      ensures Shape() && (i, j, E()) == PopInts(host, old(E())) && Ready()
    {
      hide Later, EvOk, Pop, GetInt;
      var w := PopToken();
      j := GetTokenInteger(w);
      var v := PopToken();
      i := GetTokenInteger(v);
    }

    method Pop2Floats() returns (a: Double, b: Double)
      requires Ready()
      modifies tokens, `token, stack, `sp, `history, `log
      ensures Shape() && (a, b, E()) == PopFloats(host, old(E())) && Ready()
    {
      hide Later, EvOk, Pop, GetFloat;
      var w := PopToken();
      b := GetTokenFloat(w);
      var v := PopToken();
      a := GetTokenFloat(v);
    }

    method Pop2Booleans() returns (c: bool, d: bool)
      requires Ready()
      modifies tokens, `token, stack, `sp, `history, `log
      ensures Shape() && (c, d, E()) == PopBools(host, old(E())) && Ready()
    {
      hide Later, EvOk, Pop, GetBool;
      var w := PopToken();
      d := GetTokenBoolean(w);
      var v := PopToken();
      c := GetTokenBoolean(v);
    }

    method Pop2Strings() returns (s: string, t: string)
      requires Ready()
      modifies tokens, `token, stack, `sp, `history, `log
      ensures Shape() && (s, t, E()) == PopStrings(host, old(E())) && Ready()
    {
      hide Later, EvOk, Pop, GetExpanded;
      var w := PopToken();
      t := GetTokenExpanded(w);
      var v := PopToken();
      s := GetTokenExpanded(v);
    }

    method BinaryInteger(o: IntOp)
      requires Ready()
      modifies tokens, `token, stack, `sp, `history, `log
      ensures Shape() && E() == ReduceInt(host, old(E()), o) && Ready()
    {
      hide Later, EvOk, PopInts, Push, PushNew;
      var i, j := Pop2Integers();
      if o == Mod && j == 0 {
        PushToken(0);
      } else {
        PushFresh(IntSym(host.intOp(o, i, j)));
      }
    }

    method BinaryFloat(o: FloatOp)
      requires Ready()
      modifies tokens, `token, stack, `sp, `history, `log
      ensures Shape() && E() == ReduceFloat(host, old(E()), o) && Ready()
    {
      hide Later, EvOk, PopFloats, Push, PushNew;
      var a, b := Pop2Floats();
      if o == Div && host.isZero(b) {
        PushToken(0);
      } else {
        PushFresh(DoubleSym(host.floatOp(o, a, b)));
      }
    }

    method BinaryBoolean(o: BoolOp)
      requires Ready()
      modifies tokens, `token, stack, `sp, `history, `log
      ensures Shape() && E() == ReduceBool(host, old(E()), o) && Ready()
    {
      hide Later, EvOk, PopBools, PushNew;
      var c, d := Pop2Booleans();
      PushFresh(BoolSym(BoolResult(o, c, d)));
    }

    method Concatenate()
      requires Ready()
      modifies tokens, `token, stack, `sp, `history, `log
      ensures Shape() && E() == ReduceStrCat(host, old(E())) && Ready()
    {
      hide Later, EvOk, PopStrings, PushNew;
      var s, t := Pop2Strings();
      PushFresh(ExpandedSym(s + t));
    }

    method CompareStrings(o: CompareOp)
      requires Ready()
      modifies tokens, `token, stack, `sp, `history, `log
      ensures Shape() && E() == ReduceCompare(host, old(E()), o) && Ready()
    {
      hide Later, EvOk, PopStrings, PushNew;
      var s, t := Pop2Strings();
      PushFresh(BoolSym(host.compareOp(o, s, t)));
    }

    method StoreResult(name: string, s: Sym) returns (w: int)
      requires Ready() && SymOk(s)
      modifies tokens, `token, stack, `sp, `history, `log
      ensures Shape() && (w, E()) == StoreText(host, old(E()), name, s) && Ready()
    {
      hide Later, EvOk, Tokenize, GetExpanded, SetVar;
      w := NewToken(s);
      var t := GetTokenExpanded(w);
      AddVarAlias(name, t);
    }

    method StoreAndPush(name: string, s: Sym)
      requires Ready() && SymOk(s)
      modifies tokens, `token, stack, `sp, `history, `log
      ensures Shape() && E() == StoreNew(host, old(E()), name, s) && Ready()
    {
      hide Later, EvOk, StoreText, Push;
      var w := StoreResult(name, s);
      PushToken(w);
    }

    method AutoUnaryOp(delta: int, result: int)
      requires Ready()
      modifies tokens, `token, stack, `sp, `history, `log
      ensures Shape() && E() == AutoUnary(host, old(E()), delta, result) && Ready()
    {
      hide Later, EvOk, Pop, GetLval, GetInt, StoreText, Push, PushNew;
      var v := PopToken();
      var name := GetTokenLval(v);
      if name.None? {
        PushToken(0);
        return;
      }
      var j := GetTokenInteger(v);
      var w := StoreResult(name.value, IntSym(j + delta));
      PushFresh(IntSym(j + result));
    }

    method ImpliedInteger(name: string, v: int, w: int, o: IntOp)
      requires Ready()
      modifies tokens, `token, stack, `sp, `history, `log
      ensures Shape() && E() == AssignInt(host, old(E()), name, v, w, o) && Ready()
    {
      hide Later, EvOk, GetInt, GetFloat, SetVar, Push, StoreNew;
      if o == Mod {
        var x := GetTokenFloat(v);
        var y := GetTokenFloat(w);
        if host.trunc(y) == 0 {
          AddVarAlias(name, "");
          PushToken(0);
        } else {
          StoreAndPush(name, DoubleSym(host.fromInt(host.intOp(Mod, host.trunc(x), host.trunc(y)))));
        }
      } else {
        var i := GetTokenInteger(v);
        var j := GetTokenInteger(w);
        StoreAndPush(name, IntSym(host.intOp(o, i, j)));
      }
    }

    method ImpliedFloat(name: string, v: int, w: int, o: FloatOp)
      requires Ready()
      modifies tokens, `token, stack, `sp, `history, `log
      ensures Shape() && E() == AssignFloat(host, old(E()), name, v, w, o) && Ready()
    {
      hide Later, EvOk, GetFloat, SetVar, Push, StoreNew;
      var a := GetTokenFloat(v);
      var b := GetTokenFloat(w);
      if o == Div && host.isZero(b) {
        AddVarAlias(name, "");
        PushToken(0);
      } else {
        StoreAndPush(name, DoubleSym(host.floatOp(o, a, b)));
      }
    }

    method ImpliedBoolean(name: string, v: int, w: int, o: BoolOp)
      requires Ready()
      modifies tokens, `token, stack, `sp, `history, `log
      ensures Shape() && E() == AssignBool(host, old(E()), name, v, w, o) && Ready()
    {
      hide Later, EvOk, GetBool, StoreNew;
      var c := GetTokenBoolean(v);
      var d := GetTokenBoolean(w);
      StoreAndPush(name, BoolSym(BoolResult(o, c, d)));
    }

    method ImpliedConcatenate(name: string, first: int, second: int)
      requires Ready()
      modifies tokens, `token, stack, `sp, `history, `log
      ensures Shape() && E() == AssignCat(host, old(E()), name, first, second) && Ready()
    {
      hide Later, EvOk, GetExpanded, PushNew, SetVar;
      var s := GetTokenExpanded(first);
      var t := GetTokenExpanded(second);
      PushFresh(ExpandedSym(s + t));
      AddVarAlias(name, s + t);
    }

    method AssignValue(name: string, w: int)
      requires Ready() && HandleOk(E().table, w)
      modifies tokens, `token, stack, `sp, `history, `log
      ensures Shape() && E() == AssignSet(host, old(E()), name, w) && Ready()
    {
      hide Later, EvOk, GetExpanded, Push, SetVar;
      var t := GetTokenExpanded(w);
      PushToken(w);
      AddVarAlias(name, t);
    }

    method SwapValues(name: string, v: int, w: int)
      requires Ready() && HandleOk(E().table, w)
      modifies tokens, `token, stack, `sp, `history, `log
      ensures Shape() && E() == AssignSwap(host, old(E()), name, v, w) && Ready()
    {
      hide Later, EvOk, GetLval, GetExpanded, Push, SetVar;
      var name2 := GetTokenLval(w);
      if name2.None? {
        PushToken(0);
        return;
      }
      var s := GetTokenExpanded(v);
      var t := GetTokenExpanded(w);
      AddVarAlias(name, t);
      AddVarAlias(name2.value, s);
      PushToken(w);
    }

    method AssignOperator(a: AssignOp)
      requires Ready()
      modifies tokens, `token, stack, `sp, `history, `log
      ensures Shape() && E() == ReduceAssign(host, old(E()), a) && Ready()
    {
      hide Later, EvOk, Pop, GetLval, Push, AssignSet, AssignInt, AssignFloat, AssignBool, AssignCat, AssignSwap;
      var w := PopToken();
      var v := PopToken();
      var name := GetTokenLval(v);
      if name.None? {
        PushToken(0);
        return;
      }
      match a
      case Set => AssignValue(name.value, w);
      case IntSet(o) => ImpliedInteger(name.value, v, w, o);
      case FloatSet(o) => ImpliedFloat(name.value, v, w, o);
      case BoolSet(o) => ImpliedBoolean(name.value, v, w, o);
      case CatSet => ImpliedConcatenate(name.value, v, w);
      case PreSet => ImpliedConcatenate(name.value, w, v);
      case Swap => SwapValues(name.value, v, w);
    }

    method UnaryOperator(u: UnOp)
      requires Ready()
      modifies tokens, `token, stack, `sp, `history, `log
      ensures Shape() && E() == ReduceUnary(host, old(E()), u) && Ready()
    {
      hide Later, EvOk, AutoUnary, Pop, GetInt, GetFloat, GetBool, GetExpanded, PushNew;
      match u
      case PrePlus => AutoUnaryOp(1, 1);
      case PreMinus => AutoUnaryOp(-1, -1);
      case PostPlus => AutoUnaryOp(1, 0);
      case PostMinus => AutoUnaryOp(-1, 0);
      case Not =>
        var v := PopToken();
        var c := GetTokenBoolean(v);
        PushFresh(BoolSym(!c));
      case Comp =>
        var v := PopToken();
        var i := GetTokenInteger(v);
        PushFresh(IntSym(host.complement(i)));
      case UPlus =>
        var v := PopToken();
        var a := GetTokenFloat(v);
        PushFresh(DoubleSym(a));
      case UMinus =>
        var v := PopToken();
        var a := GetTokenFloat(v);
        PushFresh(DoubleSym(host.negate(a)));
      case StrLen =>
        var v := PopToken();
        var s := GetTokenExpanded(v);
        PushFresh(IntSym(|s|));
      case WordC =>
        var v := PopToken();
        var s := GetTokenExpanded(v);
        PushFresh(IntSym(host.wordCount(s)));
      case Deref =>
        if sp < 0 || stack[sp] != MAGIC_TOKEN {
          var v := PopToken();
          var s := GetTokenExpanded(v);
          PushFresh(LvalSym(s));
        }
    }

    method BinaryOperator(b: BinOp)
      requires Ready()
      modifies tokens, `token, stack, `sp, `history, `log
      ensures Shape() && E() == ReduceBinary(host, old(E()), b) && Ready()
    {
      hide Later, EvOk, ReduceInt, ReduceFloat, ReduceBool, ReduceStrCat, ReduceCompare, ReduceAssign, Pop, Push;
      match b
      case Int(o) => BinaryInteger(o);
      case Float(o) => BinaryFloat(o);
      case Bool(o) => BinaryBoolean(o);
      case StrCat => Concatenate();
      case Compare(o) => CompareStrings(o);
      case Assign(a) => AssignOperator(a);
      case Comma =>
        var w := PopToken();
        var v := PopToken();
        PushToken(w);
    }

    method ConditionalOperator()
      requires Ready()
      modifies tokens, `token, stack, `sp, `history, `log
      ensures Shape() && E() == ReduceCond(host, old(E())) && Ready()
    {
      hide Later, EvOk, Pop, GetBool, Push;
      var w := PopToken();
      var v := PopToken();
      var t := PopToken();
      var c := GetTokenBoolean(t);
      PushToken(if c then v else w);
    }

    /** `op`: reduce one operator, unless there is nothing to reduce or an error is pending. */
    method Op(what: Tok)
      requires Valid()
      modifies tokens, `token, stack, `sp, `history, `log
      ensures Shape() && S() == ReduceSt(host, old(S()), what) && Valid()
    {
      hide Later, EvOk, ReduceUnary, ReduceBinary, ReduceCond;
      if sp < 0 {
        return;
      }
      if errflag {
        return;
      }
      match what
      case Unary(u) => UnaryOperator(u);
      case Binary(b) => BinaryOperator(b);
      case Quest => ConditionalOperator();
      case _ =>
    }

    // ---------- the lexer ----------

    method CheckImpliedArg()
      requires Valid() && !errflag
      modifies tokens, `token, stack, `sp, `history, `log, `operand
      ensures Shape() && S() == CheckImplied(old(S())) && Valid()
    {
      hide Later, EvOk, Push;
      if operand == 2 {
        PushToken(MAGIC_TOKEN);
        operand := 0;
      }
    }

    method LexicalError() returns (t: Tok)
      requires Shape()
      modifies `errflag
      ensures Shape() && t == Eoi && S() == old(S()).(lx := old(S()).lx.(err := true))
    {
      errflag := true;
      t := Eoi;
    }

    /** An infix operator. */
    method Operator(x: Tok) returns (t: Tok)
      requires Valid() && !errflag
      modifies tokens, `token, stack, `sp, `history, `log, `operand, `errflag
      ensures Shape() && Lexed(t) == LexInfix(old(S()), x)
    {
      hide Later, EvOk, Push;
      CheckImpliedArg();
      if operand != 0 {
        t := LexicalError();
        return;
      }
      operand := 1;
      t := x;
    }

    /** A prefix operator. */
    method Prefix(x: Tok, dummy: int) returns (t: Tok)
      requires Valid() && !errflag && 1 <= dummy <= 2
      modifies `operand, `errflag
      ensures Shape() && Lexed(t) == LexPrefix(old(S()), x, dummy)
    {
      if operand == 0 {
        t := LexicalError();
        return;
      }
      operand := dummy;
      t := x;
    }

    /** The state once `mtok` is assigned what the lexer returned. */
    /** `++` and `--`. */
    method Doubled(prefix: UnOp, postfix: UnOp) returns (t: Tok)
      requires Valid() && !errflag
      modifies tokens, `token, stack, `sp, `history, `log, `operand
      ensures var s := CheckImplied(old(S()));
              Shape() && Lexed(t) == s.(lx := s.lx.(mtok := Unary(if s.lx.operand != 0 then prefix else postfix)))
    {
      hide Later, EvOk, Push, CheckImplied;
      CheckImpliedArg();
      t := Unary(if operand != 0 then prefix else postfix);
    }

    /** `+`, `-` and `#`: prefix operators where an operand is due, infix ones elsewhere. */
    method EitherWay(prefix: Tok, dummy: int, infix: Tok) returns (t: Tok)
      requires Valid() && !errflag && 1 <= dummy <= 2
      modifies tokens, `token, stack, `sp, `history, `log, `operand, `errflag
      ensures var s := CheckImplied(old(S()));
              Shape() && Lexed(t) == if s.lx.operand != 0 then LexPrefix(s, prefix, dummy) else LexInfix(s, infix)
    {
      hide Later, EvOk, Push, CheckImplied, LexPrefix, LexInfix;
      CheckImpliedArg();
      if operand != 0 {
        t := Prefix(prefix, dummy);
      } else {
        t := Operator(infix);
      }
    }

    ghost function Lexed(t: Tok): St
      reads this, tokens, stack
      requires Shape()
    {
      S().(lx := S().lx.(mtok := t))
    }

    /** An operand; its entry is made only if something is being evaluated. */
    method Operand(s: Sym) returns (t: Tok)
      requires Valid() && !errflag && SymOk(s)
      modifies tokens, `token, `operand, `lastToken
      ensures Shape() && Lexed(t) == LexOperand(old(S()), s)
    {
      hide Later, EvOk, Tokenize;
      operand := 0;
      if noeval != 0 {
        lastToken := 0;
      } else {
        lastToken := NewToken(s);
      }
      t := Id;
    }

    method Punt() returns (t: Tok)
      requires Valid() && !errflag
      modifies `operand, `lastToken, `ptr
      ensures Shape() && Lexed(t) == LexPunt(old(S()))
    {
      operand := 0;
      lastToken := 0;
      ptr := |input|;
      t := Id;
    }

    /** A colon or a comma, which must follow an operand. */
    method Mark(m: Tok) returns (t: Tok)
      requires Valid() && !errflag
      modifies this, tokens, stack
      ensures Shape() && Lexed(t) == LexMark(old(S()), m) && mtok == old(mtok)
    {
      hide Later, EvOk, LexPunt;
      if operand != 0 {
        t := Punt();
      } else {
        operand := 1;
        t := m;
      }
    }

    /** The next token of the input. */
    method Zzlex() returns (t: Tok)
      requires Valid() && !errflag
      modifies this, tokens, stack
      ensures Shape() && Lexed(t) == Lex(host, old(S()))
      ensures mtok == old(mtok)
    {
      hide Later, EvOk, Push, CheckImplied, LexInfix, LexPrefix, LexOperand, LexPunt;
      if ptr == |input| {
        CheckImpliedArg();
        operand := 1;
        return Eoi;
      }
      var x := input[ptr];
      ptr := ptr + 1;
      assert input[ptr..] == input[ptr - 1..][1..];
      t := LexLexeme(x);
    }

    method LexLexeme(x: Lexeme) returns (t: Tok)
      requires Valid() && !errflag
      modifies this, tokens, stack
      ensures Shape() && Lexed(t) == LexOne(host, old(S()), x)
      ensures mtok == old(mtok)
    {
      hide Later, EvOk, Push, CheckImplied, LexInfix, LexPrefix, LexOperand, LexPunt, LexMark, LexBlock, HandleOk;
      match x
      case LeftParen =>
        operand := 1;
        t := InPar;
      case RightParen =>
        CheckImpliedArg();
        if operand != 0 {
          PushToken(0);
        }
        operand := 0;
        t := OutPar;
      case PlusPlus => t := Doubled(PrePlus, PostPlus);
      case MinusMinus => t := Doubled(PreMinus, PostMinus);
      case PlusSign => t := EitherWay(Unary(UPlus), 1, Binary(Float(Add)));
      case MinusSign => t := EitherWay(Unary(UMinus), 1, Binary(Float(Sub)));
      case Hash => t := EitherWay(Unary(WordC), 2, Binary(StrCat));
      case Star =>
        if operand != 0 {
          t := Prefix(Unary(Deref), 2);
        } else {
          t := Operator(Binary(Float(Mul)));
        }
      case At => t := Prefix(Unary(StrLen), 2);
      case Bang => t := Prefix(Unary(Not), 1);
      case Tilde => t := Prefix(Unary(Comp), 1);
      case QuestMark =>
        operand := 1;
        t := Quest;
      case ColonMark => t := Mark(Colon);
      case CommaMark => t := Mark(Binary(Comma));
      case Infix(b) => t := Operator(Binary(b));
      case Number(text) => t := Operand(ExpandedSym(text));
      case Name(text) => t := Operand(LvalSym(text));
      case Quoted(text) =>
        if operand == 0 {
          t := LexicalError();
        } else {
          t := Operand(RawSym(text));
        }
      case Braced(text) =>
        if operand == 0 {
          t := LexicalError();
        } else {
          t := BlockOperand(text);
        }
      case Junk => t := Punt();
    }

    /** A `{...}` block, run at once unless nothing is being evaluated. */
    method BlockOperand(text: string) returns (t: Tok)
      requires Valid() && !errflag
      modifies tokens, `token, `operand, `lastToken, `history, `log
      ensures Shape() && Lexed(t) == LexBlock(host, old(S()), text)
    {
      hide LexOperand, Lookups, LogOk;
      if noeval != 0 {
        lastToken := 0;
        operand := 0;
        t := Id;
      } else {
        var result := host.run(text, history);
        LogOther(E().table, history, log, Run(text));
        history := history + [Run(text)];
        t := Operand(ExpandedSym(result));
      }
    }

    // ---------- the parser ----------

    /** pop_boolean and push_boolean: the forced condition stays on the stack. */
    method ForceCondition() returns (u: bool)
      requires Valid()
      modifies tokens, `token, stack, `sp, `history, `log
      ensures Shape() && (u, E()) == ForceTop(host, old(E())) && Valid()
      ensures S() == old(S()).(ev := E())
    {
      hide EvOk, Pop, GetBool, PushNew, SymLe, Lookups;
      var v := PopToken();
      u := GetTokenBoolean(v);
      PushFresh(BoolSym(u));
    }

    /** The test made before the right operand of `&&` and `||`. */
    method TestShortCircuit(otok: Tok)
      requires Valid()
      modifies tokens, `token, stack, `sp, `history, `log, `noeval
      ensures Shape() && S() == ShortCircuit(host, old(S()), otok) && Valid()
    {
      hide Later, EvOk, ForceTop;
      if AssocOf(otok) == Short {
        if otok == Binary(Bool(DAnd)) {
          var u := ForceCondition();
          if !u {
            noeval := noeval + 1;
          }
        } else if otok == Binary(Bool(DOr)) {
          var u := ForceCondition();
          if u {
            noeval := noeval + 1;
          }
        }
      }
    }

    /** Assign to noeval. */
    method SetLevel(n: nat)
      requires Valid()
      modifies `noeval
      ensures Shape() && S() == SetNoeval(old(S()), n) && Valid() && noeval == n
    {
      noeval := n;
    }

    /** One branch of `?:`. */
    method ParseBranch(level: nat, pc: int)
      requires Valid() && pc < 137
      modifies this, tokens, stack
      ensures Shape() && S() == Parse(host, SetNoeval(old(S()), level), pc) && Valid() && old(ptr) <= ptr
      decreases |input| - ptr, 3
    {
      hide EvOk, Later, Parse, SetNoeval;
      SetLevel(level);
      Mathparse(pc);
    }

    /** Both, evaluating the one that the condition picks. */
    method ParseBranches(u: bool, n: nat)
      requires Valid()
      modifies this, tokens, stack
      ensures Shape() && Valid()
      ensures var s := Parse(host, SetNoeval(old(S()), if u then n else n + 1), Prec(Quest) - 1);
              S() == Parse(host, SetNoeval(s, if u then n + 1 else n), Prec(Quest))
      decreases |input| - ptr, 4
    {
      hide EvOk, Later, Parse, SetNoeval;
      ParseBranch(if u then n else n + 1, Prec(Quest) - 1);
      ParseBranch(if u then n + 1 else n, Prec(Quest));
    }

    /** `?:`: raise and lower noeval around the branch that is not taken. */
    method ParseConditional()
      requires Valid() && !errflag && mtok == Quest
      modifies this, tokens, stack
      ensures Shape() && S() == ParseCond(host, old(S())) && Valid()
      decreases |input| - ptr + 1, 0
    {
      hide EvOk, Later, ForceTop, Parse, ReduceSt, SetNoeval, ParseCond;
      var n := noeval;
      CondUnfolds(host, S());
      var u := ForceCondition();
      ParseBranches(u, n);
      SetLevel(n);
      Op(Quest);
    }

    /** Every other operator: save the noeval level, parse the right side, reduce. */
    method ParseRightSide()
      requires Valid() && !errflag && mtok != Eoi && Prec(mtok) < 137
      modifies this, tokens, stack
      ensures Shape() && S() == ParseOperator(host, old(S())) && Valid()
      decreases |input| - ptr + 1, 0
    {
      hide EvOk, Later, ShortCircuit, Parse, ReduceSt, SetNoeval;
      var otok, onoeval := mtok, noeval;
      TestShortCircuit(otok);
      Mathparse(RightLevel(otok));
      SetLevel(onoeval);
      Op(otok);
    }

    /** Shift and reduce while the next operator binds at least as tightly as `pc`. */
    method Mathparse(pc: int)
      requires Valid() && pc < 137
      modifies this, tokens, stack
      ensures Shape() && S() == Parse(host, old(S()), pc) && Valid()
      decreases |input| - ptr, 2
    {
      hide EvOk, Lex, Push, Parse, ParseLoop, ParseCond, ParseOperator, Later, Lookups;
      ParseUnfolds(host, S(), pc);
      if errflag {
        return;
      }
      mtok := Zzlex();
      var going := true;
      while going
        invariant Valid()
        invariant if going then ParseLoop(host, S(), pc) == Parse(host, old(S()), pc)
                  else S() == Parse(host, old(S()), pc)
        invariant Work(S()) <= |input| - old(ptr)
        decreases going, Work(S())
      {
        going := Advance(pc);
      }
    }

    /** The operand just lexed goes on the stack, and the next lexeme is read. */
    method ShiftOperand()
      requires Valid() && !errflag
      modifies this, tokens, stack
      ensures Shape() && Valid()
      ensures var s := old(S()).(ev := Push(old(E()), old(lastToken))); StOk(s) && S() == Lex(host, s)
    {
      hide EvOk, Lex, Push, Lookups;
      PushToken(lastToken);
      mtok := Zzlex();
    }

    /** One round of the loop of `mathparse`, or the end of it. */
    method Advance(pc: int) returns (going: bool)
      requires Valid() && pc < 137
      modifies this, tokens, stack
      ensures Shape() && Valid() && Work(S()) <= old(Work(S()))
      ensures if going then ParseLoop(host, S(), pc) == ParseLoop(host, old(S()), pc) && Work(S()) < old(Work(S()))
              else S() == ParseLoop(host, old(S()), pc)
      decreases Work(S()), 1
    {
      hide EvOk, Lex, Push, Parse, ParseLoop, ParseCond, ParseOperator, Later, Lookups, HandleOk;
      LoopUnfolds(host, S(), pc);
      if Prec(mtok) > pc || errflag {
        return false;
      }
      if mtok == Id {
        ShiftOperand();
      } else if mtok == InPar {
        Mathparse(TOPPREC);
        if mtok != OutPar {
          return false;
        }
        mtok := Zzlex();
      } else if mtok == Quest {
        ParseConditional();
      } else {
        ParseRightSide();
      }
      return true;
    }

    /** matheval, from the fresh context on. */
    method Evaluate() returns (result: string)
      requires Valid() && S() == Setup(input, history) && input != []
      modifies this, tokens, stack
      ensures (result, history) == Matheval(host, input, old(history))
    {
      hide EvOk, Parse, Pop, GetExpanded, Later, Setup, Lookups;
      Mathparse(TOPPREC);
      if errflag {
        return "";
      }
      var v := PopToken();
      result := GetTokenExpanded(v);
      assert E().history == history;
    }
  }

  lemma EntryOk(ev: Ev, v: nat)
    requires EvOk(ev) && v < |ev.table|
    ensures SymOk(ev.table[v])
  {
  }

  /** The parser and its loop, unfolded once. */
  lemma ParseUnfolds(h: Host, s: St, pc: int)
    requires StOk(s) && pc < 137
    ensures Parse(h, s, pc) == if s.lx.err then s else ParseLoop(h, Lex(h, s), pc)
    ensures !s.lx.err ==> Work(Lex(h, s)) <= |s.lx.rest|
  {
    hide EvOk, Lex, Later, Lookups;
  }

  lemma CondUnfolds(h: Host, s: St)
    requires StOk(s) && !s.lx.err && s.lx.mtok == Quest
    ensures var (u, e1) := ForceTop(h, s.ev);
            var n := s.ev.noeval;
            && StOk(St(s.lx, e1)) && (u, e1) == ForceTop(h, s.ev)
            && var s1 := Parse(h, SetNoeval(St(s.lx, e1), if u then n else n + 1), Prec(Quest) - 1);
               var s2 := Parse(h, SetNoeval(s1, if u then n + 1 else n), Prec(Quest));
               ParseCond(h, s) == ReduceSt(h, SetNoeval(s2, n), Quest)
  {
    hide EvOk, ForceTop, Parse, ReduceSt, SetNoeval, Lookups, SymLe;
  }

  lemma LoopUnfolds(h: Host, s: St, pc: int)
    requires StOk(s) && pc < 137
    ensures Prec(s.lx.mtok) > pc || s.lx.err ==> ParseLoop(h, s, pc) == s
    ensures Prec(s.lx.mtok) <= pc && !s.lx.err ==>
      if s.lx.mtok == Id then
        var s1 := s.(ev := Push(s.ev, s.lx.last));
        StOk(s1) && ParseLoop(h, s, pc) == ParseLoop(h, Lex(h, s1), pc) && Work(Lex(h, s1)) < Work(s)
      else if s.lx.mtok == InPar then
        var s1 := Parse(h, s, TOPPREC);
        if s1.lx.mtok != OutPar then ParseLoop(h, s, pc) == s1
        else !s1.lx.err && ParseLoop(h, s, pc) == ParseLoop(h, Lex(h, s1), pc) && Work(Lex(h, s1)) < Work(s)
      else if s.lx.mtok == Quest then
        ParseLoop(h, s, pc) == ParseLoop(h, ParseCond(h, s), pc) && Work(ParseCond(h, s)) < Work(s)
      else
        ParseLoop(h, s, pc) == ParseLoop(h, ParseOperator(h, s), pc) && Work(ParseOperator(h, s)) < Work(s)
  {
    hide EvOk, Lex, Push, ParseCond, ParseOperator, Parse, Lookups;
  }
}
