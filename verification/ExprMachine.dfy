/** The expression engine of source/expr2.c as functions on its state: the token table with its
    lazily cached conversions, the operand stack, the lexer, the reducer and the parser. */
module ExprMachine {
  import opened Options
  import opened ExprSyntax

  const TOKENCOUNT := 80
  const STACKSZ := 80
  const MAGIC_TOKEN := -14

  /** Doubles are opaque codes; the host gives the operations on them. */
  type Double = int

  /** What the engine asks of the rest of the client, in order. */
  datatype Event =
    | Expand(text: string)              // expand_alias
    | Read(name: string)                // alias_special_char: the value of a variable
    | Store(name: string, value: string) // add_var_alias
    | Run(text: string)                 // parse_line_with_return: a {...} block

  type History = seq<Event>

  /** The rest of the client. Answers may depend on everything asked before. */
  datatype Host = Host(
    args: string,
    expand: (string, History) -> string,
    read: (string, History) -> string,
    run: (string, History) -> string,
    atol: string -> int,
    atof: string -> Double,
    checkVal: string -> bool,
    showInt: int -> string,
    showDouble: Double -> string,
    wordCount: string -> int,
    intOp: (IntOp, int, int) -> int,
    floatOp: (FloatOp, Double, Double) -> Double,
    compareOp: (CompareOp, string, string) -> bool,
    complement: int -> int,
    negate: Double -> Double,
    isZero: Double -> bool,
    trunc: Double -> int,
    fromInt: int -> Double)

  /** Text that expand_alias copies without doing anything. */
  predicate Plain(text: string) {
    forall i | 0 <= i < |text| :: text[i] !in ['$', '(', '{', '\\']
  }

  /** Formatted numbers are plain. */
  ghost predicate Lawful(h: Host) {
    (forall i :: Plain(h.showInt(i))) && (forall d :: Plain(h.showDouble(d)))
  }

  function ShowBool(b: bool): (s: string)
    ensures Plain(s)
  {
    if b then "1" else "0"
  }

  function BoolResult(b: BoolOp, x: bool, y: bool): bool {
    match b
    case DAnd => x && y
    case DOr => x || y
    case DXor => (x && !y) || (!x && y)
  }

  // ---------- the token table ----------

  /** A table entry: a representation is present exactly when its USED flag is set. */
  datatype Sym = Sym(lval: Option<string>, raw: Option<string>, expanded: Option<string>,
                     integer: Option<int>, float: Option<Double>, boolean: Option<bool>)

  function LvalSym(t: string): Sym { Sym(Some(t), None, None, None, None, None) }
  function RawSym(t: string): Sym { Sym(None, Some(t), None, None, None, None) }
  function ExpandedSym(t: string): Sym { Sym(None, None, Some(t), None, None, None) }
  function IntSym(i: int): Sym { Sym(None, None, None, Some(i), None, None) }
  function DoubleSym(d: Double): Sym { Sym(None, None, None, None, Some(d), None) }
  function BoolSym(b: bool): Sym { Sym(None, None, None, None, None, Some(b)) }

  /** Rules out the "cannot convert" panics. */
  predicate SymOk(s: Sym) {
    && (s.lval.Some? || s.raw.Some? || s.expanded.Some? || s.integer.Some? || s.float.Some? || s.boolean.Some?)
    && (s.lval.Some? && s.expanded.Some? ==> s.raw.Some?)
  }

  /** Every representation `s` has, `t` has unchanged; both began life the same way. */
  ghost predicate SymLe(s: Sym, t: Sym) {
    && s.lval == t.lval
    && (s.raw == t.raw || s.raw.None?)
    && (s.expanded == t.expanded || s.expanded.None?)
    && (s.integer == t.integer || s.integer.None?)
    && (s.float == t.float || s.float.None?)
    && (s.boolean == t.boolean || s.boolean.None?)
  }

  /** The two things an entry may have to look up: an lvalue's name, and the text of any entry. */
  datatype Kind = NameOf | TextOf

  /** A lookup made for an entry, and what was asked. */
  datatype Charge = Charge(handle: nat, kind: Kind, event: Event)

  /** The evaluation half of the state. `log` is bookkeeping: it says for which entry each lookup in the
      history was made. */
  datatype Ev = Ev(noeval: nat, table: seq<Sym>, stack: seq<int>, history: History, log: seq<Charge>)

  predicate HandleOk(table: seq<Sym>, v: int) {
    v == MAGIC_TOKEN || v == -1 || v == 0 || 0 < v < |table|
  }

  ghost predicate EvOk(ev: Ev) {
    && 1 <= |ev.table| <= TOKENCOUNT
    && |ev.stack| <= STACKSZ
    && ev.table[0].lval == None && ev.table[0].raw == Some("") && ev.table[0].expanded == None
    && (forall i | 0 <= i < |ev.table| :: SymOk(ev.table[i]))
    && (forall i | 0 <= i < |ev.stack| :: HandleOk(ev.table, ev.stack[i]))
    && LogOk(ev.table, ev.history, ev.log)
  }

  /** The entry has been flagged for what the lookup was made for, and was asked for by its own name. */
  predicate Charged(table: seq<Sym>, c: Charge) {
    && 0 < c.handle < |table| && table[c.handle].raw.Some?
    && var s := table[c.handle];
       match c.kind
       case NameOf => s.lval.Some? && c.event == Expand(s.lval.value)
       case TextOf => s.expanded.Some? && c.event == if s.lval.Some? then Read(s.raw.value) else Expand(s.raw.value)
  }

  /** No entry has been charged twice for the same thing. */
  ghost predicate OnceEach(log: seq<Charge>) {
    forall i, j | 0 <= i < j < |log| :: log[i].handle != log[j].handle || log[i].kind != log[j].kind
  }

  predicate IsLookup(e: Event) {
    e.Expand? || e.Read?
  }

  /** The expansions and variable reads in a history. */
  function Lookups(hist: History): History {
    if hist == [] then []
    else Lookups(hist[..|hist| - 1]) + (if IsLookup(hist[|hist| - 1]) then [hist[|hist| - 1]] else [])
  }

  /** The last lookups of the history are those of the log, in order. */
  ghost predicate Tallies(hist: History, log: seq<Charge>) {
    && |log| <= |Lookups(hist)|
    && forall i | 0 <= i < |log| :: Lookups(hist)[|Lookups(hist)| - |log| + i] == log[i].event
  }

  ghost predicate LogOk(table: seq<Sym>, hist: History, log: seq<Charge>) {
    (forall i | 0 <= i < |log| :: Charged(table, log[i])) && OnceEach(log) && Tallies(hist, log)
  }

  lemma LookupsAppend(hist: History, e: Event)
    ensures Lookups(hist + [e]) == Lookups(hist) + (if IsLookup(e) then [e] else [])
  {
    assert (hist + [e])[..|hist|] == hist;
  }

  lemma LogTokenized(table: seq<Sym>, hist: History, log: seq<Charge>, s: Sym)
    requires LogOk(table, hist, log)
    ensures LogOk(table + [s], hist, log)
  {
    hide Tallies, OnceEach;
  }

  lemma LogFilled(table: seq<Sym>, hist: History, log: seq<Charge>, v: nat, s: Sym)
    requires LogOk(table, hist, log) && v < |table| && SymLe(table[v], s)
    ensures LogOk(table[v := s], hist, log)
  {
    hide Tallies, OnceEach;
    forall i | 0 <= i < |log|
      ensures Charged(table[v := s], log[i])
    {
      assert Charged(table, log[i]);
    }
  }

  lemma LogOther(table: seq<Sym>, hist: History, log: seq<Charge>, e: Event)
    requires LogOk(table, hist, log) && !IsLookup(e)
    ensures LogOk(table, hist + [e], log) && Lookups(hist + [e]) == Lookups(hist)
  {
    LookupsAppend(hist, e);
  }

  /** A lookup for something the entry had not been flagged for. */
  lemma LogCharged(table: seq<Sym>, hist: History, log: seq<Charge>, s: Sym, c: Charge)
    requires LogOk(table, hist, log) && c.handle < |table| && SymLe(table[c.handle], s)
    requires Charged(table[c.handle := s], c) && IsLookup(c.event)
    requires match c.kind case NameOf => table[c.handle].raw.None? case TextOf => table[c.handle].expanded.None?
    ensures LogOk(table[c.handle := s], hist + [c.event], log + [c])
    ensures |Lookups(hist + [c.event])| == |Lookups(hist)| + 1
  {
    LogFilled(table, hist, log, c.handle, s);
    LookupsAppend(hist, c.event);
    forall i | 0 <= i < |log|
      ensures log[i].handle != c.handle || log[i].kind != c.kind
    {
      assert Charged(table, log[i]);
    }
    hide Charged, SymLe, Lookups, IsLookup;
  }

  function ExpandAlias(h: Host, text: string, hist: History): (r: (string, History))
    ensures hist <= r.1
  {
    if Plain(text) then (text, hist) else (h.expand(text, hist), hist + [Expand(text)])
  }

  /** The log after expand_alias was called for an entry. */
  function Billed(log: seq<Charge>, v: nat, kind: Kind, text: string): seq<Charge> {
    if Plain(text) then log else log + [Charge(v, kind, Expand(text))]
  }

  function ReadVar(h: Host, name: string, hist: History): (r: (string, History))
    ensures hist <= r.1
  {
    (h.read(name, hist), hist + [Read(name)])
  }

  /** An entry gains its name or text by expansion: if that took a lookup it is charged for it. */
  lemma LogExpanded(h: Host, ev: Ev, v: nat, kind: Kind, text: string, s: Sym)
    requires LogOk(ev.table, ev.history, ev.log) && 0 < v < |ev.table| && SymLe(ev.table[v], s)
    requires Charged(ev.table[v := s], Charge(v, kind, Expand(text)))
    requires match kind case NameOf => ev.table[v].raw.None? case TextOf => ev.table[v].expanded.None?
    ensures var hist := ExpandAlias(h, text, ev.history).1;
            && LogOk(ev.table[v := s], hist, Billed(ev.log, v, kind, text))
            && |Lookups(hist)| - |Lookups(ev.history)| == |Billed(ev.log, v, kind, text)| - |ev.log|
  {
    if Plain(text) {
      LogFilled(ev.table, ev.history, ev.log, v, s);
    } else {
      LogCharged(ev.table, ev.history, ev.log, s, Charge(v, kind, Expand(text)));
    }
  }

  /** What every step keeps of the table and history: entries only gain representations, history and log
      only grow, and the history gains exactly the lookups that the log does. */
  ghost predicate Later(ev: Ev, e2: Ev) {
    && |ev.table| <= |e2.table|
    && (forall i | 0 <= i < |ev.table| :: SymLe(ev.table[i], e2.table[i]))
    && ev.history <= e2.history && ev.log <= e2.log
    && |Lookups(e2.history)| - |Lookups(ev.history)| == |e2.log| - |ev.log|
  }

  /** Nothing but entry `v` is changed, if there is one. */
  predicate OwnEntry(table: seq<Sym>, table2: seq<Sym>, v: int) {
    |table2| == |table| && table2 == if 0 <= v < |table| then table[v := table2[v]] else table
  }

  /** A step that leaves the stack and the noeval level alone. */
  ghost predicate Quiet(ev: Ev, e2: Ev) {
    EvOk(e2) && Later(ev, e2) && e2.noeval == ev.noeval && e2.stack == ev.stack
  }

  function Tokenize(ev: Ev, s: Sym): (r: (int, Ev))
    requires EvOk(ev) && SymOk(s)
    ensures Quiet(ev, r.1) && HandleOk(r.1.table, r.0)
  {
    hide SymOk, LogOk;
    if |ev.table| >= TOKENCOUNT then (-1, ev)
    else
      LogTokenized(ev.table, ev.history, ev.log, s);
      (|ev.table|, ev.(table := ev.table + [s]))
  }

  /** get_token_raw. */
  function GetRaw(h: Host, ev: Ev, v: int): (r: (string, Ev))
    requires EvOk(ev)
    requires 0 < v < |ev.table| && ev.noeval == 0 && ev.table[v].raw.None? ==> ev.table[v].expanded.None?
    ensures Quiet(ev, r.1) && OwnEntry(ev.table, r.1.table, v)
    ensures 0 < v < |ev.table| && ev.noeval == 0 ==> r.1.table[v] == ev.table[v].(raw := Some(r.0))
  {
    hide ExpandAlias, Lookups, LogOk, Billed;
    if v == MAGIC_TOKEN then (h.args, ev)
    else if v <= 0 || v >= |ev.table| || ev.noeval != 0 then ("", ev)
    else
      var s := ev.table[v];
      if s.raw.Some? then (s.raw.value, ev)
      else if s.float.Some? then (h.showDouble(s.float.value), FillRaw(ev, v, h.showDouble(s.float.value)))
      else if s.integer.Some? then (h.showInt(s.integer.value), FillRaw(ev, v, h.showInt(s.integer.value)))
      else if s.boolean.Some? then (ShowBool(s.boolean.value), FillRaw(ev, v, ShowBool(s.boolean.value)))
      else
        var (text, hist) := ExpandAlias(h, s.lval.value, ev.history);
        LogExpanded(h, ev, v, NameOf, s.lval.value, s.(raw := Some(text)));
        (text, ev.(table := ev.table[v := s.(raw := Some(text))], history := hist,
                   log := Billed(ev.log, v, NameOf, s.lval.value)))
  }

  /** A raw text made from a number takes no lookup. */
  function FillRaw(ev: Ev, v: nat, text: string): (r: Ev)
    requires EvOk(ev) && 0 < v < |ev.table| && ev.table[v].raw.None?
    ensures Quiet(ev, r)
  {
    LogFilled(ev.table, ev.history, ev.log, v, ev.table[v].(raw := Some(text)));
    hide LogOk;
    ev.(table := ev.table[v := ev.table[v].(raw := Some(text))])
  }

  /** get_token_lval. */
  function GetLval(h: Host, ev: Ev, v: int): (r: (Option<string>, Ev))
    requires EvOk(ev)
    ensures Quiet(ev, r.1) && OwnEntry(ev.table, r.1.table, v)
    ensures 0 < v < |ev.table| && ev.noeval == 0 && ev.table[v].lval.Some? ==> r.0.Some? && r.1.table[v].raw == r.0
  {
    hide LogOk;
    if v == MAGIC_TOKEN then (Some(h.args), ev)
    else if v <= 0 || v >= |ev.table| || ev.table[v].lval.None? then (None, ev)
    else if ev.noeval != 0 then (Some(""), ev)
    else
      var (text, e2) := GetRaw(h, ev, v);
      (Some(text), e2)
  }

  /** Filling in the text of an entry whose raw text is there: a variable is read, other text expanded. */
  function FillExpanded(h: Host, ev: Ev, v: nat, text: string): (r: (string, Ev))
    requires EvOk(ev) && 0 < v < |ev.table| && ev.table[v].expanded.None? && ev.table[v].raw == Some(text)
    ensures Quiet(ev, r.1) && r.1.table == ev.table[v := ev.table[v].(expanded := Some(r.0))]
  {
    hide ExpandAlias, Lookups, LogOk, Billed;
    var s := ev.table[v];
    if s.lval.Some? then
      var (value, hist) := ReadVar(h, text, ev.history);
      LogCharged(ev.table, ev.history, ev.log, s.(expanded := Some(value)), Charge(v, TextOf, Read(text)));
      (value, ev.(table := ev.table[v := s.(expanded := Some(value))], history := hist,
                  log := ev.log + [Charge(v, TextOf, Read(text))]))
    else
      var (value, hist) := ExpandAlias(h, text, ev.history);
      LogExpanded(h, ev, v, TextOf, text, s.(expanded := Some(value)));
      (value, ev.(table := ev.table[v := s.(expanded := Some(value))], history := hist,
                  log := Billed(ev.log, v, TextOf, text)))
  }

  /** get_token_expanded. */
  function GetExpanded(h: Host, ev: Ev, v: int): (r: (string, Ev))
    requires EvOk(ev)
    ensures Quiet(ev, r.1) && OwnEntry(ev.table, r.1.table, v)
    ensures 0 < v < |ev.table| && ev.noeval == 0 ==> r.1.table[v].expanded == Some(r.0)
    ensures 0 <= v < |ev.table| ==>
              r.1.table[v] == ev.table[v].(raw := r.1.table[v].raw, expanded := r.1.table[v].expanded)
  {
    hide GetRaw, FillExpanded, Lookups, LogOk;
    if v == MAGIC_TOKEN then (h.args, ev)
    else if v <= 0 || v >= |ev.table| || ev.noeval != 0 then ("", ev)
    else if ev.table[v].expanded.Some? then (ev.table[v].expanded.value, ev)
    else
      var (text, e1) := GetRaw(h, ev, v);
      FillExpanded(h, e1, v, text)
  }

  /** get_token_integer. */
  function GetInt(h: Host, ev: Ev, v: int): (r: (int, Ev))
    requires EvOk(ev)
    ensures Quiet(ev, r.1) && OwnEntry(ev.table, r.1.table, v)
  {
    hide GetExpanded, Lookups, LogOk;
    if v == MAGIC_TOKEN then (h.atol(h.args), ev)
    else if v < 0 || v >= |ev.table| then (0, ev)
    else if ev.table[v].integer.Some? then (ev.table[v].integer.value, ev)
    else
      var (text, e1) := GetExpanded(h, ev, v);
      var s := e1.table[v].(integer := Some(h.atol(text)));
      LogFilled(e1.table, e1.history, e1.log, v, s);
      (h.atol(text), e1.(table := e1.table[v := s]))
  }

  /** get_token_float. `Double` code 0 stands for 0.0. */
  function GetFloat(h: Host, ev: Ev, v: int): (r: (Double, Ev))
    requires EvOk(ev)
    ensures Quiet(ev, r.1) && OwnEntry(ev.table, r.1.table, v)
  {
    hide GetExpanded, Lookups, LogOk;
    if v == MAGIC_TOKEN then (h.atof(h.args), ev)
    else if v < 0 || v >= |ev.table| then (0, ev)
    else if ev.table[v].float.Some? then (ev.table[v].float.value, ev)
    else
      var (text, e1) := GetExpanded(h, ev, v);
      var s := e1.table[v].(float := Some(h.atof(text)));
      LogFilled(e1.table, e1.history, e1.log, v, s);
      (h.atof(text), e1.(table := e1.table[v := s]))
  }

  /** get_token_boolean. */
  function GetBool(h: Host, ev: Ev, v: int): (r: (bool, Ev))
    requires EvOk(ev)
    ensures Quiet(ev, r.1) && OwnEntry(ev.table, r.1.table, v)
  {
    hide GetExpanded, Lookups, LogOk;
    if v == MAGIC_TOKEN then (h.checkVal(h.args), ev)
    else if v < 0 || v >= |ev.table| then (false, ev)
    else if ev.table[v].boolean.Some? then (ev.table[v].boolean.value, ev)
    else
      var (text, e1) := GetExpanded(h, ev, v);
      var s := e1.table[v].(boolean := Some(h.checkVal(text)));
      LogFilled(e1.table, e1.history, e1.log, v, s);
      (h.checkVal(text), e1.(table := e1.table[v := s]))
  }

  // ---------- the operand stack ----------

  /** A step that leaves the noeval level alone. */
  ghost predicate Step(ev: Ev, e2: Ev) {
    EvOk(e2) && Later(ev, e2) && e2.noeval == ev.noeval
  }

  function Push(ev: Ev, v: int): (r: Ev)
    requires EvOk(ev) && HandleOk(ev.table, v)
    ensures Step(ev, r)
  {
    if |ev.stack| == STACKSZ then ev else ev.(stack := ev.stack + [v])
  }

  function Pop(ev: Ev): (r: (int, Ev))
    requires EvOk(ev)
    ensures Step(ev, r.1) && HandleOk(ev.table, r.0) && r.1.table == ev.table
  {
    if |ev.stack| == 0 then (0, ev)
    else (ev.stack[|ev.stack| - 1], ev.(stack := ev.stack[..|ev.stack| - 1]))
  }

  function PushNew(ev: Ev, s: Sym): (r: Ev)
    requires EvOk(ev) && SymOk(s)
    ensures Step(ev, r)
  {
    var (v, e1) := Tokenize(ev, s);
    Push(e1, v)
  }

  /** add_var_alias. */
  function SetVar(ev: Ev, name: string, value: string): (r: Ev)
    requires EvOk(ev)
    ensures Quiet(ev, r) && r.table == ev.table
  {
    LogOther(ev.table, ev.history, ev.log, Store(name, value));
    hide LogOk, Lookups;
    ev.(history := ev.history + [Store(name, value)])
  }

  /** Steps make up steps. */
  lemma StepsAdd()
    ensures forall a | EvOk(a) :: Step(a, a)
    ensures forall a, b, c | Step(a, b) && Step(b, c) :: Step(a, c)
    ensures forall a, b | Step(a, b) :: |a.table| <= |b.table|
    ensures forall a, b | Quiet(a, b) :: Step(a, b)
  {
    hide EvOk, Lookups;
  }

  // ---------- the reducer ----------

  /** The `pop_2_...` family: the right operand is forced first. */
  function PopInts(h: Host, ev: Ev): (r: (int, int, Ev))
    requires EvOk(ev)
    ensures Step(ev, r.2)
  {
    hide EvOk, GetInt, Pop;
    var (w, e1) := Pop(ev);
    var (j, e2) := GetInt(h, e1, w);
    var (v, e3) := Pop(e2);
    var (i, e4) := GetInt(h, e3, v);
    (i, j, e4)
  }

  function PopFloats(h: Host, ev: Ev): (r: (Double, Double, Ev))
    requires EvOk(ev)
    ensures Step(ev, r.2)
  {
    hide EvOk, GetFloat, Pop;
    var (w, e1) := Pop(ev);
    var (b, e2) := GetFloat(h, e1, w);
    var (v, e3) := Pop(e2);
    var (a, e4) := GetFloat(h, e3, v);
    (a, b, e4)
  }

  function PopBools(h: Host, ev: Ev): (r: (bool, bool, Ev))
    requires EvOk(ev)
    ensures Step(ev, r.2)
  {
    hide EvOk, GetBool, Pop;
    var (w, e1) := Pop(ev);
    var (d, e2) := GetBool(h, e1, w);
    var (v, e3) := Pop(e2);
    var (c, e4) := GetBool(h, e3, v);
    (c, d, e4)
  }

  function PopStrings(h: Host, ev: Ev): (r: (string, string, Ev))
    requires EvOk(ev)
    ensures Step(ev, r.2)
  {
    hide EvOk, GetExpanded, Pop;
    var (w, e1) := Pop(ev);
    var (t, e2) := GetExpanded(h, e1, w);
    var (v, e3) := Pop(e2);
    var (s, e4) := GetExpanded(h, e3, v);
    (s, t, e4)
  }

  /** Tokenize a result and store its text in the variable. */
  function StoreText(h: Host, ev: Ev, name: string, s: Sym): (r: (int, Ev))
    requires EvOk(ev) && SymOk(s)
    ensures Quiet(ev, r.1) && HandleOk(r.1.table, r.0)
  {
    hide EvOk, GetExpanded, Tokenize, SetVar;
    var (w, e1) := Tokenize(ev, s);
    var (t, e2) := GetExpanded(h, e1, w);
    (w, SetVar(e2, name, t))
  }

  /** The tail of the IMPLIED_... macros: store the result and push it. */
  function StoreNew(h: Host, ev: Ev, name: string, s: Sym): (r: Ev)
    requires EvOk(ev) && SymOk(s)
    ensures Step(ev, r)
  {
    hide EvOk, StoreText, Push;
    var (w, e1) := StoreText(h, ev, name, s);
    Push(e1, w)
  }

  /** AUTO_UNARY: store `j + delta`, push `j + result`. */
  function AutoUnary(h: Host, ev: Ev, delta: int, result: int): (r: Ev)
    requires EvOk(ev)
    ensures Step(ev, r)
  {
    hide EvOk, GetLval, GetInt, StoreText, Push, PushNew, Pop;
    var (v, e1) := Pop(ev);
    var (name, e2) := GetLval(h, e1, v);
    if name.None? then Push(e2, 0) else
    var (j, e3) := GetInt(h, e2, v);
    PushNew(StoreText(h, e3, name.value, IntSym(j + delta)).1, IntSym(j + result))
  }

  function ReduceNot(h: Host, ev: Ev): (r: Ev)
    requires EvOk(ev)
    ensures Step(ev, r)
  {
    hide EvOk, GetBool, PushNew, Pop;
    var (v, e1) := Pop(ev);
    var (c, e2) := GetBool(h, e1, v);
    PushNew(e2, BoolSym(!c))
  }

  function ReduceComp(h: Host, ev: Ev): (r: Ev)
    requires EvOk(ev)
    ensures Step(ev, r)
  {
    hide EvOk, GetInt, PushNew, Pop;
    var (v, e1) := Pop(ev);
    var (i, e2) := GetInt(h, e1, v);
    PushNew(e2, IntSym(h.complement(i)))
  }

  function ReduceSign(h: Host, ev: Ev, minus: bool): (r: Ev)
    requires EvOk(ev)
    ensures Step(ev, r)
  {
    hide EvOk, GetFloat, PushNew, Pop;
    var (v, e1) := Pop(ev);
    var (a, e2) := GetFloat(h, e1, v);
    PushNew(e2, DoubleSym(if minus then h.negate(a) else a))
  }

  function ReduceLength(h: Host, ev: Ev, words: bool): (r: Ev)
    requires EvOk(ev)
    ensures Step(ev, r)
  {
    hide EvOk, GetExpanded, PushNew, Pop;
    var (v, e1) := Pop(ev);
    var (s, e2) := GetExpanded(h, e1, v);
    PushNew(e2, IntSym(if words then h.wordCount(s) else |s|))
  }

  function ReduceDeref(h: Host, ev: Ev): (r: Ev)
    requires EvOk(ev)
    ensures Step(ev, r)
  {
    hide EvOk, GetExpanded, PushNew, Pop;
    if |ev.stack| > 0 && ev.stack[|ev.stack| - 1] == MAGIC_TOKEN then ev else
    var (v, e1) := Pop(ev);
    var (s, e2) := GetExpanded(h, e1, v);
    PushNew(e2, LvalSym(s))
  }

  function ReduceUnary(h: Host, ev: Ev, u: UnOp): (r: Ev)
    requires EvOk(ev)
    ensures Step(ev, r)
  {
    hide EvOk, AutoUnary, ReduceNot, ReduceComp, ReduceSign, ReduceLength, ReduceDeref;
    match u
    case PrePlus => AutoUnary(h, ev, 1, 1)
    case PreMinus => AutoUnary(h, ev, -1, -1)
    case PostPlus => AutoUnary(h, ev, 1, 0)
    case PostMinus => AutoUnary(h, ev, -1, 0)
    case Not => ReduceNot(h, ev)
    case Comp => ReduceComp(h, ev)
    case UPlus => ReduceSign(h, ev, false)
    case UMinus => ReduceSign(h, ev, true)
    case StrLen => ReduceLength(h, ev, false)
    case WordC => ReduceLength(h, ev, true)
    case Deref => ReduceDeref(h, ev)
  }

  /** `=`: the right token itself is the result. */
  function AssignSet(h: Host, ev: Ev, name: string, w: int): (r: Ev)
    requires EvOk(ev) && HandleOk(ev.table, w)
    ensures Step(ev, r)
  {
    hide EvOk, GetExpanded, Push, SetVar;
    var (t, e1) := GetExpanded(h, ev, w);
    SetVar(Push(e1, w), name, t)
  }

  /** IMPLIED_INTEGER, and IMPLIED_INTEGER_NOZERO, which converts through double and tokenizes a float. */
  function AssignInt(h: Host, ev: Ev, name: string, v: int, w: int, i: IntOp): (r: Ev)
    requires EvOk(ev)
    ensures Step(ev, r)
  {
    hide EvOk, GetFloat, GetInt, Push, SetVar, StoreNew, Later;
    StepsAdd();
    if i == Mod then
      var (x, e1) := GetFloat(h, ev, v);
      var (y, e2) := GetFloat(h, e1, w);
      if h.trunc(y) == 0 then Push(SetVar(e2, name, ""), 0)
      else StoreNew(h, e2, name, DoubleSym(h.fromInt(h.intOp(Mod, h.trunc(x), h.trunc(y)))))
    else
      var (x, e1) := GetInt(h, ev, v);
      var (y, e2) := GetInt(h, e1, w);
      StoreNew(h, e2, name, IntSym(h.intOp(i, x, y)))
  }

  /** IMPLIED_FLOAT and IMPLIED_FLOAT_NOZERO. */
  function AssignFloat(h: Host, ev: Ev, name: string, v: int, w: int, f: FloatOp): (r: Ev)
    requires EvOk(ev)
    ensures Step(ev, r)
  {
    hide EvOk, GetFloat, Push, SetVar, StoreNew, Later;
    StepsAdd();
    var (x, e1) := GetFloat(h, ev, v);
    var (y, e2) := GetFloat(h, e1, w);
    if f == Div && h.isZero(y) then Push(SetVar(e2, name, ""), 0)
    else StoreNew(h, e2, name, DoubleSym(h.floatOp(f, x, y)))
  }

  /** IMPLIED_BOOLEAN. */
  function AssignBool(h: Host, ev: Ev, name: string, v: int, w: int, b: BoolOp): (r: Ev)
    requires EvOk(ev)
    ensures Step(ev, r)
  {
    hide EvOk, GetBool, StoreNew;
    var (x, e1) := GetBool(h, ev, v);
    var (y, e2) := GetBool(h, e1, w);
    StoreNew(h, e2, name, BoolSym(BoolResult(b, x, y)))
  }

  /** `##=` and `#~`: concatenate, forcing the first part first. */
  function AssignCat(h: Host, ev: Ev, name: string, first: int, second: int): (r: Ev)
    requires EvOk(ev)
    ensures Step(ev, r)
  {
    hide EvOk, GetExpanded, PushNew, SetVar;
    var (s, e1) := GetExpanded(h, ev, first);
    var (t, e2) := GetExpanded(h, e1, second);
    SetVar(PushNew(e2, ExpandedSym(s + t)), name, s + t)
  }

  /** `<=>`. */
  function AssignSwap(h: Host, ev: Ev, name: string, v: int, w: int): (r: Ev)
    requires EvOk(ev) && HandleOk(ev.table, w)
    ensures Step(ev, r)
  {
    hide EvOk, GetLval, GetExpanded, Push, SetVar;
    var (name2, e1) := GetLval(h, ev, w);
    if name2.None? then Push(e1, 0) else
    var (s, e2) := GetExpanded(h, e1, v);
    var (t, e3) := GetExpanded(h, e2, w);
    Push(SetVar(SetVar(e3, name, t), name2.value, s), w)
  }

  /** The assignment macros, once the operands are off the stack and the name is known. */
  function DispatchAssign(h: Host, ev: Ev, a: AssignOp, name: string, v: int, w: int): (r: Ev)
    requires EvOk(ev) && HandleOk(ev.table, w)
    ensures Step(ev, r)
  {
    hide EvOk, AssignSet, AssignInt, AssignFloat, AssignBool, AssignCat, AssignSwap;
    match a
    case Set => AssignSet(h, ev, name, w)
    case IntSet(i) => AssignInt(h, ev, name, v, w, i)
    case FloatSet(f) => AssignFloat(h, ev, name, v, w, f)
    case BoolSet(b) => AssignBool(h, ev, name, v, w, b)
    case CatSet => AssignCat(h, ev, name, v, w)
    case PreSet => AssignCat(h, ev, name, w, v)
    case Swap => AssignSwap(h, ev, name, v, w)
  }

  function ReduceAssign(h: Host, ev: Ev, a: AssignOp): (r: Ev)
    requires EvOk(ev)
    ensures Step(ev, r)
  {
    hide EvOk, Pop, GetLval, Push, DispatchAssign;
    var (w, e1) := Pop(ev);
    var (v, e2) := Pop(e1);
    var (name, e3) := GetLval(h, e2, v);
    if name.None? then Push(e3, 0) else DispatchAssign(h, e3, a, name.value, v, w)
  }

  function ReduceInt(h: Host, ev: Ev, i: IntOp): (r: Ev)
    requires EvOk(ev)
    ensures Step(ev, r)
  {
    hide EvOk, PopInts, Push, PushNew;
    var (x, y, e1) := PopInts(h, ev);
    if i == Mod && y == 0 then Push(e1, 0) else PushNew(e1, IntSym(h.intOp(i, x, y)))
  }

  function ReduceFloat(h: Host, ev: Ev, f: FloatOp): (r: Ev)
    requires EvOk(ev)
    ensures Step(ev, r)
  {
    hide EvOk, PopFloats, Push, PushNew;
    var (x, y, e1) := PopFloats(h, ev);
    if f == Div && h.isZero(y) then Push(e1, 0) else PushNew(e1, DoubleSym(h.floatOp(f, x, y)))
  }

  function ReduceBool(h: Host, ev: Ev, o: BoolOp): (r: Ev)
    requires EvOk(ev)
    ensures Step(ev, r)
  {
    hide EvOk, PopBools, PushNew;
    var (x, y, e1) := PopBools(h, ev);
    PushNew(e1, BoolSym(BoolResult(o, x, y)))
  }

  function ReduceStrCat(h: Host, ev: Ev): (r: Ev)
    requires EvOk(ev)
    ensures Step(ev, r)
  {
    hide EvOk, PopStrings, PushNew;
    var (s, t, e1) := PopStrings(h, ev);
    PushNew(e1, ExpandedSym(s + t))
  }

  function ReduceCompare(h: Host, ev: Ev, c: CompareOp): (r: Ev)
    requires EvOk(ev)
    ensures Step(ev, r)
  {
    hide EvOk, PopStrings, PushNew;
    var (s, t, e1) := PopStrings(h, ev);
    PushNew(e1, BoolSym(h.compareOp(c, s, t)))
  }

  function ReduceComma(ev: Ev): (r: Ev)
    requires EvOk(ev)
    ensures Step(ev, r)
  {
    hide EvOk, Pop, Push;
    var (w, e1) := Pop(ev);
    var (_, e2) := Pop(e1);
    Push(e2, w)
  }

  function ReduceBinary(h: Host, ev: Ev, b: BinOp): (r: Ev)
    requires EvOk(ev)
    ensures Step(ev, r)
  {
    hide EvOk, ReduceInt, ReduceFloat, ReduceBool, ReduceStrCat, ReduceCompare, ReduceAssign, ReduceComma;
    match b
    case Int(i) => ReduceInt(h, ev, i)
    case Float(f) => ReduceFloat(h, ev, f)
    case Bool(o) => ReduceBool(h, ev, o)
    case StrCat => ReduceStrCat(h, ev)
    case Compare(c) => ReduceCompare(h, ev, c)
    case Assign(a) => ReduceAssign(h, ev, a)
    case Comma => ReduceComma(ev)
  }

  /** `?:`: the condition picks one of the two branch tokens, unforced. */
  function ReduceCond(h: Host, ev: Ev): (r: Ev)
    requires EvOk(ev)
    ensures Step(ev, r)
  {
    hide EvOk, Pop, GetBool, Push;
    var (w, e1) := Pop(ev);
    var (v, e2) := Pop(e1);
    var (c, e3) := Pop(e2);
    var (x, e4) := GetBool(h, e3, c);
    Push(e4, if x then v else w)
  }

  /** `op`, apart from its test of the error flag. */
  function Reduce(h: Host, ev: Ev, t: Tok): (r: Ev)
    requires EvOk(ev)
    ensures Step(ev, r)
  {
    hide EvOk, ReduceUnary, ReduceBinary, ReduceCond;
    if |ev.stack| == 0 then ev else
    match t
    case Unary(u) => ReduceUnary(h, ev, u)
    case Binary(b) => ReduceBinary(h, ev, b)
    case Quest => ReduceCond(h, ev)
    case _ => ev
  }

  // ---------- the lexer ----------

  /** The lexing half of the state. `rest` is the input from `ptr` on. */
  datatype Lx = Lx(rest: seq<Lexeme>, operand: int, mtok: Tok, last: int, err: bool)

  datatype St = St(lx: Lx, ev: Ev)

  ghost predicate StOk(s: St) {
    && EvOk(s.ev)
    && 0 <= s.lx.operand <= 2
    && HandleOk(s.ev.table, s.lx.last)
    && (s.lx.err ==> s.lx.mtok == Eoi)
  }

  function CheckImplied(s: St): (r: St)
    requires StOk(s) && !s.lx.err
    ensures StOk(r) && Step(s.ev, r.ev) && r.lx == s.lx.(operand := r.lx.operand)
    ensures r.lx.operand == if s.lx.operand == 2 then 0 else s.lx.operand
  {
    if s.lx.operand == 2 then St(s.lx.(operand := 0), Push(s.ev, MAGIC_TOKEN)) else s
  }

  function LexError(s: St): (r: St) {
    s.(lx := s.lx.(err := true, mtok := Eoi))
  }

  /** `operator`: an infix operator. */
  function LexInfix(s: St, t: Tok): (r: St)
    requires StOk(s) && !s.lx.err
    ensures StOk(r) && Step(s.ev, r.ev) && r.lx.rest == s.lx.rest && (r.lx.mtok == t || r.lx.mtok == Eoi)
  {
    var s1 := CheckImplied(s);
    if s1.lx.operand != 0 then LexError(s1) else s1.(lx := s1.lx.(operand := 1, mtok := t))
  }

  /** `unary`: a prefix operator; `dummy` is the operand flag it leaves. */
  function LexPrefix(s: St, t: Tok, dummy: int): (r: St)
    requires StOk(s) && !s.lx.err && 1 <= dummy <= 2
    ensures StOk(r) && r.ev == s.ev && r.lx.rest == s.lx.rest && (r.lx.mtok == t || r.lx.mtok == Eoi)
  {
    if s.lx.operand == 0 then LexError(s) else s.(lx := s.lx.(operand := dummy, mtok := t))
  }

  /** An operand: it becomes the last token, unless nothing is being evaluated. */
  function LexOperand(s: St, sym: Sym): (r: St)
    requires StOk(s) && !s.lx.err && SymOk(sym)
    ensures StOk(r) && Step(s.ev, r.ev) && r.lx.rest == s.lx.rest
  {
    hide EvOk, Tokenize, Lookups;
    if s.ev.noeval != 0 then s.(lx := s.lx.(operand := 0, last := 0, mtok := Id))
    else
      var (v, e1) := Tokenize(s.ev, sym);
      St(s.lx.(operand := 0, last := v, mtok := Id), e1)
  }

  /** A `{...}` block runs as it is lexed, unless nothing is being evaluated. */
  function LexBlock(h: Host, s: St, text: string): (r: St)
    requires StOk(s) && !s.lx.err
    ensures StOk(r) && Step(s.ev, r.ev) && r.lx.rest == s.lx.rest
  {
    hide LexOperand, Lookups, LogOk;
    if s.ev.noeval != 0 then s.(lx := s.lx.(operand := 0, last := 0, mtok := Id))
    else
      LogOther(s.ev.table, s.ev.history, s.ev.log, Run(text));
      LexOperand(s.(ev := s.ev.(history := s.ev.history + [Run(text)])), ExpandedSym(h.run(text, s.ev.history)))
  }

  /** Text after_expando_special finds no name in: the rest of the input is dropped. */
  function LexPunt(s: St): (r: St)
    requires StOk(s) && !s.lx.err
    ensures StOk(r) && r.ev == s.ev && r.lx.rest == []
  {
    s.(lx := s.lx.(operand := 0, last := 0, mtok := Id, rest := []))
  }

  /** `:` and `,` are operators only where no operand is due. */
  function LexMark(s: St, t: Tok): (r: St)
    requires StOk(s) && !s.lx.err
    ensures StOk(r) && r.ev == s.ev && |r.lx.rest| <= |s.lx.rest|
  {
    if s.lx.operand != 0 then LexPunt(s) else s.(lx := s.lx.(operand := 1, mtok := t))
  }

  /** `zzlex`: what lexeme `x` does, with `rest` already past it. */
  function LexOne(h: Host, s: St, x: Lexeme): (r: St)
    requires StOk(s) && !s.lx.err
    ensures StOk(r) && Step(s.ev, r.ev) && |r.lx.rest| <= |s.lx.rest|
  {
    hide EvOk, Push, CheckImplied, LexInfix, LexPrefix, LexOperand, LexBlock, LexPunt, LexMark, Lookups;
    match x
    case LeftParen => s.(lx := s.lx.(operand := 1, mtok := InPar))
    case RightParen =>
      var s1 := CheckImplied(s);
      St(s1.lx.(operand := 0, mtok := OutPar), if s1.lx.operand != 0 then Push(s1.ev, 0) else s1.ev)
    case PlusPlus =>
      var s1 := CheckImplied(s);
      s1.(lx := s1.lx.(mtok := Unary(if s1.lx.operand != 0 then PrePlus else PostPlus)))
    case MinusMinus =>
      var s1 := CheckImplied(s);
      s1.(lx := s1.lx.(mtok := Unary(if s1.lx.operand != 0 then PreMinus else PostMinus)))
    case PlusSign =>
      var s1 := CheckImplied(s);
      if s1.lx.operand != 0 then LexPrefix(s1, Unary(UPlus), 1) else LexInfix(s1, Binary(Float(Add)))
    case MinusSign =>
      var s1 := CheckImplied(s);
      if s1.lx.operand != 0 then LexPrefix(s1, Unary(UMinus), 1) else LexInfix(s1, Binary(Float(Sub)))
    case Hash =>
      var s1 := CheckImplied(s);
      if s1.lx.operand != 0 then LexPrefix(s1, Unary(WordC), 2) else LexInfix(s1, Binary(StrCat))
    case Star =>
      if s.lx.operand != 0 then LexPrefix(s, Unary(Deref), 2) else LexInfix(s, Binary(Float(Mul)))
    case At => LexPrefix(s, Unary(StrLen), 2)
    case Bang => LexPrefix(s, Unary(Not), 1)
    case Tilde => LexPrefix(s, Unary(Comp), 1)
    case QuestMark => s.(lx := s.lx.(operand := 1, mtok := Quest))
    case ColonMark => LexMark(s, Colon)
    case CommaMark => LexMark(s, Binary(Comma))
    case Infix(b) => LexInfix(s, Binary(b))
    case Number(t) => LexOperand(s, ExpandedSym(t))
    case Name(t) => LexOperand(s, LvalSym(t))
    case Quoted(t) => if s.lx.operand == 0 then LexError(s) else LexOperand(s, RawSym(t))
    case Braced(t) => if s.lx.operand == 0 then LexError(s) else LexBlock(h, s, t)
    case Junk => LexPunt(s)
  }

  /** `zzlex`. */
  function Lex(h: Host, s: St): (r: St)
    requires StOk(s) && !s.lx.err
    ensures r.lx.mtok == Eoi || |r.lx.rest| < |s.lx.rest|
    ensures StOk(r) && Step(s.ev, r.ev) && |r.lx.rest| <= |s.lx.rest|
  {
    if s.lx.rest == [] then
      var s1 := CheckImplied(s);
      s1.(lx := s1.lx.(operand := 1, mtok := Eoi))
    else
      LexOne(h, s.(lx := s.lx.(rest := s.lx.rest[1..])), s.lx.rest[0])
  }

  // ---------- the parser ----------

  /** What is left to do: unread input, and the lookahead unless it is the end. */
  function Work(s: St): nat {
    |s.lx.rest| + (if s.lx.mtok == Eoi then 0 else 1)
  }

  function SetNoeval(s: St, n: nat): (r: St)
    requires StOk(s)
    ensures StOk(r) && Later(s.ev, r.ev) && r.lx == s.lx && r.ev.noeval == n
  {
    s.(ev := s.ev.(noeval := n))
  }

  function ReduceSt(h: Host, s: St, t: Tok): (r: St)
    requires StOk(s)
    ensures StOk(r) && Step(s.ev, r.ev) && r.lx == s.lx
  {
    if s.lx.err then s else s.(ev := Reduce(h, s.ev, t))
  }

  /** pop_boolean then push_boolean: force the condition on top of the stack. */
  function ForceTop(h: Host, ev: Ev): (r: (bool, Ev))
    requires EvOk(ev)
    ensures Step(ev, r.1)
  {
    hide EvOk, GetBool, PushNew, Pop;
    var (v, e1) := Pop(ev);
    var (u, e2) := GetBool(h, e1, v);
    (u, PushNew(e2, BoolSym(u)))
  }

  /** The short-circuit test made before the right operand of `t` is parsed. */
  function ShortCircuit(h: Host, s: St, t: Tok): (r: St)
    requires StOk(s)
    ensures StOk(r) && Later(s.ev, r.ev) && r.lx == s.lx && r.ev.noeval >= s.ev.noeval
  {
    if t != Binary(Bool(DAnd)) && t != Binary(Bool(DOr)) then s else
    var (u, e1) := ForceTop(h, s.ev);
    St(s.lx, if u == (t == Binary(Bool(DOr))) then e1.(noeval := e1.noeval + 1) else e1)
  }

  /** `mathparse`. */
  function Parse(h: Host, s: St, pc: int): (r: St)
    requires StOk(s) && pc < 137
    ensures StOk(r) && Step(s.ev, r.ev) && Work(r) <= |s.lx.rest|
    decreases |s.lx.rest|, 3
  {
    hide EvOk, Lex, Lookups;
    if s.lx.err then s else ParseLoop(h, Lex(h, s), pc)
  }

  /** The loop of `mathparse`. */
  function ParseLoop(h: Host, s: St, pc: int): (r: St)
    requires StOk(s) && pc < 137
    ensures StOk(r) && Step(s.ev, r.ev) && Work(r) <= Work(s)
    decreases Work(s), 2
  {
    hide EvOk, Lex, Push, Later;
    StepsAdd();
    if Prec(s.lx.mtok) > pc || s.lx.err then s
    else if s.lx.mtok == Id then ParseLoop(h, Lex(h, s.(ev := Push(s.ev, s.lx.last))), pc)
    else if s.lx.mtok == InPar then
      var s1 := Parse(h, s, TOPPREC);
      if s1.lx.mtok != OutPar then s1 else ParseLoop(h, Lex(h, s1), pc)
    else ParseLoop(h, if s.lx.mtok == Quest then ParseCond(h, s) else ParseOperator(h, s), pc)
  }

  /** `?:`: the branch not taken is parsed with noeval raised. */
  function ParseCond(h: Host, s: St): (r: St)
    requires StOk(s) && !s.lx.err && s.lx.mtok == Quest
    ensures StOk(r) && Step(s.ev, r.ev) && Work(r) <= |s.lx.rest|
    decreases Work(s), 1
  {
    hide EvOk, ForceTop, ReduceSt, SetNoeval, Lookups;
    var (u, e1) := ForceTop(h, s.ev);
    var n := s.ev.noeval;
    var s1 := Parse(h, SetNoeval(St(s.lx, e1), if u then n else n + 1), Prec(Quest) - 1);
    var s2 := Parse(h, SetNoeval(s1, if u then n + 1 else n), Prec(Quest));
    ReduceSt(h, SetNoeval(s2, n), Quest)
  }

  /** Any other operator: parse what follows it, then reduce. */
  function ParseOperator(h: Host, s: St): (r: St)
    requires StOk(s) && !s.lx.err && Prec(s.lx.mtok) < 137
    requires s.lx.mtok != Eoi
    ensures StOk(r) && Step(s.ev, r.ev) && Work(r) <= |s.lx.rest|
    decreases Work(s), 1
  {
    hide EvOk, ShortCircuit, ReduceSt, SetNoeval, Lookups;
    var s1 := Parse(h, ShortCircuit(h, s, s.lx.mtok), RightLevel(s.lx.mtok));
    ReduceSt(h, SetNoeval(s1, s.ev.noeval), s.lx.mtok)
  }
}
