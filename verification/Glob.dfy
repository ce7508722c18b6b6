/** Patterns for one path segment (source/glob.c): how they are read, compiled and matched. */
module Glob {
  import opened Lists
  import Names

  /** A character; names and patterns hold no zero. */
  type Byte = c: char | 0 < c as int < 256 witness 'a'

  /** A character of a pattern; a quoted one is never special. */
  datatype PatChar = Plain(c: Byte) | Quoted(c: Byte)

  // ---------- reading a pattern ----------

  datatype Member = Single(c: Byte) | Range(lo: Byte, hi: Byte)

  datatype Elem = Star | Any | Literal(c: Byte) | Set(negated: bool, members: seq<Member>)

  const LBRACKET := Plain('[')
  const RBRACKET := Plain(']')
  const NOT := Plain('!')
  const RANGE := Plain('-')

  /** Where the first closing bracket is, from position `from` on; -1 if there is none. */
  function FindClose(s: seq<PatChar>, from: nat): (r: int)
    ensures r == -1 || (from <= r < |s| && s[r] == RBRACKET)
    decreases |s| - from
  {
    if from >= |s| then -1 else if s[from] == RBRACKET then from else FindClose(s, from + 1)
  }

  lemma {:induction false} FoundClose(s: seq<PatChar>, from: nat)
    ensures var r := FindClose(s, from);
            forall k | from <= k < (if r < 0 then |s| else r) :: s[k] != RBRACKET
    decreases |s| - from
  {
    if from < |s| && s[from] != RBRACKET {
      FoundClose(s, from + 1);
    }
  }

  /** What stands between the brackets of a set: characters and ranges. */
  function Members(s: seq<PatChar>): seq<Member> {
    if s == [] then []
    else if |s| >= 3 && s[1] == RANGE then [Range(s[0].c, s[2].c)] + Members(s[3..])
    else [Single(s[0].c)] + Members(s[1..])
  }

  /** A bracket opens a set if another closes it, the first character of the set aside; else it stands
      for itself. */
  function Read(p: seq<PatChar>): seq<Elem> {
    if p == [] then []
    else if p[0] == Plain('*') then [Star] + Read(p[1..])
    else if p[0] == Plain('?') then [Any] + Read(p[1..])
    else if p[0] == LBRACKET then
      var negated := |p| > 1 && p[1] == NOT;
      var rest := p[if negated then 2 else 1..];
      var close := FindClose(rest, 1);
      if close < 0 then [Literal('[')] + Read(p[1..])
      else [Set(negated, Members(rest[..close]))] + Read(rest[close + 1..])
    else [Literal(p[0].c)] + Read(p[1..])
  }

  predicate InSet(members: seq<Member>, k: Byte) {
    exists m | m in members :: match m case Single(c) => c == k case Range(lo, hi) => lo <= k <= hi
  }

  predicate Same(a: Byte, b: Byte, nocase: bool) {
    if nocase then Names.UpperChar(a) == Names.UpperChar(b) else a == b
  }

  /** The names a pattern stands for. */
  predicate Accepts(es: seq<Elem>, name: seq<Byte>, nocase: bool)
    decreases |es|
  {
    if es == [] then name == []
    else if es[0] == Star then exists k | 0 <= k <= |name| :: Accepts(es[1..], name[k..], nocase)
    else
      name != [] && Takes(es[0], name[0], nocase) && Accepts(es[1..], name[1..], nocase)
  }

  /** Whether an element other than a star stands for the character. */
  predicate Takes(e: Elem, k: Byte, nocase: bool)
    requires e != Star
  {
    match e
    case Any => true
    case Literal(c) => Same(k, c, nocase)
    case Set(negated, members) => InSet(members, k) != negated
  }

  /** A pattern in two parts accepts exactly the names in two parts that each part accepts. */
  lemma {:induction false} AcceptsConcat(a: seq<Elem>, b: seq<Elem>, name: seq<Byte>, nocase: bool)
    ensures Accepts(a + b, name, nocase)
            <==> exists k | 0 <= k <= |name| :: Accepts(a, name[..k], nocase) && Accepts(b, name[k..], nocase)
    decreases |a|, 2
  {
    if a == [] {
      ConcatNil(b, name, nocase);
      assert a + b == b;
    } else if a[0] == Star {
      ConcatStar(a, b, name, nocase);
    } else {
      ConcatOne(a, b, name, nocase);
    }
  }

  lemma ConcatNil(b: seq<Elem>, name: seq<Byte>, nocase: bool)
    ensures Accepts(b, name, nocase)
            <==> exists k | 0 <= k <= |name| :: Accepts([], name[..k], nocase) && Accepts(b, name[k..], nocase)
  {
    NilMeans(name[..0], nocase);
    assert name[0..] == name;
    if Accepts(b, name, nocase) {
      assert Accepts([], name[..0], nocase) && Accepts(b, name[0..], nocase);
    }
    if k :| 0 <= k <= |name| && Accepts([], name[..k], nocase) && Accepts(b, name[k..], nocase) {
      NilMeans(name[..k], nocase);
    }
  }

  lemma NilMeans(name: seq<Byte>, nocase: bool)
    ensures Accepts([], name, nocase) <==> name == []
  {
  }

  lemma OneMeans(es: seq<Elem>, name: seq<Byte>, nocase: bool)
    requires es != [] && es[0] != Star
    ensures Accepts(es, name, nocase)
            <==> name != [] && Takes(es[0], name[0], nocase) && Accepts(es[1..], name[1..], nocase)
  {
  }

  lemma {:induction false} ConcatOne(a: seq<Elem>, b: seq<Elem>, name: seq<Byte>, nocase: bool)
    requires a != [] && a[0] != Star
    ensures Accepts(a + b, name, nocase)
            <==> exists k | 0 <= k <= |name| :: Accepts(a, name[..k], nocase) && Accepts(b, name[k..], nocase)
    decreases |a|, 1
  {
    hide Accepts, Takes;
    assert (a + b)[1..] == a[1..] + b && (a + b)[0] == a[0];
    OneMeans(a + b, name, nocase);
    if Accepts(a + b, name, nocase) {
      AcceptsConcat(a[1..], b, name[1..], nocase);
      var k :| 0 <= k <= |name| - 1 && Accepts(a[1..], name[1..][..k], nocase) && Accepts(b, name[1..][k..], nocase);
      SliceTwice(name, 1, k);
      OneMeans(a, name[..k + 1], nocase);
      assert Accepts(a, name[..k + 1], nocase) && Accepts(b, name[k + 1..], nocase);
    }
    if k :| 0 <= k <= |name| && Accepts(a, name[..k], nocase) && Accepts(b, name[k..], nocase) {
      OneMeans(a, name[..k], nocase);
      SliceTwice(name, 1, k - 1);
      AcceptsConcat(a[1..], b, name[1..], nocase);
      assert Accepts(a[1..], name[1..][..k - 1], nocase) && Accepts(b, name[1..][k - 1..], nocase);
    }
  }

  lemma ConcatStar(a: seq<Elem>, b: seq<Elem>, name: seq<Byte>, nocase: bool)
    requires a != [] && a[0] == Star
    ensures Accepts(a + b, name, nocase)
            <==> exists k | 0 <= k <= |name| :: Accepts(a, name[..k], nocase) && Accepts(b, name[k..], nocase)
    decreases |a|, 1
  {
    assert (a + b)[1..] == a[1..] + b && (a + b)[0] == Star;
    StarMeans(a + b, name, nocase);
    hide Accepts;
    if Accepts(a + b, name, nocase) {
      var j :| 0 <= j <= |name| && Accepts(a[1..] + b, name[j..], nocase);
      StarSplits(a, b, name, j, nocase);
    }
    if k :| 0 <= k <= |name| && Accepts(a, name[..k], nocase) && Accepts(b, name[k..], nocase) {
      StarJoins(a, b, name, k, nocase);
    }
  }

  lemma StarMeans(es: seq<Elem>, name: seq<Byte>, nocase: bool)
    requires es != [] && es[0] == Star
    ensures Accepts(es, name, nocase) <==> exists k | 0 <= k <= |name| :: Accepts(es[1..], name[k..], nocase)
  {
  }

  lemma StarSplits(a: seq<Elem>, b: seq<Elem>, name: seq<Byte>, j: nat, nocase: bool)
    requires a != [] && a[0] == Star && j <= |name| && Accepts(a[1..] + b, name[j..], nocase)
    ensures exists k | 0 <= k <= |name| :: Accepts(a, name[..k], nocase) && Accepts(b, name[k..], nocase)
    decreases |a|, 0
  {
    AcceptsConcat(a[1..], b, name[j..], nocase);
    var k :| 0 <= k <= |name| - j && Accepts(a[1..], name[j..][..k], nocase) && Accepts(b, name[j..][k..], nocase);
    SliceTwice(name, j, k);
    StarMeans(a, name[..j + k], nocase);
    hide Accepts;
    assert Accepts(a, name[..j + k], nocase) && Accepts(b, name[j + k..], nocase);
  }

  lemma SliceTwice(name: seq<Byte>, j: nat, k: nat)
    requires j + k <= |name|
    ensures name[j..][..k] == name[..j + k][j..] && name[j..][k..] == name[j + k..]
  {
  }

  lemma StarJoins(a: seq<Elem>, b: seq<Elem>, name: seq<Byte>, k: nat, nocase: bool)
    requires a != [] && a[0] == Star && k <= |name| && Accepts(a, name[..k], nocase) && Accepts(b, name[k..], nocase)
    ensures exists j | 0 <= j <= |name| :: Accepts(a[1..] + b, name[j..], nocase)
    decreases |a|, 0
  {
    hide Accepts;
    StarMeans(a, name[..k], nocase);
    var j :| 0 <= j <= k && Accepts(a[1..], name[..k][j..], nocase);
    SliceTwice(name, j, k - j);
    AcceptsConcat(a[1..], b, name[j..], nocase);
    assert Accepts(a[1..], name[j..][..k - j], nocase) && Accepts(b, name[j..][k - j..], nocase);
  }

  // ---------- compiling ----------

  /** The compiled form: characters and marks. */
  datatype Code = All | One | SetOpen | Not | Rng | End | Ch(c: Byte)

  function EmitMember(m: Member): seq<Code> {
    match m
    case Single(c) => [Ch(c)]
    case Range(lo, hi) => [Ch(lo), Rng, Ch(hi)]
  }

  function EmitMembers(ms: seq<Member>): seq<Code> {
    if ms == [] then [] else EmitMember(ms[0]) + EmitMembers(ms[1..])
  }

  function Emit(e: Elem): (r: seq<Code>)
    ensures r != [] && (r[|r| - 1] == All <==> e == Star)
  {
    match e
    case Star => [All]
    case Any => [One]
    case Literal(c) => [Ch(c)]
    case Set(negated, members) => [SetOpen] + (if negated then [Not] else []) + EmitMembers(members) + [End]
  }

  function EmitAll(es: seq<Elem>): seq<Code> {
    if es == [] then [] else Emit(es[0]) + EmitAll(es[1..])
  }

  /** A run of stars becomes one. */
  function Collapse(es: seq<Elem>): (r: seq<Elem>)
    ensures es != [] ==> r != [] && r[|r| - 1] == es[|es| - 1]
  {
    if es == [] then []
    else if |es| > 1 && es[0] == Star && es[1] == Star then Collapse(es[1..])
    else [es[0]] + Collapse(es[1..])
  }

  lemma {:induction false} CollapseAccepts(es: seq<Elem>, name: seq<Byte>, nocase: bool)
    ensures Accepts(Collapse(es), name, nocase) == Accepts(es, name, nocase)
    decreases |es|
  {
    if es == [] {
    } else if |es| > 1 && es[0] == Star && es[1] == Star {
      CollapseAccepts(es[1..], name, nocase);
      StarTwice(es[1..], name, nocase);
    } else {
      var r := Collapse(es);
      assert r[1..] == Collapse(es[1..]) && r[0] == es[0];
      forall k | 0 <= k <= |name|
        ensures Accepts(r[1..], name[k..], nocase) == Accepts(es[1..], name[k..], nocase)
      {
        CollapseAccepts(es[1..], name[k..], nocase);
      }
    }
  }

  lemma StarTwice(es: seq<Elem>, name: seq<Byte>, nocase: bool)
    requires es != [] && es[0] == Star
    ensures Accepts(es, name, nocase) <==> exists k | 0 <= k <= |name| :: Accepts(es, name[k..], nocase)
  {
    assert name[0..] == name;
    if k :| 0 <= k <= |name| && Accepts(es, name[k..], nocase) {
      var j :| 0 <= j <= |name[k..]| && Accepts(es[1..], name[k..][j..], nocase);
      assert name[k..][j..] == name[k + j..];
    }
  }

  lemma {:induction false} EmitMembersAppend(ms: seq<Member>, m: Member)
    ensures EmitMembers(ms + [m]) == EmitMembers(ms) + EmitMember(m)
  {
    hide EmitMember;
    if ms == [] {
      assert [m][1..] == [] && ms + [m] == [m];
    } else {
      EmitMembersAppend(ms[1..], m);
      assert (ms + [m])[1..] == ms[1..] + [m] && (ms + [m])[0] == ms[0];
      Regroup(EmitMember(ms[0]), EmitMembers(ms[1..]), EmitMember(m));
    }
  }

  lemma {:induction false} EmitAllAppend(es: seq<Elem>, e: Elem)
    ensures EmitAll(es + [e]) == EmitAll(es) + Emit(e)
  {
    hide Emit;
    if es == [] {
      assert [e][1..] == [] && es + [e] == [e];
    } else {
      EmitAllAppend(es[1..], e);
      assert (es + [e])[1..] == es[1..] + [e] && (es + [e])[0] == es[0];
      Regroup(Emit(es[0]), EmitAll(es[1..]), Emit(e));
    }
  }

  lemma CollapseUnfolds(es: seq<Elem>)
    ensures Collapse(es) == if es == [] then []
                            else if |es| > 1 && es[0] == Star && es[1] == Star then Collapse(es[1..])
                            else [es[0]] + Collapse(es[1..])
  {
  }

  lemma {:induction false} CollapseAppend(es: seq<Elem>, e: Elem)
    ensures Collapse(es + [e])
            == if e == Star && es != [] && es[|es| - 1] == Star then Collapse(es) else Collapse(es) + [e]
  {
    CollapseUnfolds(es + [e]);
    CollapseUnfolds(es);
    hide Collapse;
    if es == [] {
      assert [e][1..] == [];
      assert [] + [e] == [e];
      CollapseUnfolds([]);
    } else {
      var rest := es[1..];
      CollapseUnfolds(rest);
      assert (es + [e])[1..] == rest + [e] && (es + [e])[0] == es[0];
      CollapseAppend(rest, e);
      if rest != [] {
        assert (rest + [e])[0] == rest[0] && rest[|rest| - 1] == es[|es| - 1];
      }
      Regroup([es[0]], Collapse(rest), [e]);
    }
  }

  lemma {:induction false} EmitAllLast(es: seq<Elem>)
    requires es != []
    ensures EmitAll(es) != [] && (EmitAll(es)[|EmitAll(es)| - 1] == All <==> es[|es| - 1] == Star)
  {
    if |es| > 1 {
      EmitAllLast(es[1..]);
    }
  }

  /** One more element read: what the compiler adds to its buffer. */
  lemma CompileStep(done: seq<Elem>, e: Elem, buf: seq<Code>)
    requires buf == EmitAll(Collapse(done))
    ensures EmitAll(Collapse(done + [e]))
            == if e == Star && buf != [] && buf[|buf| - 1] == All then buf else buf + Emit(e)
  {
    CollapseAppend(done, e);
    if done != [] {
      EmitAllLast(Collapse(done));
    }
    EmitAllAppend(Collapse(done), e);
  }

  /** The compiling loop of glob0. */
  method Compile(pattern: seq<PatChar>) returns (patbuf: seq<Code>)
    ensures patbuf == EmitAll(Collapse(Read(pattern)))
  {
    hide Collapse, EmitAll, ReadOne, Read, Emit;
    patbuf := [];
    var next := 0;
    ghost var done: seq<Elem> := [];
    NothingEmitted();
    assert Read(pattern) == done + Read(pattern[next..]) by {
      assert pattern[0..] == pattern;
    }
    while next < |pattern|
      invariant 0 <= next <= |pattern|
      invariant Read(pattern) == done + Read(pattern[next..])
      invariant patbuf == EmitAll(Collapse(done))
    {
      ghost var (e, used) := ReadOne(pattern[next..]);
      CompileStep(done, e, patbuf);
      Sliced(pattern, next, used);
      Regroup(done, [e], Read(pattern[next + used..]));
      var c := pattern[next];
      ReadSimple(pattern[next..]);
      next := next + 1;
      if c == LBRACKET {
        patbuf, next := CompileBracket(pattern, next, patbuf);
      } else if c == Plain('?') {
        patbuf := patbuf + [One];
      } else if c == Plain('*') {
        if patbuf == [] || patbuf[|patbuf| - 1] != All {
          patbuf := patbuf + [All];
        }
      } else {
        patbuf := patbuf + [Ch(c.c)];
      }
      done := done + [e];
    }
    NothingEmitted();
    assert pattern[next..] == [];
    assert done + [] == done;
  }

  lemma ReadSimple(p: seq<PatChar>)
    requires p != []
    ensures p[0] != LBRACKET ==>
              var (e, used) := ReadOne(p);
              used == 1 && (e == Star <==> p[0] == Plain('*'))
              && Emit(e) == [if p[0] == Plain('*') then All else if p[0] == Plain('?') then One else Ch(p[0].c)]
  {
  }

  lemma NothingEmitted()
    ensures EmitAll(Collapse([])) == [] && Read([]) == []
  {
  }

  /** The first element of a pattern and how many characters it takes. */
  ghost function ReadOne(p: seq<PatChar>): (r: (Elem, nat))
    requires p != []
    ensures 0 < r.1 <= |p| && Read(p) == [r.0] + Read(p[r.1..])
  {
    if p[0] == Plain('*') then (Star, 1)
    else if p[0] == Plain('?') then (Any, 1)
    else if p[0] == LBRACKET then
      var negated := |p| > 1 && p[1] == NOT;
      var rest := p[if negated then 2 else 1..];
      var close := FindClose(rest, 1);
      if close < 0 then (Literal('['), 1)
      else
        assert rest[close + 1..] == p[|p| - |rest| + close + 1..];
        (Set(negated, Members(rest[..close])), |p| - |rest| + close + 1)
    else (Literal(p[0].c), 1)
  }

  /** The case of an opening bracket: a set, or the bracket itself if nothing closes it. */
  method CompileBracket(pattern: seq<PatChar>, start: nat, patbuf: seq<Code>) returns (buf: seq<Code>, next: nat)
    requires 0 < start <= |pattern| && pattern[start - 1] == LBRACKET
    ensures var (e, used) := ReadOne(pattern[start - 1..]);
            e != Star && buf == patbuf + Emit(e) && next == start - 1 + used
  {
    hide ReadOne, Emit, FindClose, Members, EmitMembers, Read;
    buf, next := patbuf, start;
    var negated := next < |pattern| && pattern[next] == NOT;
    if negated {
      next := next + 1;
    }
    var close := FindClose(pattern, next + 1);
    FoundClose(pattern, next + 1);
    ReadBracket(pattern, start, negated, next, close);
    if close < 0 {
      EmitLiteral('[');
      buf := buf + [Ch('[')];
      if negated {
        next := next - 1;
      }
      return;
    }
    ghost var members := Members(pattern[next..close]);
    EmitSet(negated, members);
    buf := buf + [SetOpen];
    if negated {
      buf := buf + [Not];
    }
    buf := CompileMembers(pattern, next, close, buf);
    next := close + 1;
    buf := buf + [End];
  }

  lemma EmitLiteral(c: Byte)
    ensures Emit(Literal(c)) == [Ch(c)]
  {
  }

  lemma EmitSet(negated: bool, members: seq<Member>)
    ensures Emit(Set(negated, members)) == [SetOpen] + (if negated then [Not] else []) + EmitMembers(members) + [End]
  {
  }

  /** What a bracket is read as, in positions of the whole pattern. */
  lemma ReadBracket(pattern: seq<PatChar>, start: nat, negated: bool, first: nat, close: int)
    requires 0 < start <= |pattern| && pattern[start - 1] == LBRACKET
    requires negated <==> start < |pattern| && pattern[start] == NOT
    requires first == (if negated then start + 1 else start) && close == FindClose(pattern, first + 1)
    ensures close < 0 ==> ReadOne(pattern[start - 1..]) == (Literal('['), 1)
    ensures close >= 0 ==>
              ReadOne(pattern[start - 1..]) == (Set(negated, Members(pattern[first..close])), close + 2 - start)
  {
    hide FindClose, Members, ReadOne, Read;
    Sliced(pattern, start - 1, first - start + 1);
    ReadOneBracket(pattern[start - 1..], pattern[first..], negated);
    CloseWithin(pattern, first);
    if close >= 0 {
      SlicedTo(pattern, first, close);
    }
  }

  lemma SlicedTo<T>(s: seq<T>, i: nat, j: nat)
    requires i <= j <= |s|
    ensures s[i..][..j - i] == s[i..j]
  {
  }

  lemma Sliced<T>(s: seq<T>, i: nat, j: nat)
    requires i + j <= |s|
    ensures s[i..][j..] == s[i + j..]
  {
  }

  lemma ReadOneBracket(p: seq<PatChar>, rest: seq<PatChar>, negated: bool)
    requires p != [] && p[0] == LBRACKET && (negated <==> |p| > 1 && p[1] == NOT)
    requires rest == p[if negated then 2 else 1..]
    ensures var close := FindClose(rest, 1);
            ReadOne(p) == if close < 0 then (Literal('['), 1)
              else (Set(negated, Members(rest[..close])), |p| - |rest| + close + 1)
  {
    hide FindClose, Members, Read;
  }

  lemma CloseWithin(pattern: seq<PatChar>, next: nat)
    requires next <= |pattern|
    ensures FindClose(pattern[next..], 1)
            == var close := FindClose(pattern, next + 1); if close < 0 then -1 else close - next
  {
    CloseShift(pattern, next, 1);
  }

  lemma {:induction false} CloseShift(pattern: seq<PatChar>, next: nat, from: nat)
    requires next <= |pattern|
    ensures FindClose(pattern[next..], from)
            == var close := FindClose(pattern, next + from); if close < 0 then -1 else close - next
    decreases |pattern| - from
  {
    if next + from < |pattern| && pattern[next + from] != RBRACKET {
      CloseShift(pattern, next, from + 1);
    }
  }

  lemma MembersStep(s: seq<PatChar>, i: nat, close: nat)
    requires i < close <= |s|
    ensures Members(s[i..close])
            == if i + 2 < close && s[i + 1] == RANGE then [Range(s[i].c, s[i + 2].c)] + Members(s[i + 3..close])
               else [Single(s[i].c)] + Members(s[i + 1..close])
  {
    var t := s[i..close];
    assert t[1..] == s[i + 1..close];
    if |t| >= 3 {
      assert t[3..] == s[i + 3..close];
    }
  }

  /** The loop over what stands between the brackets; it stops at the closing one. */
  method CompileMembers(pattern: seq<PatChar>, start: nat, ghost close: nat, patbuf: seq<Code>) returns (buf: seq<Code>)
    requires start < close < |pattern| && pattern[close] == RBRACKET
    requires forall k | start < k < close :: pattern[k] != RBRACKET
    ensures buf == patbuf + EmitMembers(Members(pattern[start..close]))
  {
    hide EmitMembers, EmitMember, Members;
    buf := patbuf;
    ghost var done: seq<Member> := [];
    NoMembers();
    ghost var all := Members(pattern[start..close]);
    var next := start + 1;
    var c := pattern[start];
    while true
      invariant start < next <= close && c == pattern[next - 1]
      invariant buf == patbuf + EmitMembers(done)
      invariant all == done + Members(pattern[next - 1..close])
      decreases close - next
    {
      MembersStep(pattern, next - 1, close);
      ghost var before := buf;
      ghost var m := Single(c.c);
      buf := buf + [Ch(c.c)];
      if pattern[next] == RANGE && pattern[next + 1] != RBRACKET {
        m := Range(c.c, pattern[next + 1].c);
        buf := buf + [Rng, Ch(pattern[next + 1].c)];
        next := next + 2;
      }
      MemberEmitted(m);
      EmitMembersAppend(done, m);
      Regroup(before, [Ch(c.c)], if m.Range? then [Rng, Ch(m.hi)] else []);
      Regroup(patbuf, EmitMembers(done), EmitMember(m));
      Regroup(done, [m], Members(pattern[next..close]));
      done := done + [m];
      c := pattern[next];
      next := next + 1;
      if c == RBRACKET {
        assert pattern[next - 1..close] == [];
        assert all == done;
        break;
      }
    }
  }

  lemma NoMembers()
    ensures EmitMembers([]) == [] && Members([]) == []
  {
  }

  lemma MemberEmitted(m: Member)
    ensures EmitMember(m) == match m case Single(c) => [Ch(c)] + [] case Range(lo, hi) => [Ch(lo)] + [Rng, Ch(hi)]
  {
  }
}
