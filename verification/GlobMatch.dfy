/** Matching a name against a compiled pattern (`match` in source/glob.c). */
module GlobMatch {
  import opened Glob

  lemma EmitAllHead(es: seq<Elem>)
    requires es != []
    ensures EmitAll(es) == Emit(es[0]) + EmitAll(es[1..])
    ensures EmitAll(es) != [] && (es[1..] == [] <==> EmitAll(es[1..]) == [])
  {
    if es[1..] != [] {
      assert EmitAll(es[1..]) == Emit(es[1]) + EmitAll(es[1..][1..]);
    }
  }

  lemma LastStarAccepts(es: seq<Elem>, name: seq<Byte>, nocase: bool)
    requires es != [] && es[0] == Star && es[1..] == []
    ensures Accepts(es, name, nocase)
  {
    assert Accepts(es[1..], name[|name|..], nocase);
  }

  /** The compiled members from `left` on, the end mark and what follows it. */
  ghost function SetRest(left: seq<Member>, tail: seq<Code>): seq<Code> {
    EmitMembers(left) + [End] + tail
  }

  lemma SetStart(s: seq<Code>, e: Elem, tail: seq<Code>)
    requires e.Set? && [SetOpen] + s == Emit(e) + tail
    ensures s != [] && (e.negated <==> s[0] == Not)
    ensures s[if e.negated then 1 else 0..] == SetRest(e.members, tail)
  {
    hide EmitMembers, Emit;
    EmitSet(e.negated, e.members);
    SetShape(e.members, tail);
    var marks := if e.negated then [Not] else [];
    RegroupFour([SetOpen], marks, EmitMembers(e.members) + [End], tail);
    var body := SetRest(e.members, tail);
    hide SetRest;
    DropHead(SetOpen, s, marks + body);
  }

  lemma RegroupFour<T>(a: seq<T>, b: seq<T>, c: seq<T>, d: seq<T>)
    ensures a + b + c + d == a + (b + (c + d))
  {
  }

  lemma DropHead<T>(x: T, s: seq<T>, t: seq<T>)
    requires [x] + s == [x] + t
    ensures s == t
  {
    assert s == ([x] + s)[1..];
  }

  lemma SetShape(left: seq<Member>, tail: seq<Code>)
    ensures var s := SetRest(left, tail);
            && s != [] && s[0] != Rng && s[0] != Not && (s[0] == End <==> left == []) && (left == [] ==> s[1..] == tail)
            && (left != [] ==>
                  s == EmitMember(left[0]) + SetRest(left[1..], tail))
  {
  }

  lemma InSetMore(done: seq<Member>, m: Member, k: Byte)
    ensures !InSet([], k)
    ensures InSet(done + [m], k) <==> InSet(done, k) || InSet([m], k)
  {
    assert m in done + [m];
    assert forall x | x in done :: x in done + [m];
  }

  lemma InSetOne(m: Member, k: Byte)
    ensures InSet([m], k) <==> match m case Single(c) => c == k case Range(lo, hi) => lo <= k <= hi
  {
    assert m in [m];
  }

  /** How the next member is laid out. */
  lemma SetStep(left: seq<Member>, tail: seq<Code>)
    requires left != []
    ensures var s, after := SetRest(left, tail), SetRest(left[1..], tail);
            && |s| > 1
            && match left[0] {
                 case Single(c) => s[0] == Ch(c) && s[1] != Rng && s[1..] == after
                 case Range(lo, hi) => |s| > 3 && s[0] == Ch(lo) && s[1] == Rng && s[2] == Ch(hi) && s[3..] == after
               }
  {
    hide SetRest;
    SetShape(left, tail);
    SetShape(left[1..], tail);
  }

  /** The case of a set: whether it takes the character, and where the pattern goes on. */
  method MatchSet(pat: seq<Code>, start: nat, k: Byte, nocase: bool, ghost e: Elem, ghost tail: seq<Code>)
    returns (fits: bool, next: nat)
    requires e.Set? && start <= |pat| && [SetOpen] + pat[start..] == Emit(e) + tail
    ensures fits == Takes(e, k, nocase) && start < next <= |pat| && pat[next..] == tail
  {
    hide SetRest, InSet, Emit, EmitMember;
    SetStart(pat[start..], e, tail);
    var negateRange := pat[start] == Not;
    var ok;
    ok, next := MatchMembers(pat, if negateRange then start + 1 else start, k, e.members, tail);
    fits := ok != negateRange;
  }

  method MatchMembers(pat: seq<Code>, start: nat, k: Byte, ghost members: seq<Member>, ghost tail: seq<Code>)
    returns (ok: bool, next: nat)
    requires start <= |pat| && pat[start..] == SetRest(members, tail)
    ensures ok == InSet(members, k) && start < next <= |pat| && pat[next..] == tail
  {
    hide SetRest, InSet, Emit, EmitMember;
    ok, next := false, start;
    ghost var done: seq<Member>, left := [], members;
    InSetMore(done, Single(k), k);
    SetShape(left, tail);
    while pat[next] != End
      invariant start <= next < |pat| && pat[next..] == SetRest(left, tail)
      invariant done + left == members && ok == InSet(done, k)
      invariant pat[next] == End <==> left == []
      decreases |left|
    {
      SetStep(left, tail);
      SetShape(left[1..], tail);
      InSetMore(done, left[0], k);
      InSetOne(left[0], k);
      assert forall i | 0 <= i < |pat[next..]| :: pat[next..][i] == pat[next + i];
      var c := pat[next];
      next := next + 1;
      if pat[next] == Rng {
        if c.c <= k && k <= pat[next + 1].c {
          ok := true;
        }
        next := next + 2;
      } else if c.c == k {
        ok := true;
      }
      done, left := done + [left[0]], left[1..];
    }
    SetShape(left, tail);
    next := next + 1;
    assert done == members;
  }

  lemma EmptyPattern(es: seq<Elem>)
    ensures EmitAll(es)[0..] == EmitAll(es) && (EmitAll(es) == [] <==> es == [])
  {
    if es != [] {
      EmitAllHead(es);
    }
  }

  /** How each element begins in compiled form. */
  lemma EmitShape(e: Elem)
    ensures match e
            case Star => Emit(e) == [All]
            case Any => Emit(e) == [One]
            case Literal(c) => Emit(e) == [Ch(c)]
            case Set(_, _) => Emit(e)[0] == SetOpen
  {
  }

  lemma StarHere(es: seq<Elem>, name: seq<Byte>, from: nat, k: nat, nocase: bool)
    requires es != [] && es[0] == Star && from <= k <= |name| && Accepts(es[1..], name[k..], nocase)
    ensures Accepts(es, name[from..], nocase)
  {
    assert name[from..][k - from..] == name[k..];
  }

  lemma StarNowhere(es: seq<Elem>, name: seq<Byte>, from: nat, nocase: bool)
    requires es != [] && es[0] == Star && from <= |name|
    requires forall k | from <= k <= |name| :: !Accepts(es[1..], name[k..], nocase)
    ensures !Accepts(es, name[from..], nocase)
  {
    assert forall k | 0 <= k <= |name| - from :: name[from..][k..] == name[from + k..];
  }

  /** What is left of the pattern behind the first code of an element. */
  lemma BehindFirst(pat: seq<Code>, p: nat, e: Elem, tail: seq<Code>)
    requires p <= |pat| && pat[p..] == Emit(e) + tail
    ensures p < |pat| && pat[p] == Emit(e)[0]
    ensures if e.Set? then [SetOpen] + pat[p + 1..] == Emit(e) + tail else pat[p + 1..] == tail
  {
    EmitShape(e);
    hide Emit;
    Behind(pat, p, Emit(e), tail);
  }

  lemma Behind<T>(s: seq<T>, p: nat, a: seq<T>, t: seq<T>)
    requires p <= |s| && a != [] && s[p..] == a + t
    ensures p < |s| && s[p] == a[0] && [a[0]] + s[p + 1..] == a + t
    ensures |a| == 1 ==> s[p + 1..] == t
  {
    assert s[p] == s[p..][0] && s[p..] == [s[p]] + s[p + 1..];
    if |a| == 1 {
      assert a == [s[p]];
      DropHead(s[p], s[p + 1..], t);
    }
  }

  lemma NoneLeft(name: seq<Byte>, n: nat, nocase: bool)
    requires n <= |name|
    ensures Accepts([], name[n..], nocase) <==> n == |name|
  {
  }

  lemma AcceptsStep(es: seq<Elem>, name: seq<Byte>, n: nat, nocase: bool)
    requires es != [] && es[0] != Star && n <= |name|
    ensures Accepts(es, name[n..], nocase)
            <==> n < |name| && Takes(es[0], name[n], nocase) && Accepts(es[1..], name[n + 1..], nocase)
  {
    if n < |name| {
      assert name[n..][1..] == name[n + 1..];
    }
  }

  /** `match`: whether the name is one the pattern stands for. The recursion is one level for each star. */
  method Match(name: seq<Byte>, pat: seq<Code>, nocase: bool, ghost es: seq<Elem>) returns (accepted: bool)
    requires pat == EmitAll(es)
    ensures accepted == Accepts(es, name, nocase)
    decreases |es|
  {
    hide EmitAll, Emit, InSet, Accepts;
    var n, p := 0, 0;
    ghost var rest := es;
    EmptyPattern(es);
    assert name[0..] == name;
    while p < |pat|
      invariant 0 <= n <= |name| && 0 <= p <= |pat| && |rest| <= |es|
      invariant pat[p..] == EmitAll(rest) && (p == |pat| <==> rest == [])
      invariant Accepts(es, name, nocase) == Accepts(rest, name[n..], nocase)
      decreases |rest|
    {
      EmitAllHead(rest);
      EmptyPattern(rest[1..]);
      ghost var e, tail := rest[0], EmitAll(rest[1..]);
      EmitShape(e);
      BehindFirst(pat, p, e, tail);
      if e != Star {
        AcceptsStep(rest, name, n, nocase);
      }
      var c := pat[p];
      p := p + 1;
      match c {
      case All =>
        if p == |pat| {
          LastStarAccepts(rest, name[n..], nocase);
          return true;
        }
        ghost var from := n;
        while n <= |name|
          invariant from <= n
          invariant forall k | from <= k < n && k <= |name| :: !Accepts(rest[1..], name[k..], nocase)
        {
          accepted := Match(name[n..], pat[p..], nocase, rest[1..]);
          if accepted {
            StarHere(rest, name, from, n, nocase);
            return;
          }
          n := n + 1;
        }
        StarNowhere(rest, name, from, nocase);
        return false;
      case One =>
        if n == |name| {
          return false;
        }
        n := n + 1;
      case SetOpen =>
        if n == |name| {
          return false;
        }
        var fits;
        fits, p := MatchSet(pat, p, name[n], nocase, e, tail);
        n := n + 1;
        if !fits {
          return false;
        }
      case Ch(b) =>
        if n == |name| || !Same(name[n], b, nocase) {
          return false;
        }
        n := n + 1;
      }
      rest := rest[1..];
    }
    NoneLeft(name, n, nocase);
    return n == |name|;
  }

  /** A pattern, compiled and matched, accepts exactly the names it reads as standing for. */
  method MatchSegment(pattern: seq<PatChar>, name: seq<Byte>, nocase: bool) returns (accepted: bool)
    ensures accepted == Accepts(Read(pattern), name, nocase)
  {
    CollapseAccepts(Read(pattern), name, nocase);
    var patbuf := Compile(pattern);
    accepted := Match(name, patbuf, nocase, Collapse(Read(pattern)));
  }
}
