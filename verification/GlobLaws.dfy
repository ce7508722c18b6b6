/** What patterns accept, said of their characters (source/glob.c:412-464, 708-767). */
module GlobLaws {
  import opened Glob
  import Names

  // ---------- literals ----------

  /** A character that stands for itself: quoted, or none of the three that begin something. */
  predicate Ordinary(p: PatChar) {
    p.Quoted? || (p.c != '*' && p.c != '?' && p.c != '[')
  }

  /** The same, or the two cases of one of the 26 letters. */
  predicate SameLetter(a: Byte, b: Byte) {
    var x, y := a as int, b as int;
    x == y || (97 <= x <= 122 && y == x - 32) || (97 <= y <= 122 && x == y - 32)
  }

  lemma OrdinaryLaw(c: PatChar, p: seq<PatChar>, name: seq<Byte>, nocase: bool)
    requires Ordinary(c)
    ensures Accepts(Read([c] + p), name, nocase)
            <==> name != [] && (if nocase then SameLetter(name[0], c.c) else name[0] == c.c)
                 && Accepts(Read(p), name[1..], nocase)
  {
    assert ([c] + p)[1..] == p && ([c] + p)[0] == c;
    ReadOrdinary([c] + p);
    OneMeans(Read([c] + p), name, nocase);
    assert ([Literal(c.c)] + Read(p))[1..] == Read(p);
    if name != [] {
      FoldMeans(name[0], c.c);
    }
    hide Accepts, Read;
  }

  lemma ReadOrdinary(p: seq<PatChar>)
    requires p != [] && Ordinary(p[0])
    ensures Read(p) == [Literal(p[0].c)] + Read(p[1..])
  {
  }

  lemma FoldMeans(a: Byte, b: Byte)
    ensures Names.UpperChar(a) == Names.UpperChar(b) <==> SameLetter(a, b)
  {
  }

  /** A pattern of such characters accepts exactly what is spelled alike: itself if case matters, and else what
      differs in the case of letters only. */
  lemma {:induction false} LiteralsLaw(p: seq<PatChar>, name: seq<Byte>, nocase: bool)
    requires forall i | 0 <= i < |p| :: Ordinary(p[i])
    ensures Accepts(Read(p), name, nocase)
            <==> |name| == |p| && forall i | 0 <= i < |p| ::
                                    if nocase then SameLetter(name[i], p[i].c) else name[i] == p[i].c
    decreases |p|
  {
    if p != [] {
      hide Accepts, Read;
      assert p == [p[0]] + p[1..];
      OrdinaryLaw(p[0], p[1..], name, nocase);
      if name != [] {
        LiteralsLaw(p[1..], name[1..], nocase);
        assert forall i | 0 < i < |p| :: p[i] == p[1..][i - 1];
        assert forall i | 0 < i < |name| :: name[i] == name[1..][i - 1];
      }
    }
  }

  // ---------- the special characters ----------

  /** `*` stands for any run of characters. */
  lemma StarLaw(p: seq<PatChar>, name: seq<Byte>, nocase: bool)
    ensures Accepts(Read([Plain('*')] + p), name, nocase)
            <==> exists k | 0 <= k <= |name| :: Accepts(Read(p), name[k..], nocase)
  {
    assert ([Plain('*')] + p)[1..] == p && ([Plain('*')] + p)[0] == Plain('*');
    assert Read([Plain('*')] + p) == [Star] + Read(p);
    StarMeans(Read([Plain('*')] + p), name, nocase);
    assert ([Star] + Read(p))[1..] == Read(p);
    hide Accepts, Read;
  }

  /** `?` stands for any one character. */
  lemma AnyLaw(p: seq<PatChar>, name: seq<Byte>, nocase: bool)
    ensures Accepts(Read([Plain('?')] + p), name, nocase) <==> name != [] && Accepts(Read(p), name[1..], nocase)
  {
    assert ([Plain('?')] + p)[1..] == p && ([Plain('?')] + p)[0] == Plain('?');
    assert Read([Plain('?')] + p) == [Any] + Read(p);
    OneMeans(Read([Plain('?')] + p), name, nocase);
    assert ([Any] + Read(p))[1..] == Read(p);
    hide Accepts, Read;
  }

  /** Whether the text between the brackets of a set lists the character, on its own or in a range. */
  predicate Lists(body: seq<PatChar>, k: Byte) {
    if body == [] then false
    else if |body| >= 3 && body[1] == Plain('-') then body[0].c <= k <= body[2].c || Lists(body[3..], k)
    else body[0].c == k || Lists(body[1..], k)
  }

  lemma {:induction false} ListsMembers(body: seq<PatChar>, k: Byte)
    ensures InSet(Members(body), k) <==> Lists(body, k)
    decreases |body|
  {
    hide InSet;
    if body == [] {
      InNone(k);
    } else if |body| >= 3 && body[1] == Plain('-') {
      ListsMembers(body[3..], k);
      InMore(Range(body[0].c, body[2].c), Members(body[3..]), k);
    } else {
      ListsMembers(body[1..], k);
      InMore(Single(body[0].c), Members(body[1..]), k);
    }
  }

  lemma InNone(k: Byte)
    ensures !InSet([], k)
  {
  }

  lemma InMore(m: Member, ms: seq<Member>, k: Byte)
    ensures InSet([m] + ms, k)
            <==> (match m case Single(c) => c == k case Range(lo, hi) => lo <= k <= hi) || InSet(ms, k)
  {
    if x :| x in ms && (match x case Single(c) => c == k case Range(lo, hi) => lo <= k <= hi) {
      assert x in [m] + ms;
    }
    assert m in [m] + ms;
  }

  /** A set, or with a `!` before its text what is not in it, stands for one character; its first character may be
      a closing bracket. */
  lemma SetLaw(negated: bool, body: seq<PatChar>, p: seq<PatChar>, name: seq<Byte>, nocase: bool)
    requires body != [] && Plain(']') !in body[1..] && (!negated ==> body[0] != Plain('!'))
    ensures var lead := if negated then [Plain('['), Plain('!')] else [Plain('[')];
            Accepts(Read(lead + body + [Plain(']')] + p), name, nocase)
            <==> name != [] && Lists(body, name[0]) != negated && Accepts(Read(p), name[1..], nocase)
  {
    var lead := if negated then [Plain('['), Plain('!')] else [Plain('[')];
    var pattern := lead + body + [Plain(']')] + p;
    ReadSet(negated, body, p);
    OneMeans(Read(pattern), name, nocase);
    assert ([Set(negated, Members(body))] + Read(p))[1..] == Read(p);
    if name != [] {
      ListsMembers(body, name[0]);
    }
    hide Accepts, Read, Lists, Members, InSet;
  }

  /** An opening bracket that nothing closes stands for itself. */
  lemma OpenLaw(p: seq<PatChar>, name: seq<Byte>, nocase: bool)
    requires var from := if p != [] && p[0] == Plain('!') then 2 else 1;
             forall i | from <= i < |p| :: p[i] != Plain(']')
    ensures Accepts(Read([Plain('[')] + p), name, nocase)
            <==> name != [] && name[0] == '[' && Accepts(Read(p), name[1..], nocase)
  {
    ReadOpen(p);
    OneMeans(Read([Plain('[')] + p), name, nocase);
    assert ([Literal('[')] + Read(p))[1..] == Read(p);
    if name != [] {
      FoldMeans(name[0], '[');
    }
    hide Accepts, Read;
  }

  lemma {:induction false} ReadOpen(p: seq<PatChar>)
    requires var from := if p != [] && p[0] == Plain('!') then 2 else 1;
             forall i | from <= i < |p| :: p[i] != Plain(']')
    ensures Read([Plain('[')] + p) == [Literal('[')] + Read(p)
  {
    var pattern := [Plain('[')] + p;
    assert pattern[0] == Plain('[') && pattern[1..] == p;
    if p != [] && p[0] == Plain('!') {
      assert pattern[2..] == p[1..];
    }
  }

  lemma ReadSet(negated: bool, body: seq<PatChar>, p: seq<PatChar>)
    requires body != [] && Plain(']') !in body[1..] && (!negated ==> body[0] != Plain('!'))
    ensures var lead := if negated then [Plain('['), Plain('!')] else [Plain('[')];
            Read(lead + body + [Plain(']')] + p) == [Set(negated, Members(body))] + Read(p)
  {
    var lead := if negated then [Plain('['), Plain('!')] else [Plain('[')];
    var pattern, rest := lead + body + [Plain(']')] + p, body + [Plain(']')] + p;
    assert pattern == lead + rest;
    assert pattern[|lead|..] == rest && pattern[0] == Plain('[');
    if |pattern| > 1 {
      assert pattern[1] == if negated then Plain('!') else body[0];
    }
    ClosesAt(body, p);
    assert rest[..|body|] == body && rest[|body| + 1..] == p;
  }

  lemma ClosesAt(body: seq<PatChar>, p: seq<PatChar>)
    requires body != [] && Plain(']') !in body[1..]
    ensures FindClose(body + [Plain(']')] + p, 1) == |body|
  {
    var rest := body + [Plain(']')] + p;
    FoundClose(rest, 1);
    assert rest[|body|] == Plain(']');
    forall i | 1 <= i < |body|
      ensures rest[i] != Plain(']')
    {
      assert rest[i] == body[1..][i - 1];
    }
  }
}
