/** What brace expansion makes of pattern text, said of its characters (source/glob.c:206-332). */
module BraceLaws {
  import opened Glob
  import opened Braces
  import opened BraceText
  import opened Lists

  /** Braces come in pairs, `depth` of which are open already; there is no opening bracket, and unless `commas`
      there is no comma outside braces. Quoted characters are ordinary ones. */
  predicate Nested(s: Pattern, depth: nat, commas: bool) {
    if s == [] then depth == 0
    else if s[0] == Plain('{') then Nested(s[1..], depth + 1, commas)
    else if s[0] == Plain('}') then depth > 0 && Nested(s[1..], depth - 1, commas)
    else s[0] != Plain('[') && (s[0] == Plain(',') ==> commas || depth > 0) && Nested(s[1..], depth, commas)
  }

  lemma {:induction false} NestedBalanced(s: Pattern, depth: nat, commas: bool)
    requires Nested(s, depth, commas)
    ensures Balanced(s, depth) && LBRACKET !in s
  {
    if s != [] {
      NestedBalanced(s[1..], if s[0] == Plain('{') then depth + 1 else if s[0] == Plain('}') then depth - 1 else depth,
                     commas);
      assert s == [s[0]] + s[1..];
    }
  }

  lemma {:induction false} NestedItems(t: Items, s: Pattern, depth: nat, commas: bool)
    requires WellFormed(t, true) && depth > 0
    ensures Nested(Unparse(t) + s, depth, commas) == Nested(s, depth, commas)
    decreases t
  {
    match t {
      case Nil =>
        assert Unparse(t) + s == s;
      case Text(c, rest) =>
        NestedItems(rest, s, depth, commas);
        assert (Unparse(t) + s)[1..] == Unparse(rest) + s;
      case Group(alts, rest) =>
        NestedAlts(alts, [RBRACE] + Unparse(rest) + s, depth + 1, commas);
        NestedItems(rest, s, depth, commas);
        GroupText(alts, rest, s);
    }
  }

  lemma {:induction false} NestedAlts(alts: Alts, s: Pattern, depth: nat, commas: bool)
    requires WellFormedAlts(alts) && depth > 0
    ensures Nested(UnparseAlts(alts) + s, depth, commas) == Nested(s, depth, commas)
    decreases alts
  {
    match alts {
      case Last(a) => NestedItems(a, s, depth, commas);
      case More(a, more) =>
        NestedItems(a, [COMMA] + UnparseAlts(more) + s, depth, commas);
        NestedAlts(more, s, depth, commas);
        AltsText(alts, s);
    }
  }

  /** A tree whose text has no comma outside braces can be an alternative. */
  lemma {:induction false} NoOuterComma(t: Items)
    requires WellFormed(t, false) && Nested(Unparse(t), 0, false)
    ensures WellFormed(t, true)
  {
    match t {
      case Nil =>
      case Text(c, rest) =>
        assert Unparse(t)[1..] == Unparse(rest);
        NoOuterComma(rest);
      case Group(alts, rest) =>
        GroupText(alts, rest, []);
        assert Unparse(t) + [] == Unparse(t) && Unparse(rest) + [] == Unparse(rest);
        NestedAlts(alts, [RBRACE] + Unparse(rest) + [], 1, false);
        NoOuterComma(rest);
    }
  }

  // ---------- the laws ----------

  /** Nothing has one word, the empty one. */
  lemma EndLaw()
    ensures Words(Parse([])) == [[]]
  {
  }

  /** A character that is neither a brace nor a bracket stands in front of every word of what follows it. */
  lemma CharLaw(c: PatChar, s: Pattern)
    requires c != Plain('{') && c != Plain('}') && c != Plain('[')
    ensures var vs, ws := Words(Parse(s)), Words(Parse([c] + s));
            |ws| == |vs| && forall i | 0 <= i < |vs| :: ws[i] == [c] + vs[i]
  {
    assert ([c] + s)[0] == c && ([c] + s)[1..] == s;
  }

  lemma ParseText(t: Items)
    requires WellFormed(t, false)
    ensures Parse(Unparse(t)) == t
  {
    hide ParseItems, Unparse, WellFormed;
    ParseUnparse(t, false, []);
    assert Unparse(t) + [] == Unparse(t);
  }

  /** The alternatives with commas between them. */
  function Listed(ps: seq<Pattern>): Pattern
    requires ps != []
  {
    if |ps| == 1 then ps[0] else ps[0] + [Plain(',')] + Listed(ps[1..])
  }

  /** The words of every alternative, in order. */
  function Choices(ps: seq<Pattern>): seq<Pattern> {
    if ps == [] then [] else Words(Parse(ps[0])) + Choices(ps[1..])
  }

  function AltsOf(ps: seq<Pattern>): Alts
    requires ps != []
  {
    if |ps| == 1 then Last(Parse(ps[0])) else More(Parse(ps[0]), AltsOf(ps[1..]))
  }

  lemma {:induction false} ListedTree(ps: seq<Pattern>)
    requires ps != [] && forall i | 0 <= i < |ps| :: Nested(ps[i], 0, false)
    ensures UnparseAlts(AltsOf(ps)) == Listed(ps) && WellFormedAlts(AltsOf(ps)) && WordsAlts(AltsOf(ps)) == Choices(ps)
  {
    hide Parse, Words, Nested;
    NestedBalanced(ps[0], 0, false);
    ParseBalanced(ps[0]);
    NoOuterComma(Parse(ps[0]));
    if |ps| > 1 {
      ListedTree(ps[1..]);
    } else {
      assert Choices(ps[1..]) == [];
    }
  }

  /** A group of alternatives, braces within braces included, and the text behind it: every word of an alternative
      with every word of that text. */
  lemma GroupLaw(ps: seq<Pattern>, s: Pattern)
    requires ps != [] && Nested(s, 0, true) && forall i | 0 <= i < |ps| :: Nested(ps[i], 0, false)
    ensures Words(Parse([Plain('{')] + Listed(ps) + [Plain('}')] + s)) == Product(Choices(ps), Words(Parse(s)))
  {
    ListedTree(ps);
    NestedBalanced(s, 0, true);
    ParseBalanced(s);
    var t := Group(AltsOf(ps), Parse(s));
    ParseText(t);
    assert Unparse(t) == [Plain('{')] + Listed(ps) + [Plain('}')] + s;
    hide *;
  }

  lemma {:induction false} ProductAt(us: seq<Pattern>, vs: seq<Pattern>, i: nat, j: nat)
    requires i < |us| && j < |vs|
    ensures |Product(us, vs)| == |us| * |vs|
    ensures 0 <= i * |vs| + j < |Product(us, vs)| && Product(us, vs)[i * |vs| + j] == us[i] + vs[j]
  {
    ProductSize(us, vs);
    if i > 0 {
      ProductAt(us[1..], vs, i - 1, j);
      assert i * |vs| + j == |vs| + ((i - 1) * |vs| + j);
      ProductSize(us[1..], vs);
    }
  }

  lemma {:induction false} ProductSize(us: seq<Pattern>, vs: seq<Pattern>)
    ensures |Product(us, vs)| == |us| * |vs|
  {
    if us != [] {
      ProductSize(us[1..], vs);
    }
  }

  /** A pair of braces with nothing in it and nothing around it is handed on as it is. */
  lemma SolePair()
    ensures var pair := [Plain('{'), Plain('}')]; Expand([], Parse(pair)) == [pair]
  {
    var t := Group(Last(Nil), Nil);
    SoleWords([]);
    PairText(t);
    ParseText(t);
    hide *;
  }

  lemma PairText(t: Items)
    requires t.Group? && t.alts.Last? && t.alts.alt == t.rest == Nil
    ensures WellFormed(t, false) && Unparse(t) == [Plain('{'), Plain('}')]
  {
  }
}
