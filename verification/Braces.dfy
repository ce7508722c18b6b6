/** Brace expansion (globexp1 and globexp2 in source/glob.c). */
module Braces {
  import opened Glob

  type Pattern = seq<PatChar>

  const LBRACE := Plain('{')
  const RBRACE := Plain('}')
  const COMMA := Plain(',')

  /** The pattern that stands for itself, as find(1) wants it. */
  const SOLE := [LBRACE, RBRACE]

  // ---------- patterns as trees ----------

  datatype Items = Nil | Text(c: PatChar, rest: Items) | Group(alts: Alts, rest: Items)

  datatype Alts = Last(alt: Items) | More(alt: Items, more: Alts)

  function Append(a: Items, b: Items): Items {
    match a
    case Nil => b
    case Text(c, rest) => Text(c, Append(rest, b))
    case Group(alts, rest) => Group(alts, Append(rest, b))
  }

  function Unparse(t: Items): Pattern {
    match t
    case Nil => []
    case Text(c, rest) => [c] + Unparse(rest)
    case Group(alts, rest) => [LBRACE] + UnparseAlts(alts) + [RBRACE] + Unparse(rest)
  }

  function UnparseAlts(alts: Alts): Pattern {
    match alts
    case Last(a) => Unparse(a)
    case More(a, more) => Unparse(a) + [COMMA] + UnparseAlts(more)
  }

  /** Braces, and within braces commas, only where the tree has them; no brackets at all. */
  predicate WellFormed(t: Items, inside: bool) {
    match t
    case Nil => true
    case Text(c, rest) => c != LBRACE && c != RBRACE && c != LBRACKET && (inside ==> c != COMMA)
        && WellFormed(rest, inside)
    case Group(alts, rest) => WellFormedAlts(alts) && WellFormed(rest, inside)
  }

  predicate WellFormedAlts(alts: Alts) {
    match alts
    case Last(a) => WellFormed(a, true)
    case More(a, more) => WellFormed(a, true) && WellFormedAlts(more)
  }

  /** How many opening braces there are. */
  function Groups(t: Items): nat {
    match t
    case Nil => 0
    case Text(_, rest) => Groups(rest)
    case Group(alts, rest) => 1 + GroupsAlts(alts) + Groups(rest)
  }

  function GroupsAlts(alts: Alts): nat {
    match alts
    case Last(a) => Groups(a)
    case More(a, more) => Groups(a) + GroupsAlts(more)
  }

  lemma {:induction false} AppendText(a: Items, b: Items)
    ensures Unparse(Append(a, b)) == Unparse(a) + Unparse(b)
  {
    match a {
      case Nil =>
      case Text(_, rest) =>
        AppendText(rest, b);
      case Group(alts, rest) =>
        AppendText(rest, b);
        var lead := [LBRACE] + UnparseAlts(alts) + [RBRACE];
        assert lead + (Unparse(rest) + Unparse(b)) == lead + Unparse(rest) + Unparse(b);
    }
  }

  lemma {:induction false} AppendGroups(a: Items, b: Items)
    ensures Groups(Append(a, b)) == Groups(a) + Groups(b)
  {
    match a {
      case Nil =>
      case Text(_, rest) => AppendGroups(rest, b);
      case Group(_, rest) => AppendGroups(rest, b);
    }
  }

  lemma {:induction false} AppendWellFormed(a: Items, b: Items)
    requires WellFormed(a, true) && WellFormed(b, false)
    ensures WellFormed(Append(a, b), false)
  {
    match a {
      case Nil =>
      case Text(_, rest) => AppendWellFormed(rest, b);
      case Group(_, rest) => AppendWellFormed(rest, b);
    }
  }

  lemma AppendFacts(a: Items, b: Items)
    ensures Unparse(Append(a, b)) == Unparse(a) + Unparse(b)
    ensures Groups(Append(a, b)) == Groups(a) + Groups(b)
    ensures WellFormed(a, true) && WellFormed(b, false) ==> WellFormed(Append(a, b), false)
  {
    AppendText(a, b);
    AppendGroups(a, b);
    if WellFormed(a, true) && WellFormed(b, false) {
      AppendWellFormed(a, b);
    }
  }

  // ---------- what expansion means ----------

  function PrefixAll(p: Pattern, words: seq<Pattern>): (r: seq<Pattern>)
    ensures |r| == |words|
  {
    seq(|words|, i requires 0 <= i < |words| => p + words[i])
  }

  /** Every word of the first list before every word of the second. */
  function Product(us: seq<Pattern>, vs: seq<Pattern>): seq<Pattern> {
    if us == [] then [] else PrefixAll(us[0], vs) + Product(us[1..], vs)
  }

  /** The words of csh: one for each choice of alternatives, the choice of the last brace changing fastest. */
  function Words(t: Items): seq<Pattern> {
    match t
    case Nil => [[]]
    case Text(c, rest) => PrefixAll([c], Words(rest))
    case Group(alts, rest) => Product(WordsAlts(alts), Words(rest))
  }

  function WordsAlts(alts: Alts): seq<Pattern> {
    match alts
    case Last(a) => Words(a)
    case More(a, more) => Words(a) + WordsAlts(more)
  }

  /** What the recursion emits for `t` behind text that has been dealt with. */
  function Expand(lead: Pattern, t: Items): seq<Pattern>
    decreases Groups(t), 0, t
  {
    match t
    case Nil => [lead]
    case Text(c, rest) => Expand(lead + [c], rest)
    case Group(alts, rest) => if lead == [] && t == Group(Last(Nil), Nil) then [SOLE] else ExpandAlts(lead, alts, rest)
  }

  function ExpandAlts(lead: Pattern, alts: Alts, rest: Items): seq<Pattern>
    decreases GroupsAlts(alts) + Groups(rest), 1, alts
  {
    AppendFacts(alts.alt, rest);
    var first := Expand(lead, Append(alts.alt, rest));
    if alts.Last? then first else first + ExpandAlts(lead, alts.more, rest)
  }

  // ---------- which empty words come out as braces ----------

  function Repeat(marks: seq<bool>, n: nat): seq<bool> {
    if n == 0 then [] else marks + Repeat(marks, n - 1)
  }

  /** For each word: if it is empty, does it come out as the sole pair of braces? It does when a pair with nothing
      in it is all that the recursion has left of the pattern. */
  function Marks(t: Items): seq<bool> {
    match t
    case Nil => [false]
    case Text(_, rest) => Marks(rest)
    case Group(alts, rest) =>
      if rest != Nil then Repeat(Marks(rest), |WordsAlts(alts)|)
      else if alts == Last(Nil) then [true]
      else MarksAlts(alts)
  }

  function MarksAlts(alts: Alts): seq<bool> {
    match alts
    case Last(a) => Marks(a)
    case More(a, more) => Marks(a) + MarksAlts(more)
  }

  predicate Sole(words: seq<Pattern>, marks: seq<bool>, i: nat)
    requires i < |words| == |marks|
  {
    words[i] == [] && marks[i]
  }

  function Emitted(words: seq<Pattern>, marks: seq<bool>): (r: seq<Pattern>)
    requires |words| == |marks|
    ensures |r| == |words|
  {
    seq(|words|, i requires 0 <= i < |words| => if Sole(words, marks, i) then SOLE else words[i])
  }

  lemma {:induction false} ProductConcat(us: seq<Pattern>, us2: seq<Pattern>, vs: seq<Pattern>)
    ensures Product(us + us2, vs) == Product(us, vs) + Product(us2, vs)
  {
    if us == [] {
      assert us + us2 == us2;
    } else {
      assert (us + us2)[1..] == us[1..] + us2;
      ProductConcat(us[1..], us2, vs);
    }
  }

  lemma {:induction false} ProductPrefix(p: Pattern, us: seq<Pattern>, vs: seq<Pattern>)
    ensures Product(PrefixAll(p, us), vs) == PrefixAll(p, Product(us, vs))
  {
    if us != [] {
      ProductPrefix(p, us[1..], vs);
      assert PrefixAll(p, us)[1..] == PrefixAll(p, us[1..]);
      PrefixTwice(p, us[0], vs);
      PrefixConcat(p, PrefixAll(us[0], vs), Product(us[1..], vs));
    }
  }

  lemma PrefixTwice(p: Pattern, q: Pattern, ws: seq<Pattern>)
    ensures PrefixAll(p, PrefixAll(q, ws)) == PrefixAll(p + q, ws)
  {
    assert forall i | 0 <= i < |ws| :: p + (q + ws[i]) == p + q + ws[i];
  }

  lemma PrefixConcat(p: Pattern, us: seq<Pattern>, vs: seq<Pattern>)
    ensures PrefixAll(p, us + vs) == PrefixAll(p, us) + PrefixAll(p, vs)
  {
  }

  lemma {:induction false} ProductAssoc(us: seq<Pattern>, vs: seq<Pattern>, ws: seq<Pattern>)
    ensures Product(Product(us, vs), ws) == Product(us, Product(vs, ws))
  {
    if us != [] {
      ProductAssoc(us[1..], vs, ws);
      ProductConcat(PrefixAll(us[0], vs), Product(us[1..], vs), ws);
      ProductPrefix(us[0], vs, ws);
    }
  }

  lemma {:induction false} WordsAppend(a: Items, b: Items)
    ensures Words(Append(a, b)) == Product(Words(a), Words(b))
  {
    match a {
      case Nil =>
        assert Product([[]], Words(b)) == PrefixAll([], Words(b)) + Product([], Words(b));
        assert PrefixAll([], Words(b)) == Words(b) by {
          assert forall w: Pattern :: [] + w == w;
        }
      case Text(c, rest) =>
        WordsAppend(rest, b);
        ProductPrefix([c], Words(rest), Words(b));
      case Group(alts, rest) =>
        WordsAppend(rest, b);
        ProductAssoc(WordsAlts(alts), Words(rest), Words(b));
    }
  }

  lemma {:induction false} ProductEmptyWord(us: seq<Pattern>)
    ensures Product(us, [[]]) == us
  {
    if us != [] {
      ProductEmptyWord(us[1..]);
      assert us[0] + [] == us[0];
      assert PrefixAll(us[0], [[]]) == [us[0]];
    }
  }

  lemma {:induction false} AppendNil(a: Items)
    ensures Append(a, Nil) == a
  {
    match a {
      case Nil =>
      case Text(_, rest) => AppendNil(rest);
      case Group(_, rest) => AppendNil(rest);
    }
  }

  lemma {:induction false} RepeatAdd(marks: seq<bool>, n: nat, m: nat)
    ensures Repeat(marks, n + m) == Repeat(marks, n) + Repeat(marks, m)
  {
    if n > 0 {
      RepeatAdd(marks, n - 1, m);
      assert marks + (Repeat(marks, n - 1) + Repeat(marks, m)) == marks + Repeat(marks, n - 1) + Repeat(marks, m);
    } else {
      assert [] + Repeat(marks, m) == Repeat(marks, m);
    }
  }

  lemma {:induction false} RepeatProduct(marks: seq<bool>, us: seq<Pattern>, vs: seq<Pattern>)
    ensures Repeat(marks, |Product(us, vs)|) == Repeat(Repeat(marks, |vs|), |us|)
  {
    if us != [] {
      RepeatProduct(marks, us[1..], vs);
      RepeatAdd(marks, |vs|, |Product(us[1..], vs)|);
    }
  }

  lemma {:induction false} RepeatLength(marks: seq<bool>, us: seq<Pattern>, vs: seq<Pattern>)
    requires |marks| == |vs|
    ensures |Repeat(marks, |us|)| == |Product(us, vs)|
  {
    if us != [] {
      RepeatLength(marks, us[1..], vs);
    }
  }

  lemma {:induction false} MarksLength(t: Items)
    ensures |Marks(t)| == |Words(t)|
    decreases t
  {
    match t {
      case Nil =>
      case Text(_, rest) => MarksLength(rest);
      case Group(alts, rest) =>
        if rest == Nil {
          ProductEmptyWord(WordsAlts(alts));
          MarksAltsLength(alts);
        } else {
          MarksLength(rest);
          RepeatLength(Marks(rest), WordsAlts(alts), Words(rest));
        }
    }
  }

  lemma {:induction false} MarksAltsLength(alts: Alts)
    ensures |MarksAlts(alts)| == |WordsAlts(alts)|
    decreases alts
  {
    MarksLength(alts.alt);
    if alts.More? {
      MarksAltsLength(alts.more);
    }
  }

  /** Only what stands last decides. */
  lemma {:induction false} MarksAppend(a: Items, b: Items)
    requires b != Nil
    ensures Marks(Append(a, b)) == Repeat(Marks(b), |Words(a)|)
  {
    match a {
      case Nil =>
        assert Repeat(Marks(b), 1) == Marks(b) + [] == Marks(b);
      case Text(_, rest) =>
        MarksAppend(rest, b);
      case Group(alts, rest) =>
        MarksAppend(rest, b);
        RepeatProduct(Marks(b), WordsAlts(alts), Words(rest));
    }
  }

  lemma EmittedConcat(us: seq<Pattern>, vs: seq<Pattern>, ms: seq<bool>, ns: seq<bool>)
    requires |us| == |ms| && |vs| == |ns|
    ensures Emitted(us + vs, ms + ns) == Emitted(us, ms) + Emitted(vs, ns)
  {
    forall i | 0 <= i < |us| + |vs|
      ensures Emitted(us + vs, ms + ns)[i] == (Emitted(us, ms) + Emitted(vs, ns))[i]
    {
      if i < |us| {
        assert Sole(us + vs, ms + ns, i) == Sole(us, ms, i);
      } else {
        assert Sole(us + vs, ms + ns, i) == Sole(vs, ns, i - |us|);
      }
    }
  }

  /** What is emitted is the words of csh, in order and as often, but for the marked empty words. */
  lemma {:induction false} ExpandIsWords(lead: Pattern, t: Items)
    ensures |Marks(t)| == |Words(t)| && Expand(lead, t) == Emitted(PrefixAll(lead, Words(t)), Marks(t))
    decreases Groups(t), 0, t
  {
    MarksLength(t);
    match t {
      case Nil =>
        assert lead + [] == lead;
        assert !Sole(PrefixAll(lead, [[]]), [false], 0);
      case Text(c, rest) =>
        ExpandIsWords(lead + [c], rest);
        PrefixTwice(lead, [c], Words(rest));
      case Group(alts, rest) =>
        if t == Group(Last(Nil), Nil) {
          SoleWords(lead);
        } else {
          ExpandAltsIsWords(lead, alts, rest);
          if rest == Nil {
            ProductEmptyWord(WordsAlts(alts));
          }
        }
    }
  }

  lemma SoleWords(lead: Pattern)
    ensures var t := Group(Last(Nil), Nil);
            && Words(t) == [[]] && Marks(t) == [true] && Expand(lead, t) == [if lead == [] then SOLE else lead]
            && Emitted(PrefixAll(lead, [[]]), [true]) == Expand(lead, t)
  {
    ProductEmptyWord([[]]);
    assert lead + [] == lead;
    assert Sole(PrefixAll(lead, [[]]), [true], 0) <==> lead == [];
    assert ExpandAlts(lead, Last(Nil), Nil) == Expand(lead, Nil) == [lead];
  }

  /** The marks of what the alternatives give, each with the rest behind it. */
  function MarksBehind(alts: Alts, rest: Items): seq<bool> {
    if rest == Nil then MarksAlts(alts) else Repeat(Marks(rest), |WordsAlts(alts)|)
  }

  lemma {:induction false} ExpandAltsIsWords(lead: Pattern, alts: Alts, rest: Items)
    ensures var words := PrefixAll(lead, Product(WordsAlts(alts), Words(rest)));
            |MarksBehind(alts, rest)| == |words| && ExpandAlts(lead, alts, rest)
              == Emitted(words, MarksBehind(alts, rest))
    decreases GroupsAlts(alts) + Groups(rest), 1, alts
  {
    hide Words, PrefixAll, Product, Emitted, Marks, Repeat;
    AppendFacts(alts.alt, rest);
    ExpandIsWords(lead, Append(alts.alt, rest));
    WordsAppend(alts.alt, rest);
    if rest == Nil {
      AppendNil(alts.alt);
    } else {
      MarksAppend(alts.alt, rest);
    }
    if alts.More? {
      ExpandAltsIsWords(lead, alts.more, rest);
      ProductConcat(Words(alts.alt), WordsAlts(alts.more), Words(rest));
      PrefixConcat(lead, Product(Words(alts.alt), Words(rest)), Product(WordsAlts(alts.more), Words(rest)));
      RepeatAdd(Marks(rest), |Words(alts.alt)|, |WordsAlts(alts.more)|);
      EmittedConcat(PrefixAll(lead, Product(Words(alts.alt), Words(rest))),
                    PrefixAll(lead, Product(WordsAlts(alts.more), Words(rest))),
                    Marks(Append(alts.alt, rest)), MarksBehind(alts.more, rest));
    }
  }

  // ---------- when the words come out exactly ----------

  /** All of the pattern can vanish: it is nothing but groups that have an alternative that can. */
  predicate Vanishes(t: Items) {
    match t
    case Nil => true
    case Text(_, _) => false
    case Group(alts, rest) => VanishesAlts(alts) && Vanishes(rest)
  }

  predicate VanishesAlts(alts: Alts) {
    match alts
    case Last(a) => Vanishes(a)
    case More(a, more) => Vanishes(a) || VanishesAlts(more)
  }

  /** Some choice of alternatives leaves an empty pair of braces and nothing else. */
  predicate LeavesBraces(t: Items) {
    match t
    case Nil => false
    case Text(_, _) => false
    case Group(alts, rest) =>
      if rest != Nil then VanishesAlts(alts) && LeavesBraces(rest)
      else alts == Last(Nil) || LeavesBracesAlts(alts)
  }

  predicate LeavesBracesAlts(alts: Alts) {
    match alts
    case Last(a) => LeavesBraces(a)
    case More(a, more) => LeavesBraces(a) || LeavesBracesAlts(more)
  }

  ghost predicate AnySole(words: seq<Pattern>, marks: seq<bool>) {
    |words| == |marks| && exists i | 0 <= i < |words| :: Sole(words, marks, i)
  }

  lemma AnySoleConcat(us: seq<Pattern>, vs: seq<Pattern>, ms: seq<bool>, ns: seq<bool>)
    requires |us| == |ms| && |vs| == |ns|
    ensures AnySole(us + vs, ms + ns) <==> AnySole(us, ms) || AnySole(vs, ns)
  {
    forall i | 0 <= i < |us|
      ensures Sole(us + vs, ms + ns, i) == Sole(us, ms, i)
    {
    }
    forall j | 0 <= j < |vs|
      ensures Sole(us + vs, ms + ns, |us| + j) == Sole(vs, ns, j)
    {
    }
    if AnySole(us + vs, ms + ns) {
      var i :| 0 <= i < |us + vs| && Sole(us + vs, ms + ns, i);
      assert if i < |us| then Sole(us, ms, i) else Sole(vs, ns, i - |us|);
    }
  }

  lemma AnySolePrefix(p: Pattern, words: seq<Pattern>, marks: seq<bool>)
    requires |words| == |marks|
    ensures AnySole(PrefixAll(p, words), marks) <==> p == [] && AnySole(words, marks)
  {
    forall i | 0 <= i < |words|
      ensures Sole(PrefixAll(p, words), marks, i) == (p == [] && Sole(words, marks, i))
    {
    }
  }

  lemma {:induction false} AnySoleProduct(us: seq<Pattern>, vs: seq<Pattern>, marks: seq<bool>)
    requires |vs| == |marks|
    ensures AnySole(Product(us, vs), Repeat(marks, |us|)) <==> [] in us && AnySole(vs, marks)
  {
    if us != [] {
      hide Product, Repeat, AnySole;
      AnySoleProduct(us[1..], vs, marks);
      AnySolePrefix(us[0], vs, marks);
      RepeatLength(marks, us[1..], vs);
      AnySoleConcat(PrefixAll(us[0], vs), Product(us[1..], vs), marks, Repeat(marks, |us[1..]|));
      ProductStep(us, vs, marks);
      assert [] in us <==> us[0] == [] || [] in us[1..];
    }
  }

  lemma ProductStep(us: seq<Pattern>, vs: seq<Pattern>, marks: seq<bool>)
    requires us != []
    ensures Product(us, vs) == PrefixAll(us[0], vs) + Product(us[1..], vs)
    ensures Repeat(marks, |us|) == marks + Repeat(marks, |us[1..]|)
  {
  }

  lemma {:induction false} EmptyInProduct(us: seq<Pattern>, vs: seq<Pattern>)
    ensures [] in Product(us, vs) <==> [] in us && [] in vs
  {
    if us != [] {
      EmptyInProduct(us[1..], vs);
      EmptyInPrefix(us[0], vs);
      assert [] in us <==> us[0] == [] || [] in us[1..];
    }
  }

  lemma EmptyInPrefix(p: Pattern, words: seq<Pattern>)
    ensures [] in PrefixAll(p, words) <==> p == [] && [] in words
  {
    forall i | 0 <= i < |words|
      ensures PrefixAll(p, words)[i] == [] <==> p == [] && words[i] == []
    {
    }
  }

  lemma {:induction false} VanishesIsEmpty(t: Items)
    ensures Vanishes(t) <==> [] in Words(t)
    decreases t
  {
    match t {
      case Nil =>
      case Text(c, rest) => EmptyInPrefix([c], Words(rest));
      case Group(alts, rest) =>
        VanishesAltsIsEmpty(alts);
        VanishesIsEmpty(rest);
        EmptyInProduct(WordsAlts(alts), Words(rest));
    }
  }

  lemma {:induction false} VanishesAltsIsEmpty(alts: Alts)
    ensures VanishesAlts(alts) <==> [] in WordsAlts(alts)
    decreases alts
  {
    VanishesIsEmpty(alts.alt);
    if alts.More? {
      VanishesAltsIsEmpty(alts.more);
    }
  }

  lemma {:induction false} LeavesBracesIsSole(t: Items)
    ensures LeavesBraces(t) <==> AnySole(Words(t), Marks(t))
    decreases t
  {
    match t {
      case Nil =>
      case Text(c, rest) =>
        MarksLength(rest);
        AnySolePrefix([c], Words(rest), Marks(rest));
      case Group(alts, rest) =>
        if rest != Nil {
          LeavesBracesIsSole(rest);
          VanishesAltsIsEmpty(alts);
          MarksLength(rest);
          AnySoleProduct(WordsAlts(alts), Words(rest), Marks(rest));
        } else if alts == Last(Nil) {
          SoleWords([]);
          assert Sole([[]], [true], 0);
        } else {
          ProductEmptyWord(WordsAlts(alts));
          LeavesBracesAltsIsSole(alts);
        }
    }
  }

  lemma {:induction false} LeavesBracesAltsIsSole(alts: Alts)
    ensures LeavesBracesAlts(alts) <==> AnySole(WordsAlts(alts), MarksAlts(alts))
    decreases alts
  {
    LeavesBracesIsSole(alts.alt);
    if alts.More? {
      LeavesBracesAltsIsSole(alts.more);
      MarksLength(alts.alt);
      MarksAltsLength(alts.more);
      AnySoleConcat(Words(alts.alt), WordsAlts(alts.more), Marks(alts.alt), MarksAlts(alts.more));
    }
  }

  /** The words come out exactly, just when no choice of alternatives leaves an empty pair of braces alone. */
  lemma ExpandExactly(lead: Pattern, t: Items)
    ensures Expand(lead, t) == PrefixAll(lead, Words(t)) <==> lead != [] || !LeavesBraces(t)
  {
    var words, marks := PrefixAll(lead, Words(t)), Marks(t);
    ExpandIsWords(lead, t);
    LeavesBracesIsSole(t);
    AnySolePrefix(lead, Words(t), marks);
    if AnySole(words, marks) {
      var i :| 0 <= i < |words| && Sole(words, marks, i);
      assert Expand(lead, t)[i] == SOLE != words[i];
    } else {
      assert forall i | 0 <= i < |words| :: !Sole(words, marks, i) && Expand(lead, t)[i] == words[i];
    }
  }

  /** They may not: the only word of {}{} is empty, and {} is handed on. An empty alternative is no such pair:
      {,} gives two empty words. */
  lemma TwoPairs()
    ensures var t := Group(Last(Nil), Group(Last(Nil), Nil)); Words(t) == [[]] && Expand([], t) == [SOLE]
    ensures var t := Group(More(Nil, Last(Nil)), Nil); Words(t) == [[], []] == Expand([], t)
  {
    var pair := Group(Last(Nil), Nil);
    SoleWords([]);
    ProductEmptyWord([[]]);
    assert ExpandAlts([], Last(Nil), pair) == Expand([], pair);
    var t := Group(More(Nil, Last(Nil)), Nil);
    ProductEmptyWord([[], []]);
    assert WordsAlts(Last(Nil)) == [[]] && WordsAlts(t.alts) == [[]] + [[]] == [[], []];
    assert ExpandAlts([], Last(Nil), Nil) == Expand([], Nil) == [[]];
    assert ExpandAlts([], t.alts, Nil) == [[]] + [[]];
  }
}
