/** Brace expansion of pattern text: which texts are balanced, and the two procedures of source/glob.c. */
module BraceText {
  import opened Glob
  import opened Braces
  import opened Lists

  // ---------- balanced texts and their trees ----------

  /** Every brace has its partner, `depth` of those to come being closed already opened. */
  predicate Balanced(s: Pattern, depth: nat) {
    if s == [] then depth == 0
    else if s[0] == LBRACE then Balanced(s[1..], depth + 1)
    else if s[0] == RBRACE then depth > 0 && Balanced(s[1..], depth - 1)
    else Balanced(s[1..], depth)
  }

  /** Read items up to a brace or comma that is not theirs. */
  function ParseItems(s: Pattern, inside: bool): (r: (Items, Pattern))
    ensures |r.1| <= |s|
    decreases |s|, 0
  {
    if s == [] || s[0] == RBRACE || (inside && s[0] == COMMA) then (Nil, s)
    else if s[0] == LBRACE then
      var (alts, rest) := ParseAlts(s[1..]);
      if rest == [] || rest[0] != RBRACE then (Nil, s)
      else
        var (t, rest2) := ParseItems(rest[1..], inside);
        (Group(alts, t), rest2)
    else
      var (t, rest) := ParseItems(s[1..], inside);
      (Text(s[0], t), rest)
  }

  function ParseAlts(s: Pattern): (r: (Alts, Pattern))
    ensures |r.1| <= |s|
    decreases |s|, 1
  {
    var (a, rest) := ParseItems(s, true);
    if rest == [] || rest[0] != COMMA then (Last(a), rest)
    else
      var (more, rest2) := ParseAlts(rest[1..]);
      (More(a, more), rest2)
  }

  predicate NoBracket(s: Pattern) {
    forall i | 0 <= i < |s| :: s[i] != LBRACKET
  }

  lemma NoBracketTail(s: Pattern, t: Pattern, rest: Pattern)
    requires NoBracket(s) && t + rest == s
    ensures NoBracket(rest) && (rest != [] ==> NoBracket(rest[1..]))
  {
    assert forall i | 0 <= i < |rest| :: rest[i] == s[|t| + i];
  }

  /** What is read and what is left make up the text; what is read is well-formed. */
  lemma {:induction false} ParseItemsRight(s: Pattern, inside: bool)
    requires NoBracket(s)
    ensures var (t, rest) := ParseItems(s, inside); Unparse(t) + rest == s && WellFormed(t, inside)
    decreases |s|, 0
  {
    hide Unparse, UnparseAlts;
    NilWhole(s);
    if s == [] || s[0] == RBRACE || (inside && s[0] == COMMA) {
    } else if s[0] == LBRACE {
      ParseAltsRight(s[1..]);
      var (alts, rest) := ParseAlts(s[1..]);
      if rest != [] && rest[0] == RBRACE {
        NoBracketTail(s[1..], UnparseAlts(alts), rest);
        ParseItemsRight(rest[1..], inside);
        var (t, rest2) := ParseItems(rest[1..], inside);
        GroupWhole(alts, rest, t, rest2);
        assert s == [LBRACE] + s[1..];
      }
    } else {
      ParseItemsRight(s[1..], inside);
      var (t, rest) := ParseItems(s[1..], inside);
      TextWhole(s[0], t, rest);
      assert s == [s[0]] + s[1..];
    }
  }

  lemma NilWhole(s: Pattern)
    ensures Unparse(Nil) + s == s
  {
  }

  lemma TextWhole(c: PatChar, t: Items, rest: Pattern)
    ensures Unparse(Text(c, t)) + rest == [c] + (Unparse(t) + rest)
  {
    Regroup([c], Unparse(t), rest);
  }

  lemma GroupWhole(alts: Alts, rest: Pattern, t: Items, rest2: Pattern)
    requires rest != [] && rest[0] == RBRACE && Unparse(t) + rest2 == rest[1..]
    ensures Unparse(Group(alts, t)) + rest2 == [LBRACE] + (UnparseAlts(alts) + rest)
  {
    assert rest == [RBRACE] + (Unparse(t) + rest2);
    Regroup([LBRACE] + UnparseAlts(alts) + [RBRACE], Unparse(t), rest2);
    Regroup([LBRACE] + UnparseAlts(alts), [RBRACE], Unparse(t) + rest2);
    Regroup([LBRACE], UnparseAlts(alts), rest);
  }

  lemma {:induction false} ParseAltsRight(s: Pattern)
    requires NoBracket(s)
    ensures var (alts, rest) := ParseAlts(s); UnparseAlts(alts) + rest == s && WellFormedAlts(alts)
    decreases |s|, 1
  {
    ParseItemsRight(s, true);
    var (a, rest) := ParseItems(s, true);
    if rest != [] && rest[0] == COMMA {
      NoBracketTail(s, Unparse(a), rest);
      ParseAltsRight(rest[1..]);
      var (more, rest2) := ParseAlts(rest[1..]);
      AltsText(More(a, more), rest2);
      assert [COMMA] + UnparseAlts(more) + rest2 == [COMMA] + (UnparseAlts(more) + rest2) == rest;
    }
  }

  lemma {:induction false} ParseItemsStops(s: Pattern, inside: bool, depth: nat)
    requires Balanced(s, depth) && (depth > 0 <==> inside)
    ensures var (t, rest) := ParseItems(s, inside);
            && Balanced(rest, depth)
            && (rest == [] <==> depth == 0)
            && (rest != [] ==> rest[0] == RBRACE || rest[0] == COMMA)
    decreases |s|, 0
  {
    if s == [] || s[0] == RBRACE || (inside && s[0] == COMMA) {
    } else if s[0] == LBRACE {
      ParseAltsStops(s[1..], depth + 1);
      var (alts, rest) := ParseAlts(s[1..]);
      ParseItemsStops(rest[1..], inside, depth);
    } else {
      ParseItemsStops(s[1..], inside, depth);
    }
  }

  lemma {:induction false} ParseAltsStops(s: Pattern, depth: nat)
    requires Balanced(s, depth) && depth > 0
    ensures var rest := ParseAlts(s).1;
            rest != [] && rest[0] == RBRACE && Balanced(rest, depth)
    decreases |s|, 1
  {
    ParseItemsStops(s, true, depth);
    var (a, rest) := ParseItems(s, true);
    if rest[0] == COMMA {
      ParseAltsStops(rest[1..], depth);
    }
  }

  function Parse(s: Pattern): Items {
    ParseItems(s, false).0
  }

  /** A balanced text without brackets is the text of a well-formed tree. */
  lemma ParseBalanced(s: Pattern)
    requires Balanced(s, 0) && LBRACKET !in s
    ensures Unparse(Parse(s)) == s && WellFormed(Parse(s), false)
  {
    ParseItemsStops(s, false, 0);
    ParseItemsRight(s, false);
    assert Unparse(Parse(s)) + [] == Unparse(Parse(s));
  }

  /** The text of a group and what follows it, piece by piece. */
  lemma GroupText(alts: Alts, rest: Items, s: Pattern)
    ensures var text, after := Unparse(Group(alts, rest)) + s, [RBRACE] + Unparse(rest) + s;
            && text != [] && text[0] == LBRACE && text[1..] == UnparseAlts(alts) + after
            && after[0] == RBRACE && after[1..] == Unparse(rest) + s
            && |Unparse(Group(alts, rest))| == 2 + |UnparseAlts(alts)| + |Unparse(rest)|
  {
    var after := [RBRACE] + Unparse(rest) + s;
    Regroup([RBRACE], Unparse(rest), s);
    assert after[1..] == Unparse(rest) + s;
    GroupWhole(alts, after, rest, s);
    assert ([LBRACE] + (UnparseAlts(alts) + after))[1..] == UnparseAlts(alts) + after;
  }

  lemma AltsText(alts: Alts, s: Pattern)
    ensures alts.Last? ==> UnparseAlts(alts) == Unparse(alts.alt)
    ensures alts.More? ==> var after := [COMMA] + UnparseAlts(alts.more) + s;
                           && UnparseAlts(alts) + s == Unparse(alts.alt) + after
                              && after[1..] == UnparseAlts(alts.more) + s
                           && after != [] && after[0] == COMMA
                           && |UnparseAlts(alts)| == |Unparse(alts.alt)| + 1 + |UnparseAlts(alts.more)|
  {
    if alts.More? {
      Regroup(Unparse(alts.alt), [COMMA], UnparseAlts(alts.more));
      Regroup(Unparse(alts.alt), [COMMA] + UnparseAlts(alts.more), s);
      Regroup([COMMA], UnparseAlts(alts.more), s);
    }
  }

  lemma AltsBehind(cur: Pattern, alts: Alts)
    requires alts.More?
    ensures cur + Unparse(alts.alt) + [COMMA] + UnparseAlts(alts.more) == cur + UnparseAlts(alts)
  {
    Regroup(cur, Unparse(alts.alt), [COMMA]);
    Regroup(cur, Unparse(alts.alt) + [COMMA], UnparseAlts(alts.more));
  }

  lemma GroupBehind(cur: Pattern, alts: Alts, rest: Items)
    ensures cur + [LBRACE] + UnparseAlts(alts) + [RBRACE] + Unparse(rest) == cur + Unparse(Group(alts, rest))
  {
    Regroup(cur, [LBRACE], UnparseAlts(alts));
    Regroup(cur, [LBRACE] + UnparseAlts(alts), [RBRACE]);
    Regroup(cur, [LBRACE] + UnparseAlts(alts) + [RBRACE], Unparse(rest));
  }

  lemma {:induction false} BalancedItems(t: Items, inside: bool, s: Pattern, depth: nat)
    requires WellFormed(t, inside)
    ensures Balanced(Unparse(t) + s, depth) == Balanced(s, depth) && LBRACKET !in Unparse(t)
    decreases t
  {
    match t {
      case Nil =>
        assert Unparse(t) + s == s;
      case Text(c, rest) =>
        BalancedItems(rest, inside, s, depth);
        assert (Unparse(t) + s)[1..] == Unparse(rest) + s;
      case Group(alts, rest) =>
        var after := [RBRACE] + Unparse(rest) + s;
        BalancedAlts(alts, after, depth + 1);
        BalancedItems(rest, inside, s, depth);
        GroupText(alts, rest, s);
    }
  }

  lemma {:induction false} BalancedAlts(alts: Alts, s: Pattern, depth: nat)
    requires WellFormedAlts(alts)
    ensures Balanced(UnparseAlts(alts) + s, depth) == Balanced(s, depth) && LBRACKET !in UnparseAlts(alts)
    decreases alts
  {
    match alts {
      case Last(a) => BalancedItems(a, true, s, depth);
      case More(a, more) =>
        var after := [COMMA] + UnparseAlts(more) + s;
        BalancedItems(a, true, after, depth);
        BalancedAlts(more, s, depth);
        AltsText(alts, s);
    }
  }

  /** The balanced texts without brackets are exactly the texts of well-formed trees. */
  lemma BalancedExactly(s: Pattern)
    ensures Balanced(s, 0) && LBRACKET !in s <==> exists t :: WellFormed(t, false) && Unparse(t) == s
  {
    if Balanced(s, 0) && LBRACKET !in s {
      ParseBalanced(s);
    }
    if t :| WellFormed(t, false) && Unparse(t) == s {
      BalancedItems(t, false, [], 0);
      assert s + [] == s;
    }
  }

  /** A text has one tree only: reading back what a tree prints gives the tree. */
  lemma {:induction false} ParseUnparse(t: Items, inside: bool, s: Pattern)
    requires WellFormed(t, inside) && (s == [] || s[0] == RBRACE || (inside && s[0] == COMMA))
    ensures ParseItems(Unparse(t) + s, inside) == (t, s)
    decreases t
  {
    if t.Nil? {
      assert Unparse(t) + s == s;
    } else {
      ParseUnparse(t.rest, inside, s);
      if t.Text? {
        assert (Unparse(t) + s)[0] == t.c && (Unparse(t) + s)[1..] == Unparse(t.rest) + s;
      } else {
        GroupText(t.alts, t.rest, s);
        ParseUnparseAlts(t.alts, [RBRACE] + Unparse(t.rest) + s);
      }
      hide Unparse, UnparseAlts, WellFormed, ParseAlts;
      assert ParseItems(Unparse(t) + s, inside) == (t, s);
    }
  }

  lemma {:induction false} ParseUnparseAlts(alts: Alts, s: Pattern)
    requires WellFormedAlts(alts) && s != [] && s[0] == RBRACE
    ensures ParseAlts(UnparseAlts(alts) + s) == (alts, s)
    decreases alts
  {
    hide ParseItems, ParseAlts, Unparse, UnparseAlts;
    AltsText(alts, s);
    if alts.Last? {
      ParseUnparse(alts.alt, true, s);
      ParseLast(UnparseAlts(alts) + s, alts.alt, s);
    } else {
      var after := [COMMA] + UnparseAlts(alts.more) + s;
      ParseUnparse(alts.alt, true, after);
      ParseUnparseAlts(alts.more, s);
      ParseMore(UnparseAlts(alts) + s, alts.alt, after, alts.more, s);
    }
  }

  lemma ParseLast(text: Pattern, a: Items, s: Pattern)
    requires ParseItems(text, true) == (a, s) && s != [] && s[0] == RBRACE
    ensures ParseAlts(text) == (Last(a), s)
  {
    hide ParseItems;
  }

  lemma ParseMore(text: Pattern, a: Items, after: Pattern, more: Alts, s: Pattern)
    requires ParseItems(text, true) == (a, after) && after != [] && after[0] == COMMA
    requires ParseAlts(after[1..]) == (more, s)
    ensures ParseAlts(text) == (More(a, more), s)
  {
    hide ParseItems;
  }

  // ---------- the scans ----------

  /** How far the closing brace is, `depth` more being open. */
  function Close(s: Pattern, depth: nat): nat {
    if s == [] then 0
    else if s[0] == LBRACE then 1 + Close(s[1..], depth + 1)
    else if s[0] == RBRACE then if depth == 0 then 0 else 1 + Close(s[1..], depth - 1)
    else 1 + Close(s[1..], depth)
  }

  lemma {:induction false} CloseItems(t: Items, inside: bool, s: Pattern, depth: nat)
    requires WellFormed(t, inside)
    ensures Close(Unparse(t) + s, depth) == |Unparse(t)| + Close(s, depth)
    decreases t
  {
    match t {
      case Nil =>
        assert Unparse(t) + s == s;
      case Text(c, rest) =>
        CloseItems(rest, inside, s, depth);
        assert (Unparse(t) + s)[1..] == Unparse(rest) + s;
      case Group(alts, rest) =>
        var after := [RBRACE] + Unparse(rest) + s;
        CloseAlts(alts, after, depth + 1);
        CloseItems(rest, inside, s, depth);
        GroupText(alts, rest, s);
    }
  }

  lemma {:induction false} CloseAlts(alts: Alts, s: Pattern, depth: nat)
    requires WellFormedAlts(alts)
    ensures Close(UnparseAlts(alts) + s, depth) == |UnparseAlts(alts)| + Close(s, depth)
    decreases alts
  {
    match alts {
      case Last(a) => CloseItems(a, true, s, depth);
      case More(a, more) =>
        var after := [COMMA] + UnparseAlts(more) + s;
        CloseItems(a, true, after, depth);
        CloseAlts(more, s, depth);
        AltsText(alts, s);
        hide Unparse, UnparseAlts;
        assert Close(after, depth) == 1 + Close(UnparseAlts(more) + s, depth);
    }
  }

  /** The pieces between the commas at depth 0; `cur` is the piece begun. */
  function Split(s: Pattern, cur: Pattern, depth: nat): (r: seq<Pattern>)
    ensures r != []
    decreases |s|
  {
    if s == [] then [cur]
    else if s[0] == COMMA && depth == 0 then [cur] + Split(s[1..], [], 0)
    else
      Split(s[1..], cur + [s[0]],
            if s[0] == LBRACE then depth + 1 else if s[0] == RBRACE && depth > 0 then depth - 1 else depth)
  }

  function Pieces(alts: Alts): (r: seq<Pattern>)
    ensures r != []
  {
    match alts
    case Last(a) => [Unparse(a)]
    case More(a, more) => [Unparse(a)] + Pieces(more)
  }

  lemma {:induction false} SplitItems(t: Items, s: Pattern, cur: Pattern, depth: nat)
    requires WellFormed(t, true)
    ensures Split(Unparse(t) + s, cur, depth) == Split(s, cur + Unparse(t), depth)
    decreases t
  {
    match t {
      case Nil =>
        assert Unparse(t) + s == s && cur + [] == cur;
      case Text(c, rest) =>
        SplitItems(rest, s, cur + [c], depth);
        assert (Unparse(t) + s)[1..] == Unparse(rest) + s;
        assert cur + [c] + Unparse(rest) == cur + Unparse(t);
      case Group(alts, rest) =>
        var after := [RBRACE] + Unparse(rest) + s;
        var inner := cur + [LBRACE] + UnparseAlts(alts);
        SplitInner(alts, after, cur + [LBRACE], depth + 1);
        SplitItems(rest, s, inner + [RBRACE], depth);
        GroupText(alts, rest, s);
        GroupBehind(cur, alts, rest);
        hide Unparse, UnparseAlts;
        assert Split(Unparse(t) + s, cur, depth) == Split(UnparseAlts(alts) + after, cur + [LBRACE], depth + 1);
        assert Split(after, inner, depth + 1) == Split(Unparse(rest) + s, inner + [RBRACE], depth);
    }
  }

  /** Inner commas do not split. */
  lemma {:induction false} SplitInner(alts: Alts, s: Pattern, cur: Pattern, depth: nat)
    requires WellFormedAlts(alts) && depth > 0
    ensures Split(UnparseAlts(alts) + s, cur, depth) == Split(s, cur + UnparseAlts(alts), depth)
    decreases alts
  {
    match alts {
      case Last(a) => SplitItems(a, s, cur, depth);
      case More(a, more) =>
        var after := [COMMA] + UnparseAlts(more) + s;
        SplitItems(a, after, cur, depth);
        SplitInner(more, s, cur + Unparse(a) + [COMMA], depth);
        AltsText(alts, s);
        AltsBehind(cur, alts);
        hide Unparse, UnparseAlts;
        assert Split(after, cur + Unparse(a), depth) == Split(UnparseAlts(more) + s, cur + Unparse(a) + [COMMA], depth);
    }
  }

  lemma {:induction false} SplitPieces(alts: Alts)
    requires WellFormedAlts(alts)
    ensures Split(UnparseAlts(alts), [], 0) == Pieces(alts)
    decreases alts
  {
    match alts {
      case Last(a) =>
        SplitItems(a, [], [], 0);
        assert Unparse(a) + [] == Unparse(a) == [] + Unparse(a);
      case More(a, more) =>
        var after := [COMMA] + UnparseAlts(more);
        SplitItems(a, after, [], 0);
        SplitPieces(more);
        assert UnparseAlts(alts) == Unparse(a) + after;
        assert after[1..] == UnparseAlts(more);
        assert [] + Unparse(a) == Unparse(a);
    }
  }

  // ---------- the procedures ----------

  /** Text that is dealt with moves to the front. */
  ghost function Settle(lead: Pattern, t: Items): (r: (Pattern, Items))
    requires WellFormed(t, false) && LBRACE !in lead
    ensures r.0 + Unparse(r.1) == lead + Unparse(t) && LBRACE !in r.0
    ensures Expand(r.0, r.1) == Expand(lead, t) && Groups(r.1) == Groups(t)
    ensures WellFormed(r.1, false) && !r.1.Text?
    decreases t
  {
    match t
    case Text(c, rest) =>
      assert lead + [c] + Unparse(rest) == lead + Unparse(t);
      Settle(lead + [c], rest)
    case _ => (lead, t)
  }

  lemma UnparseEmpty(t: Items)
    ensures Unparse(t) == [] <==> t == Nil
  {
  }

  lemma SoleOnly(lead: Pattern, alts: Alts, rest: Items)
    requires LBRACE !in lead && lead + Unparse(Group(alts, rest)) == SOLE
    ensures lead == [] && alts == Last(Nil) && rest == Nil
  {
    var s := lead + Unparse(Group(alts, rest));
    assert lead == [];
    GroupText(alts, rest, []);
    assert |Unparse(Group(alts, rest))| == 2;
    assert UnparseAlts(alts) == [] && Unparse(rest) == [];
    UnparseEmpty(rest);
    UnparseEmpty(alts.alt);
  }

  /** globexp1: the patterns handed to the globbing routine, in order. Only the first brace is ever tried:
      whether it could be expanded or not, globexp2 says that there is nothing more to do. */
  method GlobExp1(pattern: Pattern, ghost lead: Pattern, ghost t: Items) returns (globbed: seq<Pattern>)
    requires WellFormed(t, false) && LBRACE !in lead && pattern == lead + Unparse(t)
    ensures globbed == Expand(lead, t)
    decreases Groups(t), 1
  {
    ghost var (lead2, t2) := Settle(lead, t);
    if t2.Group? {
      GroupText(t2.alts, t2.rest, []);
      assert Unparse(t2) + [] == Unparse(t2);
    }
    hide Unparse, UnparseAlts, WellFormed;
    if |pattern| == 2 && pattern[0] == LBRACE && pattern[1] == RBRACE {
      assert pattern == SOLE;
      FirstBrace(pattern, lead2, t2);
      SoleOnly(lead2, t2.alts, t2.rest);
      return [pattern];
    }
    FirstBrace(pattern, lead2, t2);
    var ptr := 0;
    while ptr < |pattern| && pattern[ptr] != LBRACE
      invariant 0 <= ptr <= |pattern| && LBRACE !in pattern[..ptr]
    {
      ptr := ptr + 1;
    }
    if ptr < |pattern| {
      FoundBrace(pattern, lead2, t2, ptr);
      globbed := GlobExp2(ptr, pattern, lead2, t2.alts, t2.rest);
    } else {
      assert pattern[..ptr] == pattern;
      assert t2 == Nil && lead2 + [] == lead2;
      globbed := [pattern];
      assert Unparse(Nil) == [] by { UnparseEmpty(Nil); }
    }
  }

  lemma FirstBrace(pattern: Pattern, lead: Pattern, t: Items)
    requires pattern == lead + Unparse(t) && LBRACE !in lead && !t.Text?
    ensures LBRACE in pattern <==> t.Group?
    ensures t.Group? ==> |lead| < |pattern| && pattern[|lead|] == LBRACE && pattern != []
  {
    if t.Group? {
      assert pattern[|lead|] == LBRACE;
    }
  }

  lemma FoundBrace(pattern: Pattern, lead: Pattern, t: Items, ptr: nat)
    requires pattern == lead + Unparse(t) && LBRACE !in lead && t.Group?
    requires ptr < |pattern| && pattern[ptr] == LBRACE && LBRACE !in pattern[..ptr]
    ensures ptr == |lead|
  {
    FirstBrace(pattern, lead, t);
  }

  lemma GroupLayout(pattern: Pattern, lead: Pattern, alts: Alts, rest: Items)
    requires WellFormed(Group(alts, rest), false) && pattern == lead + Unparse(Group(alts, rest))
    ensures WellFormedAlts(alts) && WellFormed(rest, false)
    ensures var first, pe := |lead| + 1, |lead| + 1 + |UnparseAlts(alts)|;
            && pe < |pattern| && pattern[pe] == RBRACE && Close(pattern[first..], 0) == pe - first
            && pattern[..|lead|] == lead && pattern[first..pe] == UnparseAlts(alts)
               && pattern[pe + 1..] == Unparse(rest)
  {
    var after := [RBRACE] + Unparse(rest);
    assert pattern == lead + [LBRACE] + UnparseAlts(alts) + after;
    assert pattern[|lead| + 1..] == UnparseAlts(alts) + after;
    CloseAlts(alts, after, 0);
  }

  lemma PiecesHead(alts: Alts)
    ensures Pieces(alts)[0] == Unparse(alts.alt) && (alts.Last? <==> |Pieces(alts)| == 1)
    ensures alts.More? ==> Pieces(alts)[1..] == Pieces(alts.more)
    ensures alts.More? ==> WellFormedAlts(alts) == (WellFormed(alts.alt, true) && WellFormedAlts(alts.more))
                           && GroupsAlts(alts) == Groups(alts.alt) + GroupsAlts(alts.more)
    ensures alts.Last? ==> WellFormedAlts(alts) == WellFormed(alts.alt, true) && GroupsAlts(alts) == Groups(alts.alt)
  {
  }

  /** One step of the two scans. */
  lemma CloseStep(s: Pattern, k: nat, depth: nat)
    requires k < |s|
    ensures Close(s[k..], depth)
            == if s[k] == LBRACE then 1 + Close(s[k + 1..], depth + 1)
               else if s[k] == RBRACE then if depth == 0 then 0 else 1 + Close(s[k + 1..], depth - 1)
               else 1 + Close(s[k + 1..], depth)
  {
    assert s[k..][1..] == s[k + 1..];
  }

  lemma SplitStep(s: Pattern, pl: nat, k: nat, end: nat, depth: nat)
    requires pl <= k < end <= |s|
    ensures Split(s[k..end], s[pl..k], depth)
            == if s[k] == COMMA && depth == 0 then [s[pl..k]] + Split(s[k + 1..end], s[k + 1..k + 1], 0)
               else Split(s[k + 1..end], s[pl..k + 1],
                          if s[k] == LBRACE then depth + 1
                          else if s[k] == RBRACE && depth > 0 then depth - 1
                          else depth)
  {
    assert s[k..end][1..] == s[k + 1..end];
    assert s[pl..k] + [s[k]] == s[pl..k + 1];
    assert s[k + 1..k + 1] == [];
  }

  /** The scan for the closing brace. */
  method FindClose(pattern: Pattern, ptr: nat) returns (pe: nat)
    requires ptr <= |pattern| && ptr + Close(pattern[ptr..], 0) < |pattern|
    ensures pe == ptr + Close(pattern[ptr..], 0)
  {
    var i := 0;
    pe := ptr;
    while pe < |pattern|
      invariant ptr <= pe <= |pattern|
      invariant ptr + Close(pattern[ptr..], 0) == pe + Close(pattern[pe..], i)
    {
      CloseStep(pattern, pe, i);
      if pattern[pe] == LBRACE {
        i := i + 1;
      } else if pattern[pe] == RBRACE {
        if i == 0 {
          break;
        }
        i := i - 1;
      }
      pe := pe + 1;
    }
  }

  lemma SplitEnd(s: Pattern, cur: Pattern, depth: nat)
    requires s == []
    ensures Split(s, cur, depth) == [cur]
  {
  }

  /** Between two steps of the second scan: the piece begun at `pl` and the rest up to the closing brace
      are what is left of the alternatives. */
  ghost predicate Scanning(pattern: Pattern, pl: nat, pm: nat, pe: nat, i: nat, left: Alts) {
    && pl <= pm <= pe < |pattern| && WellFormedAlts(left)
    && Close(pattern[pm..], i) == pe - pm && Split(pattern[pm..pe], pattern[pl..pm], i) == Pieces(left)
  }

  predicate PieceEnds(c: PatChar, depth: nat) {
    depth == 0 && (c == RBRACE || c == COMMA)
  }

  lemma ScanOn(pattern: Pattern, pl: nat, pm: nat, pe: nat, i: nat, left: Alts)
    requires Scanning(pattern, pl, pm, pe, i, left) && pattern[pe] == RBRACE && !PieceEnds(pattern[pm], i)
    ensures Scanning(pattern, pl, pm + 1, pe,
                     if pattern[pm] == LBRACE then i + 1 else if pattern[pm] == RBRACE then i - 1 else i, left)
  {
    hide Close, Split, Pieces, WellFormedAlts;
    CloseStep(pattern, pm, i);
    SplitStep(pattern, pl, pm, pe, i);
  }

  lemma ScanPiece(pattern: Pattern, pl: nat, pm: nat, pe: nat, i: nat, left: Alts)
    requires Scanning(pattern, pl, pm, pe, i, left) && pattern[pe] == RBRACE && PieceEnds(pattern[pm], i)
    ensures pattern[pl..pm] == Unparse(left.alt) && WellFormed(left.alt, true)
    ensures left.Last? <==> pm == pe
    ensures left.More? ==> Scanning(pattern, pm + 1, pm + 1, pe, 0, left.more)
    ensures left.More? ==> GroupsAlts(left.more) <= GroupsAlts(left)
    ensures Groups(left.alt) <= GroupsAlts(left)
  {
    hide Close, Split, Pieces, WellFormedAlts, WellFormed, Unparse;
    CloseStep(pattern, pm, i);
    PiecesHead(left);
    if pm < pe {
      SplitStep(pattern, pl, pm, pe, i);
    } else {
      SplitEnd(pattern[pm..pe], pattern[pl..pm], i);
    }
  }

  lemma ScanStart(pattern: Pattern, ptr: nat, pe: nat, alts: Alts)
    requires WellFormedAlts(alts) && ptr <= pe < |pattern|
    requires Close(pattern[ptr..], 0) == pe - ptr && pattern[ptr..pe] == UnparseAlts(alts)
    ensures Scanning(pattern, ptr, ptr, pe, 0, alts)
  {
    SplitPieces(alts);
    assert pattern[ptr..ptr] == [];
  }

  /** globexp2: each alternative in turn, with what stands before and after the braces around it. */
  method GlobExp2(start: nat, pattern: Pattern, ghost lead: Pattern, ghost alts: Alts, ghost rest: Items)
    returns (globbed: seq<Pattern>)
    requires WellFormed(Group(alts, rest), false) && LBRACE !in lead
    requires pattern == lead + Unparse(Group(alts, rest)) && start == |lead|
    ensures globbed == ExpandAlts(lead, alts, rest)
    decreases GroupsAlts(alts) + Groups(rest), 4
  {
    GroupLayout(pattern, lead, alts, rest);
    var ptr := start + 1;
    var pe := FindClose(pattern, ptr);
    ScanStart(pattern, ptr, pe, alts);
    globbed := GlobAlternatives(pattern, start, pe, alts, rest);
  }

  method GlobAlternatives(pattern: Pattern, start: nat, pe: nat, ghost alts: Alts, ghost rest: Items)
    returns (globbed: seq<Pattern>)
    requires start < pe < |pattern| && pattern[pe] == RBRACE && LBRACE !in pattern[..start]
    requires Scanning(pattern, start + 1, start + 1, pe, 0, alts)
    requires WellFormed(rest, false) && pattern[pe + 1..] == Unparse(rest)
    ensures globbed == ExpandAlts(pattern[..start], alts, rest)
    decreases GroupsAlts(alts) + Groups(rest), 3
  {
    hide Unparse, UnparseAlts, WellFormed, WellFormedAlts, Groups, GroupsAlts, Close, Expand, ExpandAlts, Scanning,
         Append;
    var ptr := start + 1;
    globbed := [];
    ghost var lead := pattern[..start];
    var i, pl, pm := 0, ptr, ptr;
    ghost var left := alts;
    assert [] + ExpandAlts(lead, alts, rest) == ExpandAlts(lead, alts, rest);
    while pm <= pe
      invariant i >= 0 && 0 <= pl <= pm <= pe + 1
      invariant pm <= pe ==> Scanning(pattern, pl, pm, pe, i, left) && GroupsAlts(left) <= GroupsAlts(alts)
      invariant pm <= pe ==> globbed + ExpandAlts(lead, left, rest) == ExpandAlts(lead, alts, rest)
      invariant pm == pe + 1 ==> globbed == ExpandAlts(lead, alts, rest)
    {
      var c := pattern[pm];
      if !PieceEnds(c, i) {
        ScanOn(pattern, pl, pm, pe, i, left);
        ScanInside(pattern, pl, pm, pe, i, left);
        if c == LBRACE {
          i := i + 1;
        } else if c == RBRACE {
          i := i - 1;
        }
      } else {
        ScanPiece(pattern, pl, pm, pe, i, left);
        var more := GlobPiece(pattern[..start], pattern[pl..pm], pattern[pe + 1..], left.alt, rest);
        NextAlternative(globbed, more, lead, left, rest, ExpandAlts(lead, alts, rest));
        globbed := globbed + more;
        pl := pm + 1;
        if pm < pe {
          left := left.more;
        }
      }
      pm := pm + 1;
    }
  }

  /** One alternative between what stands before and after the braces. */
  method GlobPiece(lead: Pattern, piece: Pattern, after: Pattern, ghost a: Items, ghost rest: Items)
    returns (globbed: seq<Pattern>)
    requires WellFormed(a, true) && WellFormed(rest, false) && LBRACE !in lead
    requires piece == Unparse(a) && after == Unparse(rest)
    ensures globbed == Expand(lead, Append(a, rest))
    decreases Groups(a) + Groups(rest), 2
  {
    AppendFacts(a, rest);
    assert lead + piece + after == lead + (piece + after);
    globbed := GlobExp1(lead + piece + after, lead, Append(a, rest));
  }

  lemma NextAlternative(globbed: seq<Pattern>, more: seq<Pattern>, lead: Pattern, left: Alts, rest: Items,
      all: seq<Pattern>)
    requires globbed + ExpandAlts(lead, left, rest) == all && more == Expand(lead, Append(left.alt, rest))
    ensures left.Last? ==> globbed + more == all
    ensures left.More? ==> globbed + more + ExpandAlts(lead, left.more, rest) == all
  {
    hide Expand;
    if left.More? {
      assert globbed + more + ExpandAlts(lead, left.more, rest) == globbed + (more + ExpandAlts(lead, left.more, rest));
    }
  }

  lemma ScanInside(pattern: Pattern, pl: nat, pm: nat, pe: nat, i: nat, left: Alts)
    requires Scanning(pattern, pl, pm, pe, i, left) && pattern[pe] == RBRACE && !PieceEnds(pattern[pm], i)
    ensures pm < pe
  {
    CloseStep(pattern, pm, i);
  }

  /** Brace expansion of any balanced pattern without brackets: exactly the words of csh, in order and with
      repetitions, but that the marked empty words come out as a sole pair of braces. */
  method ExpandBraces(pattern: Pattern) returns (globbed: seq<Pattern>)
    requires Balanced(pattern, 0) && LBRACKET !in pattern
    ensures var t := Parse(pattern);
            && globbed == Expand([], t) && |Marks(t)| == |Words(t)| && globbed == Emitted(Words(t), Marks(t))
            && (globbed == Words(t) <==> !LeavesBraces(t))
  {
    ghost var t := Parse(pattern);
    ParseBalanced(pattern);
    ExpandIsWords([], t);
    ExpandExactly([], t);
    assert PrefixAll([], Words(t)) == Words(t) by {
      assert forall i | 0 <= i < |Words(t)| :: [] + Words(t)[i] == Words(t)[i];
    }
    globbed := GlobExp1(pattern, [], t);
  }
}
