/** Key sequences bound through chains of meta states (source/keys.c).

  A meta map is a table of 256 bindings, allocated when it is first touched; here a map that has not been
  touched is an empty one. A binding with a negative index leads to another meta map.
 */
module Keys {

  type Key = k: int | 0 <= k < 256

  datatype KeyMap = KeyMap(index: int, changed: bool, stuff: string)

  type MetaMap = map<Key, KeyMap>

  /** A state below this is never picked to hold a link. */
  const FIRST_FREE := 5

  // ---------- following bindings ----------

  /** get_binding, as far as the meta state goes: the next state, or 0 for an action or for nothing. */
  function Next(maps: seq<MetaMap>, meta: int, c: Key): nat {
    if 0 <= meta < |maps| && c in maps[meta] && maps[meta][c].index < 0 then -maps[meta][c].index else 0
  }

  /** The keys lead from one meta state to another by meta bindings alone. */
  ghost predicate Path(maps: seq<MetaMap>, from: nat, s: seq<Key>, to: nat)
    decreases |s|
  {
    if s == [] then from == to
    else Next(maps, from, s[0]) > 0 && Path(maps, Next(maps, from, s[0]), s[1..], to)
  }

  /** The same through states that links may be put in. */
  ghost predicate Chained(maps: seq<MetaMap>, from: nat, s: seq<Key>, to: nat)
    decreases |s|
  {
    if s == [] then from == to
    else from >= FIRST_FREE && Next(maps, from, s[0]) > 0 && Chained(maps, Next(maps, from, s[0]), s[1..], to)
  }

  /** No meta binding leads out of the table. */
  ghost predicate InRange(maps: seq<MetaMap>) {
    forall i, c | 0 <= i < |maps| && c in maps[i] :: -maps[i][c].index < |maps|
  }

  /** Every meta binding is still there and leads to the same state. */
  ghost predicate KeepsMeta(maps: seq<MetaMap>, maps2: seq<MetaMap>) {
    |maps| <= |maps2| && forall i, c | 0 <= i < |maps| && Next(maps, i, c) > 0 :: Next(maps2, i, c) == Next(maps, i, c)
  }

  /** Every binding is still there; bindings were added for `keys` only. */
  ghost predicate Extends(maps: seq<MetaMap>, maps2: seq<MetaMap>, keys: seq<Key>) {
    && |maps| <= |maps2|
    && (forall i, c | 0 <= i < |maps| && c in maps[i] :: c in maps2[i] && maps2[i][c] == maps[i][c])
    && (forall i, c | 0 <= i < |maps2| && c in maps2[i] :: c in keys || (i < |maps| && c in maps[i]))
  }

  // ---------- what the operations do ----------

  /** The highest state, down to the first that may hold links, where the key is unbound; 0 if none is. */
  function Highest(maps: seq<MetaMap>, key: Key, curr: nat): (r: nat)
    requires curr < |maps|
    ensures r == 0 || FIRST_FREE <= r <= curr
    ensures r != 0 ==> key !in maps[r]
    ensures forall i | FIRST_FREE <= i <= curr && r < i :: key in maps[i]
  {
    if curr < FIRST_FREE then 0 else if key !in maps[curr] then curr else Highest(maps, key, curr - 1)
  }

  /** find_meta_map: a new map if the key is bound everywhere. */
  function FindMap(maps: seq<MetaMap>, key: Key): (r: (seq<MetaMap>, nat))
    requires |maps| >= FIRST_FREE
    ensures FIRST_FREE <= r.1 < |r.0| && key !in r.0[r.1]
    ensures r.0 == maps || r.0 == maps + [map[]]
  {
    var r := Highest(maps, key, |maps| - 1);
    if r == 0 then (maps + [map[]], |maps|) else (maps, r)
  }

  /** new_key: 0 stands for no binding. */
  function Bind(maps: seq<MetaMap>, meta: nat, key: Key, index: int, changed: bool, stuff: string): (r: seq<MetaMap>)
    requires meta < |maps|
    ensures |r| == |maps|
  {
    maps[meta := if index == 0 then maps[meta] - {key} else maps[meta][key := KeyMap(index, changed, stuff)]]
  }

  /** Bind a key to a meta state. */
  function Link(maps: seq<MetaMap>, meta: nat, key: Key, to: nat): (r: seq<MetaMap>)
    requires meta < |maps|
    ensures |r| == |maps|
  {
    Bind(maps, meta, key, -(to as int), true, "")
  }

  /** The loop of parse_key: link the keys, last to first, to the state `last`. */
  function Chain(maps: seq<MetaMap>, s: seq<Key>, last: nat): (r: (seq<MetaMap>, nat))
    requires |maps| >= FIRST_FREE
    ensures |r.0| >= |maps|
    decreases |s|
  {
    if s == [] then (maps, last)
    else
      var (maps1, n) := FindMap(maps, s[|s| - 1]);
      Chain(Link(maps1, n, s[|s| - 1], last), s[..|s| - 1], n)
  }

  /** The leading keys that are meta bindings already, all but the last key at most. */
  function Skip(maps: seq<MetaMap>, meta: nat, s: seq<Key>): (r: (nat, seq<Key>))
    ensures |r.1| <= |s| && r.1 == s[|s| - |r.1|..] && (s != [] ==> r.1 != [])
    ensures meta < |maps| && InRange(maps) ==> r.0 < |maps|
    decreases |s|
  {
    if |s| > 1 && Next(maps, meta, s[0]) > 0 then Skip(maps, Next(maps, meta, s[0]), s[1..]) else (meta, s)
  }

  /** parse_key on what is left of the sequence after any leading META description. */
  function Parsed(maps: seq<MetaMap>, meta: nat, s: seq<Key>): (r: (seq<MetaMap>, nat, Key))
    requires |maps| >= FIRST_FREE && InRange(maps) && meta < |maps|
  {
    var (meta1, rest) := Skip(maps, meta, s);
    if |rest| < 2 then (maps, meta1, if rest == [] then 0 else rest[0])
    else
      var n := |rest| - 1;
      var (maps1, last) := FindMap(maps, rest[n]);
      var (maps2, first) := Chain(maps1, rest[1..n], last);
      (Link(maps2, meta1, rest[0], first), last, rest[n])
  }

  // ---------- what that achieves ----------

  lemma {:induction false} PathAppend(maps: seq<MetaMap>, a: nat, s: seq<Key>, b: nat, t: seq<Key>, c: nat)
    requires Path(maps, a, s, b) && Path(maps, b, t, c)
    ensures Path(maps, a, s + t, c)
    decreases |s|
  {
    if s == [] {
      assert s + t == t;
    } else {
      PathAppend(maps, Next(maps, a, s[0]), s[1..], b, t, c);
      assert (s + t)[1..] == s[1..] + t;
    }
  }

  lemma {:induction false} ChainedAppend(maps: seq<MetaMap>, a: nat, s: seq<Key>, b: nat, t: seq<Key>, c: nat)
    requires Chained(maps, a, s, b) && Chained(maps, b, t, c)
    ensures Chained(maps, a, s + t, c)
    decreases |s|
  {
    if s == [] {
      assert s + t == t;
    } else {
      ChainedAppend(maps, Next(maps, a, s[0]), s[1..], b, t, c);
      assert (s + t)[1..] == s[1..] + t;
    }
  }

  /** A path stays one as long as its bindings do. */
  lemma {:induction false} PathKept(maps: seq<MetaMap>, maps2: seq<MetaMap>, a: nat, s: seq<Key>, b: nat)
    requires Path(maps, a, s, b) && KeepsMeta(maps, maps2)
    ensures Path(maps2, a, s, b)
    decreases |s|
  {
    if s != [] {
      PathKept(maps, maps2, Next(maps, a, s[0]), s[1..], b);
    }
  }

  /** A chain does not notice a link made where it has none. */
  lemma {:induction false} ChainedAvoids(maps: seq<MetaMap>, a: nat, s: seq<Key>, b: nat, meta: nat, key: Key, to: nat)
    requires Chained(maps, a, s, b) && meta < |maps|
    requires key !in s || meta < FIRST_FREE || Next(maps, meta, key) == 0
    ensures Path(Link(maps, meta, key, to), a, s, b)
    decreases |s|
  {
    if s != [] {
      ChainedAvoids(maps, Next(maps, a, s[0]), s[1..], b, meta, key, to);
    }
  }

  lemma FindKeeps(maps: seq<MetaMap>, key: Key)
    requires |maps| >= FIRST_FREE && InRange(maps)
    ensures var (maps1, n) := FindMap(maps, key);
            InRange(maps1) && Extends(maps, maps1, [])
  {
    hide Highest;
  }

  lemma BindExtends(maps: seq<MetaMap>, meta: nat, key: Key, last: nat)
    requires InRange(maps) && meta < |maps| && key !in maps[meta] && 0 < last < |maps|
    ensures var maps2 := Link(maps, meta, key, last);
            InRange(maps2) && Extends(maps, maps2, [key]) && Next(maps2, meta, key) == last
  {
  }

  lemma ExtendsTrans(a: seq<MetaMap>, b: seq<MetaMap>, c: seq<MetaMap>, s: seq<Key>, t: seq<Key>)
    requires Extends(a, b, s) && Extends(b, c, t)
    ensures Extends(a, c, t + s)
  {
  }

  lemma ExtendsKeepsMeta(a: seq<MetaMap>, b: seq<MetaMap>, s: seq<Key>)
    requires Extends(a, b, s)
    ensures KeepsMeta(a, b)
  {
  }

  /** The links lead, key by key, to the state asked for, and nothing that was bound is lost. */
  lemma {:induction false} ChainLinks(maps: seq<MetaMap>, s: seq<Key>, last: nat)
    requires |maps| >= FIRST_FREE && InRange(maps) && FIRST_FREE <= last < |maps|
    ensures var (maps2, first) := Chain(maps, s, last);
            && InRange(maps2) && FIRST_FREE <= first < |maps2|
            && Chained(maps2, first, s, last) && Extends(maps, maps2, s)
    decreases |s|
  {
    hide FindMap, Link, InRange, Extends;
    if s == [] {
      ExtendsSelf(maps);
    } else {
      var n, c := |s| - 1, s[|s| - 1];
      var (maps1, state) := FindMap(maps, c);
      FindKeeps(maps, c);
      var maps2 := Link(maps1, state, c, last);
      BindExtends(maps1, state, c, last);
      ExtendsTrans(maps, maps1, maps2, [], [c]);
      assert [c] + [] == [c];
      ChainLinks(maps2, s[..n], state);
      var (maps3, first) := Chain(maps2, s[..n], state);
      ExtendsTrans(maps, maps2, maps3, [c], s[..n]);
      ExtendsKeepsMeta(maps2, maps3, s[..n]);
      assert Next(maps3, state, c) == last;
      assert [c][1..] == [];
      assert Chained(maps3, state, [c], last);
      ChainedAppend(maps3, first, s[..n], state, [c], last);
      assert s == s[..n] + [c];
    }
  }

  lemma ExtendsSelf(maps: seq<MetaMap>)
    ensures Extends(maps, maps, [])
  {
  }

  lemma {:induction false} SkipFollows(maps: seq<MetaMap>, meta: nat, s: seq<Key>)
    ensures var (meta1, rest) := Skip(maps, meta, s);
            && Path(maps, meta, s[..|s| - |rest|], meta1)
            && (|rest| > 1 ==> Next(maps, meta1, rest[0]) == 0)
    decreases |s|
  {
    hide Next;
    if |s| > 1 && Next(maps, meta, s[0]) > 0 {
      SkipFollows(maps, Next(maps, meta, s[0]), s[1..]);
      var n := |s| - |Skip(maps, meta, s).1|;
      TakeTail(s, n);
      PathOn(maps, meta, s[..n], Skip(maps, meta, s).0);
    } else {
      assert s[..0] == [];
    }
  }

  lemma PathOn(maps: seq<MetaMap>, a: nat, s: seq<Key>, b: nat)
    requires s != [] && Next(maps, a, s[0]) > 0 && Path(maps, Next(maps, a, s[0]), s[1..], b)
    ensures Path(maps, a, s, b)
  {
  }

  lemma TakeTail(s: seq<Key>, n: nat)
    requires 0 < n <= |s|
    ensures s[..n] != [] && s[..n][0] == s[0] && s[..n][1..] == s[1..][..n - 1]
  {
  }

  /** Nothing but the action the first new key may have had is lost. */
  ghost predicate Preserves(maps: seq<MetaMap>, maps2: seq<MetaMap>, meta: nat, key: Key) {
    && |maps| <= |maps2|
    && forall i, c | 0 <= i < |maps| && c in maps[i] && (i != meta || c != key) ::
         c in maps2[i] && maps2[i][c] == maps[i][c]
  }

  lemma BindPreserves(maps: seq<MetaMap>, maps2: seq<MetaMap>, s: seq<Key>, meta: nat, key: Key, first: nat)
    requires Extends(maps, maps2, s) && meta < |maps| && InRange(maps2) && 0 < first < |maps2|
    requires Next(maps, meta, key) == 0
    ensures var maps3 := Link(maps2, meta, key, first);
            && InRange(maps3) && Preserves(maps, maps3, meta, key) && KeepsMeta(maps, maps3)
            && Next(maps3, meta, key) == first
  {
  }

  /** No link for one of the keys in `s` can be put where `key` is to be bound in state `meta`: the key is
      not among them, or the state is never picked for links, or the key is bound there already. */
  predicate Undisturbed(maps: seq<MetaMap>, meta: nat, key: Key, s: seq<Key>) {
    key !in s || meta < FIRST_FREE || (meta < |maps| && key in maps[meta])
  }

  /** After parse_key the whole sequence but its last key leads to the returned state, if none of the new
      links is in the way of the one made last. Every meta binding leads where it led before, and no
      other binding is lost than, if it had an action, that of the first key that had to be linked. */
  lemma ParsedReaches(maps: seq<MetaMap>, meta: nat, s: seq<Key>)
    requires |maps| >= FIRST_FREE && InRange(maps) && meta < |maps| && s != []
    ensures var (maps2, last, term) := Parsed(maps, meta, s);
            var (meta1, rest) := Skip(maps, meta, s);
            && InRange(maps2) && KeepsMeta(maps, maps2) && Preserves(maps, maps2, meta1, rest[0])
            && last < |maps2| && term == s[|s| - 1]
            && (|rest| < 2 || Undisturbed(maps, meta1, rest[0], rest[1..|rest| - 1])
                ==> Path(maps2, meta, s[..|s| - 1], last))
  {
    hide FindMap, Link, InRange, Extends, Preserves, KeepsMeta, Next, Skip, Chained;
    var (meta1, rest) := Skip(maps, meta, s);
    SkipFollows(maps, meta, s);
    KeepsSelf(maps, meta1, rest[0]);
    if |rest| >= 2 {
      var n := |rest| - 1;
      var (maps1, last) := FindMap(maps, rest[n]);
      FindKeeps(maps, rest[n]);
      ChainLinks(maps1, rest[1..n], last);
      var (maps2, first) := Chain(maps1, rest[1..n], last);
      ExtendsTrans(maps, maps1, maps2, [], rest[1..n]);
      BindPreserves(maps, maps2, rest[1..n] + [], meta1, rest[0], first);
      var maps3 := Link(maps2, meta1, rest[0], first);
      if Undisturbed(maps, meta1, rest[0], rest[1..n]) {
        StillNoLink(maps, maps2, rest[1..n] + [], meta1, rest[0]);
        ChainedAvoids(maps2, first, rest[1..n], last, meta1, rest[0], first);
        PathOne(maps3, meta1, rest[0], first);
        PathAppend(maps3, meta1, [rest[0]], first, rest[1..n], last);
        var lead := s[..|s| - |rest|];
        PathKept(maps, maps3, meta, lead, meta1);
        PathAppend(maps3, meta, lead, meta1, [rest[0]] + rest[1..n], last);
        AllButLast(s, |rest|);
      }
    }
  }

  lemma AllButLast(s: seq<Key>, k: nat)
    requires 2 <= k <= |s|
    ensures var rest := s[|s| - k..]; s[..|s| - 1] == s[..|s| - k] + ([rest[0]] + rest[1..k - 1])
  {
  }

  lemma StillNoLink(maps: seq<MetaMap>, maps2: seq<MetaMap>, s: seq<Key>, meta: nat, key: Key)
    requires Extends(maps, maps2, s) && meta < |maps| && Next(maps, meta, key) == 0
    ensures key in maps[meta] ==> Next(maps2, meta, key) == 0
  {
  }

  /** What was not there before is a link: the changed binding of a meta state, without text. */
  ghost predicate OnlyLinks(maps: seq<MetaMap>, maps2: seq<MetaMap>) {
    forall i, c | 0 <= i < |maps2| && c in maps2[i] ::
      (i < |maps| && c in maps[i] && maps[i][c] == maps2[i][c])
      || (maps2[i][c].index < 0 && maps2[i][c].changed && maps2[i][c].stuff == "")
  }

  lemma LinkOnly(maps: seq<MetaMap>, maps1: seq<MetaMap>, meta: nat, key: Key, to: nat)
    requires OnlyLinks(maps, maps1) && meta < |maps1| && to > 0
    ensures OnlyLinks(maps, Link(maps1, meta, key, to))
  {
  }

  lemma {:induction false} ChainOnly(maps: seq<MetaMap>, maps1: seq<MetaMap>, s: seq<Key>, last: nat)
    requires OnlyLinks(maps, maps1) && |maps1| >= FIRST_FREE && last > 0
    ensures OnlyLinks(maps, Chain(maps1, s, last).0) && Chain(maps1, s, last).1 > 0
    decreases |s|
  {
    hide Link, Highest;
    if s != [] {
      var (maps2, n) := FindMap(maps1, s[|s| - 1]);
      assert OnlyLinks(maps, maps2);
      LinkOnly(maps, maps2, n, s[|s| - 1], last);
      ChainOnly(maps, Link(maps2, n, s[|s| - 1], last), s[..|s| - 1], n);
    }
  }

  /** parse_key adds nothing but links. */
  lemma ParsedOnlyLinks(maps: seq<MetaMap>, meta: nat, s: seq<Key>)
    requires |maps| >= FIRST_FREE && InRange(maps) && meta < |maps|
    ensures OnlyLinks(maps, Parsed(maps, meta, s).0)
  {
    hide Link, Highest, Skip, InRange, Chain;
    var (meta1, rest) := Skip(maps, meta, s);
    if |rest| >= 2 {
      var n := |rest| - 1;
      var (maps1, last) := FindMap(maps, rest[n]);
      assert OnlyLinks(maps, maps1);
      ChainOnly(maps, maps1, rest[1..n], last);
      var (maps2, first) := Chain(maps1, rest[1..n], last);
      LinkOnly(maps, maps2, meta1, rest[0], first);
    }
  }

  /** The last key is free in the returned state, unless it also comes earlier among the keys linked. */
  lemma ParsedFree(maps: seq<MetaMap>, meta: nat, s: seq<Key>)
    requires |maps| >= FIRST_FREE && InRange(maps) && meta < |maps|
    requires var rest := Skip(maps, meta, s).1; |rest| >= 2 && rest[|rest| - 1] !in rest[..|rest| - 1]
    ensures var (maps2, last, term) := Parsed(maps, meta, s); last < |maps2| && term !in maps2[last]
  {
    hide FindMap, InRange, Chained, Skip;
    var (meta1, rest) := Skip(maps, meta, s);
    var n := |rest| - 1;
    var (maps1, last) := FindMap(maps, rest[n]);
    FindKeeps(maps, rest[n]);
    ChainLinks(maps1, rest[1..n], last);
    assert forall c | c in rest[1..n] :: c in rest[..n];
    assert rest[0] in rest[..n];
  }

  lemma {:induction false} SkipAll(maps: seq<MetaMap>, meta: nat, s: seq<Key>, to: nat)
    requires s != [] && Path(maps, meta, s[..|s| - 1], to)
    ensures Skip(maps, meta, s) == (to, s[|s| - 1..])
    decreases |s|
  {
    if |s| > 1 {
      assert s[..|s| - 1][1..] == s[1..][..|s| - 2];
      SkipAll(maps, Next(maps, meta, s[0]), s[1..], to);
    }
  }

  /** Parsing the sequence again changes nothing and comes to the same state: what /BIND binds after the
      first parse is what the keys run. */
  lemma ParsedAgain(maps: seq<MetaMap>, meta: nat, s: seq<Key>)
    requires |maps| >= FIRST_FREE && InRange(maps) && meta < |maps| && s != []
    requires var (meta1, rest) := Skip(maps, meta, s);
             |rest| < 2 || Undisturbed(maps, meta1, rest[0], rest[1..|rest| - 1])
    ensures var r := Parsed(maps, meta, s);
            InRange(r.0) && |r.0| >= |maps| && Parsed(r.0, meta, s) == r
  {
    ParsedReaches(maps, meta, s);
    var r := Parsed(maps, meta, s);
    SkipAll(r.0, meta, s, r.1);
  }

  /** A new chain does not break an old one: sequences bound before still lead where they did. */
  lemma EarlierSequencesKept(maps: seq<MetaMap>, meta: nat, s: seq<Key>, from: nat, t: seq<Key>, to: nat)
    requires |maps| >= FIRST_FREE && InRange(maps) && meta < |maps| && s != [] && Path(maps, from, t, to)
    ensures Path(Parsed(maps, meta, s).0, from, t, to)
  {
    ParsedReaches(maps, meta, s);
    PathKept(maps, Parsed(maps, meta, s).0, from, t, to);
  }

  // ---------- when the first key comes again ----------

  /** How many keys of `s` lead from state `a` to where `key` would be followed in state `meta`; all, if none does. */
  function Passes(maps: seq<MetaMap>, a: nat, s: seq<Key>, meta: nat, key: Key): (i: nat)
    ensures i <= |s| && (i < |s| ==> s[i] == key)
    decreases |s|
  {
    if s == [] || (a == meta && s[0] == key) then 0 else 1 + Passes(maps, Next(maps, a, s[0]), s[1..], meta, key)
  }

  /** Up to there a link put at `key` in state `meta` makes no difference. */
  lemma {:induction false} PassesBy(maps: seq<MetaMap>, a: nat, s: seq<Key>, b: nat, meta: nat, key: Key, to: nat)
    requires Path(maps, a, s, b) && meta < |maps|
    ensures var i := Passes(maps, a, s, meta, key);
            Path(Link(maps, meta, key, to), a, s[..i], if i == |s| then b else meta)
    decreases |s|
  {
    var i := Passes(maps, a, s, meta, key);
    if i == 0 {
      assert s[..0] == [];
    } else {
      PassesBy(maps, Next(maps, a, s[0]), s[1..], b, meta, key, to);
      TakeTail(s, i);
    }
  }

  /** What is left of a path once its beginning has been followed. */
  lemma {:induction false} PathSplit(maps: seq<MetaMap>, a: nat, s: seq<Key>, b: nat, t: seq<Key>, c: nat)
    requires Path(maps, a, s, b)
    ensures Path(maps, a, s + t, c) <==> Path(maps, b, t, c)
    decreases |s|
  {
    if s == [] {
      assert s + t == t;
    } else {
      PathSplit(maps, Next(maps, a, s[0]), s[1..], b, t, c);
      assert (s + t)[1..] == s[1..] + t;
    }
  }

  lemma {:induction false} ChainedPath(maps: seq<MetaMap>, a: nat, s: seq<Key>, b: nat)
    requires Chained(maps, a, s, b)
    ensures Path(maps, a, s, b)
    decreases |s|
  {
    if s != [] {
      ChainedPath(maps, Next(maps, a, s[0]), s[1..], b);
    }
  }

  /** In any case: the sequence leads to the returned state if the chain does not come by the place where the
      last link is made, and if it does, just when the keys after that lead there from the chain's beginning,
      which is where the last link goes instead. */
  lemma ParsedReachesExactly(maps: seq<MetaMap>, meta: nat, s: seq<Key>)
    requires |maps| >= FIRST_FREE && InRange(maps) && meta < |maps| && |Skip(maps, meta, s).1| >= 2
    ensures var (maps3, last, term) := Parsed(maps, meta, s);
            var (meta1, rest) := Skip(maps, meta, s);
            var (maps2, first) := Chain(FindMap(maps, term).0, rest[1..|rest| - 1], last);
            var i := 1 + Passes(maps2, first, rest[1..|rest| - 1], meta1, rest[0]);
            Path(maps3, meta, s[..|s| - 1], last)
            <==> i == |rest| - 1 || Path(maps3, first, rest[i + 1..|rest| - 1], last)
  {
    hide FindMap, Link, InRange, Extends, Preserves, KeepsMeta, Next, Skip, Chained, Path, Passes;
    var (meta1, rest) := Skip(maps, meta, s);
    var n := |rest| - 1;
    var (maps1, last) := FindMap(maps, rest[n]);
    var (maps2, first) := Chain(maps1, rest[1..n], last);
    var maps3 := Link(maps2, meta1, rest[0], first);
    LastLink(maps, meta, s);
    var mid, lead := rest[1..n], s[..|s| - |rest|];
    var i := Passes(maps2, first, mid, meta1, rest[0]);
    PassesBy(maps2, first, mid, last, meta1, rest[0], first);
    PathOne(maps3, meta1, rest[0], first);
    PathAppend(maps3, meta, lead, meta1, [rest[0]], first);
    PathSplit(maps3, meta, lead + [rest[0]], first, mid, last);
    assert s[..|s| - 1] == lead + [rest[0]] + mid;
    if i < |mid| {
      PathSplit(maps3, first, mid[..i], meta1, mid[i..], last);
      PathSplit(maps3, meta1, [rest[0]], first, mid[i + 1..], last);
      assert mid == mid[..i] + mid[i..] && mid[i..] == [rest[0]] + mid[i + 1..];
      assert mid[i + 1..] == rest[i + 2..n];
    } else {
      assert mid[..i] == mid;
    }
  }

  /** The chain as it stands before the last link, and what that makes of it. */
  lemma LastLink(maps: seq<MetaMap>, meta: nat, s: seq<Key>)
    requires |maps| >= FIRST_FREE && InRange(maps) && meta < |maps| && |Skip(maps, meta, s).1| >= 2
    ensures var (meta1, rest) := Skip(maps, meta, s);
            var n := |rest| - 1;
            var (maps1, last) := FindMap(maps, rest[n]);
            var (maps2, first) := Chain(maps1, rest[1..n], last);
            var maps3 := Link(maps2, meta1, rest[0], first);
            && Path(maps2, first, rest[1..n], last) && first > 0 && Next(maps3, meta1, rest[0]) == first
            && Path(maps3, meta, s[..|s| - |rest|], meta1)
  {
    hide FindMap, Link, InRange, Extends, Preserves, KeepsMeta, Next, Skip, Chained, Path;
    var (meta1, rest) := Skip(maps, meta, s);
    SkipFollows(maps, meta, s);
    var n := |rest| - 1;
    var (maps1, last) := FindMap(maps, rest[n]);
    FindKeeps(maps, rest[n]);
    ChainLinks(maps1, rest[1..n], last);
    var (maps2, first) := Chain(maps1, rest[1..n], last);
    ExtendsTrans(maps, maps1, maps2, [], rest[1..n]);
    BindPreserves(maps, maps2, rest[1..n] + [], meta1, rest[0], first);
    ChainedPath(maps2, first, rest[1..n], last);
    PathKept(maps, Link(maps2, meta1, rest[0], first), meta, s[..|s| - |rest|], meta1);
  }

  /** It may come by and arrive all the same: "aac" from state 5 of a table where nothing is bound. */
  lemma RepeatedKeyMayArrive()
    ensures var a, c := 97, 99;
            var maps: seq<MetaMap> := [map[], map[], map[], map[], map[], map[]];
            && !Undisturbed(maps, 5, a, [a])
            && Parsed(maps, 5, [a, a, c]) == (Link(maps, 5, a, 5), 5, c) && Path(Link(maps, 5, a, 5), 5, [a, a], 5)
  {
    var a: Key, c: Key := 97, 99;
    var maps: seq<MetaMap> := [map[], map[], map[], map[], map[], map[]];
    var maps1 := Link(maps, 5, a, 5);
    assert Highest(maps, c, 5) == 5 == Highest(maps, a, 5) && Next(maps, 5, a) == 0 && Next(maps1, 5, a) == 5;
    LinkTwice(maps, 5, a, 5);
    RepeatedKeyRound(maps, maps1, a, c);
  }

  lemma LinkTwice(maps: seq<MetaMap>, meta: nat, key: Key, to: nat)
    requires meta < |maps|
    ensures Link(Link(maps, meta, key, to), meta, key, to) == Link(maps, meta, key, to)
  {
    var to2 := -(to as int);
    if to2 != 0 {
      assert maps[meta][key := KeyMap(to2, true, "")][key := KeyMap(to2, true, "")]
             == maps[meta][key := KeyMap(to2, true, "")];
    } else {
      assert maps[meta] - {key} - {key} == maps[meta] - {key};
    }
  }

  lemma RepeatedKeyRound(maps: seq<MetaMap>, maps1: seq<MetaMap>, a: Key, c: Key)
    requires |maps| == 6 && InRange(maps) && Next(maps, 5, a) == 0 && Highest(maps, c, 5) == 5 == Highest(maps, a, 5)
    requires maps1 == Link(maps, 5, a, 5) == Link(maps1, 5, a, 5) && Next(maps1, 5, a) == 5
    ensures Parsed(maps, 5, [a, a, c]) == (maps1, 5, c) && Path(maps1, 5, [a, a], 5)
  {
    hide Highest, Link, Next;
    var s := [a, a, c];
    assert Skip(maps, 5, s) == (5, s) && s[1..2] == [a];
    assert [a][..0] == [] && Chain(maps1, [], 5) == (maps1, 5);
    assert Chain(maps, [a], 5) == (maps1, 5);
    assert [a, a][1..] == [a];
    PathOne(maps1, 5, a, 5);
  }

  /** When the first key does come again, its last link may take the place of another: with keys 'a' and 'c'
      taken in state 6, the sequence "abac" from state 5 does not lead to the state that is returned. */
  lemma RepeatedKeyMayMiss()
    ensures var a, b, c := 97, 98, 99;
            var taken := map[a := KeyMap(2, true, ""), c := KeyMap(2, true, "")];
            var maps := [map[], map[], map[], map[], map[], map[], taken];
            var s := [a, b, a, c];
            InRange(maps) && !Path(Parsed(maps, 5, s).0, 5, s[..3], Parsed(maps, 5, s).1)
  {
    var a: Key, b: Key, c: Key := 97, 98, 99;
    var taken: MetaMap := map[a := KeyMap(2, true, ""), c := KeyMap(2, true, "")];
    var maps: seq<MetaMap> := [map[], map[], map[], map[], map[], map[], taken];
    var s := [a, b, a, c];
    var maps1 := Link(maps, 5, a, 5);
    var maps2 := Link(maps1, 6, b, 5);
    var maps3 := Link(maps2, 5, a, 6);
    assert Highest(maps, c, 6) == 5 && Highest(maps, a, 6) == 5 && Highest(maps1, b, 6) == 6;
    assert Next(maps, 5, a) == 0 && Next(maps3, 5, a) == 6 && Next(maps3, 6, b) == 5;
    RepeatedKeyChain(maps, maps1, maps2, a, b);
    RepeatedKeyPath(maps3, a, b);
    RepeatedKeyParsed(maps, maps2, a, b, c);
  }

  lemma RepeatedKeyParsed(maps: seq<MetaMap>, maps2: seq<MetaMap>, a: Key, b: Key, c: Key)
    requires |maps| == 7 == |maps2| && InRange(maps) && Next(maps, 5, a) == 0 && Highest(maps, c, 6) == 5
    requires Chain(maps, [b, a], 5) == (maps2, 6)
    ensures Parsed(maps, 5, [a, b, a, c]) == (Link(maps2, 5, a, 6), 5, c)
    ensures [a, b, a, c][..3] == [a, b, a]
  {
    hide Highest, Link, Next, Chain;
    var s := [a, b, a, c];
    assert Skip(maps, 5, s) == (5, s);
    assert s[1..3] == [b, a] && s[..3] == [a, b, a];
  }

  lemma RepeatedKeyChain(maps: seq<MetaMap>, maps1: seq<MetaMap>, maps2: seq<MetaMap>, a: Key, b: Key)
    requires |maps| == 7 && maps1 == Link(maps, 5, a, 5) && maps2 == Link(maps1, 6, b, 5)
    requires Highest(maps, a, 6) == 5 && Highest(maps1, b, 6) == 6
    ensures Chain(maps, [b, a], 5) == (maps2, 6)
  {
    hide Highest, Link;
    assert [b, a][..1] == [b] && [b][..0] == [];
    assert Chain(maps2, [], 6) == (maps2, 6);
    assert Chain(maps1, [b], 5) == (maps2, 6);
  }

  lemma RepeatedKeyPath(maps: seq<MetaMap>, a: Key, b: Key)
    requires Next(maps, 5, a) == 6 && Next(maps, 6, b) == 5
    ensures !Path(maps, 5, [a, b, a], 5)
  {
    hide Next;
    assert [a, b, a][1..] == [b, a] && [b, a][1..] == [a] && [a][1..] == [];
    assert !Path(maps, 5, [a], 5);
    assert !Path(maps, 6, [b, a], 5);
  }

  lemma KeepsSelf(maps: seq<MetaMap>, meta: nat, key: Key)
    ensures Preserves(maps, maps, meta, key) && KeepsMeta(maps, maps)
  {
  }

  lemma PathOne(maps: seq<MetaMap>, a: nat, c: Key, b: nat)
    requires Next(maps, a, c) == b && b > 0
    ensures Path(maps, a, [c], b)
  {
    assert [c][1..] == [];
  }
}
