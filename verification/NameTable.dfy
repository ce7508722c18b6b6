/** The sorted name tables of source/alist.c: a two-phase binary search, insertion and removal. */
module NameTable {
  import opened Lists
  import opened Names

  /** An entry. Its name, and so its hash, never change once it is filed. */
  class Alias {
    const name: Name
    const hash: int
    var stuff: string

    constructor (name: Name, stuff: string)
      ensures this.name == name && this.stuff == stuff && hash == Hash(name).0
    {
      this.name, this.hash, this.stuff := name, Hash(name).0, stuff;
    }
  }

  ghost predicate Sorted(list: seq<Alias>) {
    && (forall i | 0 <= i < |list| :: list[i].hash == Hash(list[i].name).0)
    && (forall i, j | 0 <= i < j < |list| :: Less(list[i].name, list[j].name))
  }

  /** Entries before `lo` come before `name`, those from `lo` to `hi` start with it, the rest come after
      it and do not. */
  ghost predicate Regions(list: seq<Alias>, name: Name, lo: int, hi: int) {
    && 0 <= lo <= hi <= |list|
    && (forall i | 0 <= i < lo :: Less(list[i].name, name))
    && (forall i | lo <= i < hi :: name <= list[i].name)
    && (forall i | hi <= i < |list| :: !Less(list[i].name, name) && !(name <= list[i].name))
  }

  function Abs(x: int): nat {
    if x < 0 then -x else x
  }

  /** strncmp of the name with entry `i`, as the search orders it. */
  function Side(list: seq<Alias>, name: Name, i: nat): int
    requires i < |list|
  {
    Compare(name, list[i].name, |name|)
  }

  /** Sides never go up from left to right, and the hash probe never contradicts them. */
  lemma SidesMonotone(list: seq<Alias>, name: Name)
    requires Sorted(list)
    ensures forall i, j | 0 <= i < j < |list| :: Side(list, name, j) > 0 ==> Side(list, name, i) > 0
    ensures forall i, j | 0 <= i < j < |list| :: Side(list, name, i) < 0 ==> Side(list, name, j) < 0
    ensures forall i | 0 <= i < |list| :: Side(list, name, i) == 0 <==> name <= list[i].name
    ensures forall i | 0 <= i < |list| :: Side(list, name, i) > 0 <==> Less(list[i].name, name)
  {
    forall i | 0 <= i < |list|
      ensures (Side(list, name, i) == 0 <==> name <= list[i].name)
              && (Side(list, name, i) > 0 <==> Less(list[i].name, name))
    {
      CompareMeans(name, list[i].name);
    }
    forall i, j | 0 <= i < j < |list|
      ensures Side(list, name, j) > 0 ==> Side(list, name, i) > 0
      ensures Side(list, name, i) < 0 ==> Side(list, name, j) < 0
    {
      var a, b := list[i].name, list[j].name;
      if Side(list, name, j) > 0 {
        LessTransitive(a, b, name);
      }
      if Side(list, name, i) < 0 {
        if Less(b, name) {
          LessTransitive(a, b, name);
        }
        if name <= b {
          PrefixBetween(name, a, b);
        }
      }
    }
  }

  function ProbeAt(list: seq<Alias>, name: Name, i: nat): int
    requires i < |list|
  {
    Probe(Hash(name).0, Hash(name).1, list[i].hash)
  }

  lemma ProbesRight(list: seq<Alias>, name: Name)
    requires Sorted(list)
    ensures forall i | 0 <= i < |list| :: ProbeAt(list, name, i) > 0 ==> Side(list, name, i) > 0
    ensures forall i | 0 <= i < |list| :: ProbeAt(list, name, i) < 0 ==> Side(list, name, i) < 0
  {
    forall i | 0 <= i < |list|
      ensures ProbeAt(list, name, i) > 0 ==> Side(list, name, i) > 0
      ensures ProbeAt(list, name, i) < 0 ==> Side(list, name, i) < 0
    {
      ProbeRight(name, list[i].name);
    }
  }

  /** An empty region: nothing starts with the name. */
  lemma NoExtensions(list: seq<Alias>, name: Name, lo: int)
    requires Sorted(list) && Regions(list, name, lo, lo)
    ensures forall n | n in AsMap(list) :: !(name <= n)
  {
    hide AsMap;
    forall n | n in AsMap(list)
      ensures !(name <= n)
    {
      var i :| 0 <= i < |list| && list[i] == AsMap(list)[n];
      if name <= n {
        LessOfPrefix(name, n);
      }
    }
  }

  /** An empty region: the name is not there. */
  lemma NoMatches(list: seq<Alias>, name: Name)
    ensures forall lo | 0 <= lo <= |list| && Regions(list, name, lo, lo) ::
              !exists i :: 0 <= i < |list| && list[i].name == name
  {
    LessIrreflexive(name);
  }

  /** The name itself, if present, is the first entry that starts with it. */
  lemma ExactIsFirst(list: seq<Alias>, name: Name, lo: int, hi: int)
    requires Sorted(list) && Regions(list, name, lo, hi)
    ensures (exists i :: 0 <= i < |list| && list[i].name == name) <==> lo < hi && |list[lo].name| == |name|
    ensures forall i | 0 <= i < |list| && list[i].name == name :: i == lo
  {
    forall i | 0 <= i < |list| && list[i].name == name
      ensures i == lo
    {
      LessIrreflexive(name);
      if lo < i {
        LessOfPrefix(name, list[lo].name);
      }
    }
  }

  lemma {:induction false} LessOfPrefix(a: string, b: string)
    requires a <= b
    ensures !Less(b, a)
  {
    if a != "" {
      LessOfPrefix(a[1..], b[1..]);
    }
  }

  class Table {
    var list: seq<Alias>

    ghost predicate Valid()
      reads this
    {
      Sorted(list)
    }

    constructor ()
      ensures Valid() && list == []
    {
      list := [];
    }

    /** find_array_item: `loc` is the first entry with the name as prefix, or where it would go; `cnt`
        counts those entries and is negative exactly if the name itself is one. */
    method Find(name: Name) returns (item: Alias?, cnt: int, loc: nat)
      requires Valid()
      ensures Regions(list, name, loc, loc + Abs(cnt))
      ensures item == if cnt == 0 then null else list[loc]
      ensures cnt < 0 <==> exists i :: 0 <= i < |list| && list[i].name == name
    {
      hide Less, Compare, Hash;
      item, cnt, loc := null, 0, 0;
      if |list| == 0 {
        return;
      }
      NoMatches(list, name);
      var found, pos := ProbeSearch(name);
      if !found {
        loc := pos;
        return;
      }
      var min, max := ProbeRange(name, pos);
      found, pos := CompareSearch(name, min, max);
      if !found {
        loc := pos;
        return;
      }
      min, max := Neighbours(name, pos);
      loc, cnt, item := min, max - min, list[min];
      ExactIsFirst(list, name, min, max);
      if |list[min].name| == |name| {
        cnt := -cnt;
      }
    }

    /** Count outwards from a match: all entries that start with the name. */
    method Neighbours(name: Name, pos: nat) returns (min: nat, max: nat)
      requires Valid() && pos < |list| && Side(list, name, pos) == 0
      ensures Regions(list, name, min, max) && min <= pos < max
    {
      hide Less, Compare;
      SidesMonotone(list, name);
      min, max := pos, pos + 1;
      while min > 0 && Compare(name, list[min - 1].name, |name|) == 0
        invariant 0 <= min <= pos
        invariant forall i | min <= i <= pos :: Side(list, name, i) == 0
      {
        min := min - 1;
      }
      while max < |list| && Compare(name, list[max].name, |name|) == 0
        invariant pos < max <= |list|
        invariant forall i | pos <= i < max :: Side(list, name, i) == 0
      {
        max := max + 1;
      }
      assert min > 0 ==> Side(list, name, min - 1) != 0;
      assert max < |list| ==> Side(list, name, max) != 0;
    }

    /** The first phase: binary search by masked hash, for any entry whose hash agrees. */
    method ProbeSearch(name: Name) returns (found: bool, pos: nat)
      requires Valid() && |list| > 0
      ensures found ==> pos < |list| && ProbeAt(list, name, pos) == 0
      ensures !found ==> Regions(list, name, pos, pos)
    {
      var (hash, mask) := Hash(name);
      SidesMonotone(list, name);
      ProbesRight(list, name);
      var min, max, c := 0, |list| - 1, 0;
      pos := 0;
      while max >= min
        invariant 0 <= min <= max + 1 <= |list|
        invariant min > max ==> min == if c > 0 then pos + 1 else pos
        invariant forall i | 0 <= i < min :: Side(list, name, i) > 0
        invariant forall i | max < i < |list| :: Side(list, name, i) < 0
      {
        pos := (max - min) / 2 + min;
        c := Probe(hash, mask, list[pos].hash);
        assert c == ProbeAt(list, name, pos);
        if c == 0 {
          return true, pos;
        } else if c < 0 {
          max := pos - 1;
        } else {
          min := pos + 1;
        }
      }
      return false, if c > 0 then pos + 1 else pos;
    }

    /** Around an agreeing entry: every entry outside is on its proper side. */
    method ProbeRange(name: Name, pos: nat) returns (min: nat, max: nat)
      requires Valid() && pos < |list| && ProbeAt(list, name, pos) == 0
      ensures min <= pos <= max < |list|
      ensures forall i | 0 <= i < min :: Side(list, name, i) > 0
      ensures forall i | max < i < |list| :: Side(list, name, i) < 0
    {
      var (hash, mask) := Hash(name);
      SidesMonotone(list, name);
      ProbesRight(list, name);
      ProbesMonotone(list, name);
      min, max := pos, pos;
      while min > 0 && And(hash, mask) == And(list[min].hash, mask)
        invariant min <= pos && (min < pos ==> ProbeAt(list, name, min + 1) == 0)
      {
        assert ProbeAt(list, name, min) == 0;
        min := min - 1;
      }
      assert min > 0 ==> ProbeAt(list, name, min) != 0;
      while max < |list| - 1 && And(hash, mask) == And(list[max].hash, mask)
        invariant pos <= max < |list| && (max > pos ==> ProbeAt(list, name, max - 1) == 0)
      {
        assert ProbeAt(list, name, max) == 0;
        max := max + 1;
      }
      assert max < |list| - 1 ==> ProbeAt(list, name, max) != 0;
    }

    /** The second phase: binary search by strncmp within a range. */
    method CompareSearch(name: Name, lo: nat, hi: nat) returns (found: bool, pos: nat)
      requires Valid() && lo <= hi < |list|
      requires forall i | 0 <= i < lo :: Side(list, name, i) > 0
      requires forall i | hi < i < |list| :: Side(list, name, i) < 0
      ensures found ==> pos < |list| && Side(list, name, pos) == 0
      ensures !found ==> Regions(list, name, pos, pos)
    {
      SidesMonotone(list, name);
      var min, max, c := lo, hi, 0;
      pos := 0;
      while max >= min
        invariant 0 <= min <= max + 1 <= |list|
        invariant min > max ==> min == if c > 0 then pos + 1 else pos
        invariant forall i | 0 <= i < min :: Side(list, name, i) > 0
        invariant forall i | max < i < |list| :: Side(list, name, i) < 0
      {
        pos := (max - min) / 2 + min;
        c := Compare(name, list[pos].name, |name|);
        if c == 0 {
          return true, pos;
        } else if c < 0 {
          max := pos - 1;
        } else {
          min := pos + 1;
        }
      }
      return false, if c > 0 then pos + 1 else pos;
    }

    /** add_to_array: an entry with the same name is replaced and returned. */
    method Add(item: Alias) returns (replaced: Alias?, ghost location: nat)
      requires Valid() && item.hash == Hash(item.name).0
      modifies this
      ensures location <= |old(list)| && exists end :: Regions(old(list), item.name, location, end)
      ensures if item.name in old(AsMap(list)) then location < |old(list)| && list == old(list)[location := item]
              else list == InsertAt(old(list), location, item)
      ensures Valid() && AsMap(list) == old(AsMap(list))[item.name := item]
      ensures replaced == if item.name in old(AsMap(list)) then old(AsMap(list))[item.name] else null
    {
      hide AsMap, Hash, Less, Compare, Sorted;
      replaced := null;
      var loc := 0;
      ghost var end := 0;
      if |list| != 0 {
        var found, count, at := Find(item.name);
        loc, end := at, at + Abs(count);
        if count < 0 {
          replaced := list[loc];
          assert Regions(old(list), item.name, loc, end);
          ReplaceSorted(list, loc, end, item);
          list := list[loc := item];
          return replaced, loc;
        }
      }
      assert Regions(old(list), item.name, loc, end);
      InsertSorted(list, loc, end, item);
      list := InsertAt(list, loc, item);
      location := loc;
    }

    /** array_pop. */
    method Pop(which: int) returns (item: Alias?)
      requires Valid()
      modifies this
      ensures Valid()
      ensures if 0 <= which < |old(list)|
              then item == old(list)[which] && list == RemoveAt(old(list), which)
                   && AsMap(list) == old(AsMap(list)) - {item.name}
              else item == null && list == old(list)
    {
      hide AsMap, Sorted;
      if which < 0 || which >= |list| {
        return null;
      }
      item := list[which];
      RemoveSorted(list, which);
      list := RemoveAt(list, which);
    }

    /** remove_from_array: exact matches only. */
    method Remove(name: Name) returns (item: Alias?)
      requires Valid()
      modifies this
      ensures Valid() && AsMap(list) == old(AsMap(list)) - {name}
      ensures item == if name in old(AsMap(list)) then old(AsMap(list))[name] else null
    {
      hide AsMap, Less, Hash;
      item := null;
      if |list| != 0 {
        var found, count, loc := Find(name);
        if count >= 0 {
          return;
        }
        ExactIsFirst(list, name, loc, loc + Abs(count));
        item := Pop(loc);
      }
    }

    /** remove_all_from_array: take out the first entry that starts with the name. */
    method RemoveFirst(name: Name) returns (item: Alias?)
      requires Valid()
      modifies this
      ensures Valid()
      ensures item == null ==> list == old(list) && forall n | n in AsMap(list) :: !(name <= n)
      ensures item != null ==> item in old(list) && name <= item.name
                               && AsMap(list) == old(AsMap(list)) - {item.name} && |list| == |old(list)| - 1
    {
      hide AsMap, Less, Hash;
      item := null;
      if |list| != 0 {
        var found, count, loc := Find(name);
        if count == 0 {
          NoExtensions(list, name, loc);
          return;
        }
        item := Pop(loc);
      }
    }

    /** The loop of delete_all_var_alias: until none is left, so exactly those with the prefix go. */
    method RemoveAll(name: Name) returns (count: nat)
      requires Valid()
      modifies this
      ensures Valid() && AsMap(list) == WithoutPrefix(old(AsMap(list)), name)
      ensures count == |old(list)| - |list|
    {
      hide AsMap, Sorted;
      count := 0;
      var item := RemoveFirst(name);
      while item != null
        invariant Valid()
        invariant WithoutPrefix(AsMap(list), name) == WithoutPrefix(old(AsMap(list)), name)
        invariant item == null ==> forall n | n in AsMap(list) :: !(name <= n)
        invariant count + |list| + (if item == null then 0 else 1) == |old(list)|
        decreases |list|, item != null
      {
        count := count + 1;
        item := RemoveFirst(name);
      }
    }
  }

  // ---------- tables as maps ----------

  ghost function AsMap(list: seq<Alias>): (m: map<Name, Alias>)
    requires Sorted(list)
    ensures forall a | a in list :: a.name in m && m[a.name] == a
    ensures forall n | n in m :: m[n] in list && m[n].name == n
  {
    SortedDistinct(list);
    map a | a in list :: a.name := a
  }

  ghost function WithoutPrefix(m: map<Name, Alias>, p: Name): map<Name, Alias> {
    map n | n in m && !(p <= n) :: m[n]
  }

  lemma SortedDistinct(list: seq<Alias>)
    requires Sorted(list)
    ensures forall i, j | 0 <= i < |list| && 0 <= j < |list| && list[i].name == list[j].name :: i == j
  {
    forall i, j | 0 <= i < |list| && 0 <= j < |list| && list[i].name == list[j].name
      ensures i == j
    {
      LessIrreflexive(list[i].name);
    }
  }

  lemma ReplaceSorted(list: seq<Alias>, lo: nat, hi: nat, item: Alias)
    requires Sorted(list) && Regions(list, item.name, lo, hi) && item.hash == Hash(item.name).0
    requires exists i :: 0 <= i < |list| && list[i].name == item.name
    ensures lo < |list| && list[lo].name == item.name
    ensures Sorted(list[lo := item]) && AsMap(list[lo := item]) == AsMap(list)[item.name := item]
  {
    hide AsMap, Less, Hash;
    ExactIsFirst(list, item.name, lo, hi);
    SortedDistinct(list);
    Replaced(list, lo, item);
    MapAfterReplace(list, list[lo := item], item);
  }

  lemma InsertKeepsSorted(list: seq<Alias>, lo: nat, hi: nat, item: Alias)
    requires Sorted(list) && Regions(list, item.name, lo, hi) && item.hash == Hash(item.name).0
    requires !exists i :: 0 <= i < |list| && list[i].name == item.name
    ensures Sorted(InsertAt(list, lo, item))
  {
    hide Hash;
    forall i | lo <= i < |list|
      ensures Less(item.name, list[i].name)
    {
      LessTotal(item.name, list[i].name);
      if i < hi {
        LessOfPrefix(item.name, list[i].name);
      }
    }
  }

  lemma InsertSorted(list: seq<Alias>, lo: nat, hi: nat, item: Alias)
    requires Sorted(list) && Regions(list, item.name, lo, hi) && item.hash == Hash(item.name).0
    requires !exists i :: 0 <= i < |list| && list[i].name == item.name
    ensures var list2 := InsertAt(list, lo, item);
            Sorted(list2) && AsMap(list2) == AsMap(list)[item.name := item] && item.name !in AsMap(list)
  {
    InsertKeepsSorted(list, lo, hi, item);
    Inserted(list, lo, item);
    MapAfterReplace(list, InsertAt(list, lo, item), item);
  }

  /** Adding `item` to the entries, in place of any of the same name. */
  lemma MapAfterReplace(list: seq<Alias>, list2: seq<Alias>, item: Alias)
    requires Sorted(list) && Sorted(list2) && item in list2
    requires forall x | x in list2 && x != item :: x in list && x.name != item.name
    requires forall x | x in list && x.name != item.name :: x in list2
    ensures AsMap(list2) == AsMap(list)[item.name := item]
    ensures (forall x | x in list :: x.name != item.name) ==> item.name !in AsMap(list)
  {
    hide AsMap, Sorted, Less;
  }

  /** Taking out the one entry of a name. */
  lemma MapAfterRemove(list: seq<Alias>, list2: seq<Alias>, name: Name)
    requires Sorted(list) && Sorted(list2)
    requires forall x | x in list2 :: x in list && x.name != name
    requires forall x | x in list && x.name != name :: x in list2
    ensures AsMap(list2) == AsMap(list) - {name}
  {
    hide AsMap, Sorted, Less;
  }

  lemma Inserted<T>(s: seq<T>, k: nat, x: T)
    requires k <= |s|
    ensures forall y :: y in InsertAt(s, k, x) <==> y == x || y in s
  {
    assert s == s[..k] + s[k..];
  }

  lemma Removed(list: seq<Alias>, k: nat)
    requires k < |list| && (forall i, j | 0 <= i < |list| && 0 <= j < |list| && list[i].name == list[j].name :: i == j)
    ensures forall x | x in RemoveAt(list, k) :: x in list && x.name != list[k].name
    ensures forall x | x in list && x.name != list[k].name :: x in RemoveAt(list, k)
  {
    var list2 := RemoveAt(list, k);
    forall x | x in list2
      ensures x in list && x.name != list[k].name
    {
      var i :| 0 <= i < |list2| && list2[i] == x;
      assert x == list[if i < k then i else i + 1];
    }
    assert list == list[..k] + [list[k]] + list[k + 1..];
  }

  lemma Replaced(list: seq<Alias>, k: nat, item: Alias)
    requires k < |list| && list[k].name == item.name
    requires forall i, j | 0 <= i < |list| && 0 <= j < |list| && list[i].name == list[j].name :: i == j
    ensures item in list[k := item]
    ensures forall x | x in list[k := item] && x != item :: x in list && x.name != item.name
    ensures forall x | x in list && x.name != item.name :: x in list[k := item]
  {
    var list2 := list[k := item];
    assert list2[k] == item;
    forall x | x in list && x.name != item.name
      ensures x in list2
    {
      var i :| 0 <= i < |list| && list[i] == x;
      assert list2[i] == x;
    }
    forall x | x in list2 && x != item
      ensures x in list && x.name != item.name
    {
      var i :| 0 <= i < |list2| && list2[i] == x;
      assert list[i] == x && i != k;
    }
  }

  lemma RemoveSorted(list: seq<Alias>, k: nat)
    requires Sorted(list) && k < |list|
    ensures var list2 := RemoveAt(list, k);
            Sorted(list2) && AsMap(list2) == AsMap(list) - {list[k].name}
  {
    var list2 := RemoveAt(list, k);
    assert Sorted(list2) by {
      assert forall i | 0 <= i < |list2| :: list2[i] == if i < k then list[i] else list[i + 1];
    }
    SortedDistinct(list);
    Removed(list, k);
    MapAfterRemove(list, list2, list[k].name);
  }

  /** The position the search returns is determined by the table and the name. */
  lemma RegionsUnique(list: seq<Alias>, name: Name, lo: int, hi: int, lo2: int, hi2: int)
    requires Sorted(list) && Regions(list, name, lo, hi) && Regions(list, name, lo2, hi2)
    ensures lo == lo2 && hi == hi2
  {
    forall i | 0 <= i < |list|
      ensures !(Less(list[i].name, name) && name <= list[i].name)
    {
      if name <= list[i].name {
        LessOfPrefix(name, list[i].name);
      }
    }
    assert lo < |list| ==> (Less(list[lo].name, name) <==> lo < lo2);
    assert lo2 < |list| ==> (Less(list[lo2].name, name) <==> lo2 < lo);
    assert hi < |list| ==> (name <= list[hi].name || Less(list[hi].name, name) <==> hi < hi2);
    assert hi2 < |list| ==> (name <= list[hi2].name || Less(list[hi2].name, name) <==> hi2 < hi);
  }

  /** Probes go from positive through zero to negative. */
  lemma ProbesMonotone(list: seq<Alias>, name: Name)
    requires Sorted(list)
    ensures forall i, j | 0 <= i < j < |list| :: ProbeAt(list, name, i) >= ProbeAt(list, name, j)
    ensures forall i | 0 <= i < |list| ::
              ProbeAt(list, name, i) == 0 <==> And(Hash(name).0, Hash(name).1) == And(list[i].hash, Hash(name).1)
  {
    hide Hash, And, Code;
    var k := Significant(name);
    MaskedHash(name, name);
    CodeFits(name, k);
    forall i | 0 <= i < |list|
      ensures ProbeAt(list, name, i) == Code(name, k) - Code(list[i].name, k)
      ensures And(list[i].hash, Hash(name).1) == Code(list[i].name, k)
    {
      MaskedHash(name, list[i].name);
      CodeFits(list[i].name, k);
    }
    forall i, j | 0 <= i < j < |list|
      ensures Code(list[i].name, k) <= Code(list[j].name, k)
    {
      CodeMonotone(list[i].name, list[j].name, k);
    }
  }

  lemma CodeMonotone(s: Name, t: Name, k: nat)
    requires Less(s, t) && k <= 4
    ensures Code(s, k) <= Code(t, k)
  {
    LessDigits(s, t);
    hide Less;
  }

  /** The order of names, over their first four characters. */
  lemma LessDigits(s: string, t: string)
    requires Less(s, t)
    ensures At(s, 0) <= At(t, 0)
    ensures At(s, 0) == At(t, 0) ==> At(s, 1) <= At(t, 1)
    ensures At(s, 0) == At(t, 0) && At(s, 1) == At(t, 1) ==> At(s, 2) <= At(t, 2)
    ensures At(s, 0) == At(t, 0) && At(s, 1) == At(t, 1) && At(s, 2) == At(t, 2) ==> At(s, 3) <= At(t, 3)
  {
    hide Less;
    LessDigit(s, t, 0);
    if At(s, 0) == At(t, 0) {
      LessDigit(s, t, 1);
      if At(s, 1) == At(t, 1) {
        LessDigit(s, t, 2);
        if At(s, 2) == At(t, 2) {
          LessDigit(s, t, 3);
        }
      }
    }
  }

  lemma {:induction false} LessDigit(s: string, t: string, k: nat)
    requires Less(s, t) && forall i | 0 <= i < k :: At(s, i) == At(t, i)
    ensures At(s, k) <= At(t, k)
    decreases k
  {
    if k > 0 && s != "" {
      assert At(s, 0) == At(t, 0) && s[0] as int == t[0] as int;
      assert forall i | 0 <= i < k - 1 :: At(s[1..], i) == At(s, i + 1) == At(t, i + 1) == At(t[1..], i);
      LessDigit(s[1..], t[1..], k - 1);
    }
  }
}
