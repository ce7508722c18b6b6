/** The variable aliases of source/alias.c: a name table behind a cache of the entries found last. */
module AliasCache {
  import opened Lists
  import opened Names
  import opened NameTable

  const CACHE_SIZE := 10

  // ---------- lists of entries ----------

  ghost predicate Distinct(s: seq<Alias>) {
    forall i, j | 0 <= i < j < |s| :: s[i] != s[j]
  }

  ghost predicate Within(s: seq<Alias>, list: seq<Alias>) {
    forall a | a in s :: a in list
  }

  /** The entries in the slots, front to back. */
  ghost function Live(slots: seq<Alias?>): (s: seq<Alias>)
    ensures forall a | a in s :: a in slots
    ensures forall a | a in slots && a != null :: a in s
  {
    if slots == [] then []
    else (if slots[0] == null then [] else [slots[0]]) + Live(slots[1..])
  }

  ghost function Without(s: seq<Alias>, a: Alias): (r: seq<Alias>)
    ensures forall x | x in r :: x in s && x != a
    ensures forall x | x in s && x != a :: x in r
  {
    if s == [] then []
    else (if s[0] == a then [] else [s[0]]) + Without(s[1..], a)
  }

  /** What a lookup of `a` makes of the list of entries by last use. */
  ghost function Used(recent: seq<Alias>, a: Alias): (r: seq<Alias>) {
    [a] + Without(recent, a)
  }

  /** The slots once `a` is cleared from them. */
  ghost function Forget(slots: seq<Alias?>, a: Alias): (r: seq<Alias?>)
    ensures |r| == |slots|
  {
    seq(|slots|, i requires 0 <= i < |slots| => if slots[i] == a then null else slots[i])
  }

  /** The slots after `a` came in at the front and slot `k` was given up. */
  ghost function Front(slots: seq<Alias?>, k: nat, a: Alias): seq<Alias?>
    requires k < |slots|
  {
    [a] + slots[..k] + slots[k + 1..]
  }

  /** Slot by slot: those before the one given up move back by one, those behind it stay. */
  lemma FrontSlots(slots: seq<Alias?>, k: nat, a: Alias)
    requires k < |slots|
    ensures |Front(slots, k, a)| == |slots|
    ensures forall i | 0 <= i < |slots| ::
              Front(slots, k, a)[i] == if i == 0 then a else if i <= k then slots[i - 1] else slots[i]
  {
  }

  lemma {:induction false} LiveConcat(s: seq<Alias?>, t: seq<Alias?>)
    ensures Live(s + t) == Live(s) + Live(t)
  {
    if s == [] {
      assert s + t == t;
    } else {
      assert (s + t)[1..] == s[1..] + t;
      LiveConcat(s[1..], t);
    }
  }

  lemma {:induction false} WithoutConcat(s: seq<Alias>, t: seq<Alias>, a: Alias)
    ensures Without(s + t, a) == Without(s, a) + Without(t, a)
  {
    if s == [] {
      assert s + t == t;
    } else {
      assert (s + t)[1..] == s[1..] + t;
      WithoutConcat(s[1..], t, a);
    }
  }

  lemma {:induction false} WithoutAbsent(s: seq<Alias>, a: Alias)
    requires a !in s
    ensures Without(s, a) == s
  {
    if s != [] {
      WithoutAbsent(s[1..], a);
    }
  }

  lemma ConsDistinct(a: Alias, s: seq<Alias>)
    requires Distinct(s) && a !in s
    ensures Distinct([a] + s)
  {
    assert forall i | 1 <= i < |s| + 1 :: ([a] + s)[i] == s[i - 1];
  }

  lemma {:induction false} WithoutDistinct(s: seq<Alias>, a: Alias)
    requires Distinct(s)
    ensures Distinct(Without(s, a))
  {
    if s != [] {
      WithoutDistinct(s[1..], a);
      if s[0] != a {
        ConsDistinct(s[0], Without(s[1..], a));
      }
    }
  }

  lemma WithoutPrefixed(p: seq<Alias>, s: seq<Alias>, a: Alias)
    requires p <= s
    ensures Without(p, a) <= Without(s, a)
  {
    assert s == p + s[|p|..];
    WithoutConcat(p, s[|p|..], a);
  }

  lemma {:induction false} LiveForget(slots: seq<Alias?>, a: Alias)
    ensures Live(Forget(slots, a)) == Without(Live(slots), a)
  {
    if slots != [] {
      LiveForget(slots[1..], a);
      assert Forget(slots, a)[1..] == Forget(slots[1..], a);
      if slots[0] == null {
        assert Live(slots) == Live(slots[1..]);
      } else {
        assert Live(slots) == [slots[0]] + Live(slots[1..]);
        assert Live(slots)[1..] == Live(slots[1..]);
      }
    }
  }

  /** Clearing an entry everywhere keeps the slots the most recently used ones. */
  lemma ForgetKeepsOrder(slots: seq<Alias?>, recent: seq<Alias>, a: Alias)
    requires Live(slots) <= recent
    ensures Live(Forget(slots, a)) <= Without(recent, a)
  {
    LiveForget(slots, a);
    WithoutPrefixed(Live(slots), recent, a);
  }

  /** Moving an entry to the front does so in the order of last use too, whether it comes from slot `k`
      or, from outside, pushes the last slot out. */
  lemma FrontKeepsOrder(slots: seq<Alias?>, recent: seq<Alias>, k: nat, a: Alias)
    requires k < |slots| && Distinct(recent) && Live(slots) <= recent
    requires slots[k] == a || (k == |slots| - 1 && a !in slots)
    ensures Live(Front(slots, k, a)) <= Used(recent, a)
  {
    hide Live, Without, Distinct;
    var before, after := slots[..k], slots[k + 1..];
    LiveFront(slots, k, a);
    WithoutPrefixed(Live(slots), recent, a);
    if slots[k] == a {
      PrefixDistinct(Live(slots), recent);
      MiddleOut(Live(before), Live(after), a);
    } else {
      WithoutAbsent(Live(slots), a);
      EmptyLive(after);
    }
  }

  lemma LiveFront(slots: seq<Alias?>, k: nat, a: Alias)
    requires k < |slots|
    ensures Live(Front(slots, k, a)) == [a] + (Live(slots[..k]) + Live(slots[k + 1..]))
    ensures Live(slots) == Live(slots[..k]) + (if slots[k] == null then [] else [slots[k]]) + Live(slots[k + 1..])
  {
    var before, after := slots[..k], slots[k + 1..];
    SplitAt(slots, k);
    Regroup([a], before, after);
    hide Live;
    LiveThree(before, slots[k], after);
    LiveThree([], a, before + after);
    LiveConcat(before, after);
    EmptyLive([]);
  }

  lemma LiveThree(s: seq<Alias?>, a: Alias?, t: seq<Alias?>)
    ensures Live(s + ([a] + t)) == Live(s) + (if a == null then [] else [a]) + Live(t)
    ensures s == [] ==> s + ([a] + t) == [a] + t
  {
    LiveConcat(s, [a] + t);
    LiveConcat([a], t);
    LiveOne(a);
    hide Live;
    Regroup(Live(s), Live([a]), Live(t));
  }

  lemma SplitAt<T>(s: seq<T>, k: nat)
    requires k < |s|
    ensures s == s[..k] + ([s[k]] + s[k + 1..])
  {
  }

  lemma LiveOne(a: Alias?)
    ensures Live([a]) == if a == null then [] else [a]
  {
    assert [a][1..] == [];
  }

  lemma MiddleOut(s: seq<Alias>, t: seq<Alias>, a: Alias)
    requires Distinct(s + [a] + t)
    ensures Without(s + [a] + t, a) == s + t
  {
    var all := s + [a] + t;
    assert all[|s|] == a;
    forall i | 0 <= i < |s|
      ensures s[i] != a
    {
      assert all[i] == s[i];
    }
    forall i | 0 <= i < |t|
      ensures t[i] != a
    {
      assert all[|s| + 1 + i] == t[i];
    }
    WithoutConcat(s + [a], t, a);
    WithoutConcat(s, [a], a);
    WithoutAbsent(s, a);
    WithoutAbsent(t, a);
    WithoutOne(a);
    hide Without;
    assert s + [] == s;
  }

  lemma WithoutOne(a: Alias)
    ensures Without([a], a) == []
  {
    assert [a][1..] == [];
  }

  lemma UsedDistinct(recent: seq<Alias>, a: Alias)
    requires Distinct(recent)
    ensures Distinct(Used(recent, a))
  {
    WithoutDistinct(recent, a);
    ConsDistinct(a, Without(recent, a));
  }

  lemma PrefixDistinct(p: seq<Alias>, s: seq<Alias>)
    requires Distinct(s) && p <= s
    ensures Distinct(p)
  {
  }

  // ---------- the set of variables ----------

  ghost function ValuesOf(m: map<Name, Alias>): map<Name, string>
    reads m.Values
  {
    map n | n in m :: m[n].stuff
  }

  class Variables {
    const table: Table
    var cache: array?<Alias?>

    /** Every entry that was ever found and still exists, the one found last first. */
    ghost var recent: seq<Alias>

    /** The cache holds the entries found most recently, in that order, with gaps where one was deleted. */
    ghost predicate Valid()
      reads this, table, cache
    {
      && table.Valid()
      && Distinct(recent) && Within(recent, table.list)
      && if cache == null then recent == []
         else cache.Length == CACHE_SIZE && Live(cache[..]) <= recent
    }

    /** The slots, front to back; all empty before the first lookup. */
    ghost function Slots(): (s: seq<Alias?>)
      reads this, cache
    {
      if cache == null then seq(CACHE_SIZE, i => null) else cache[..]
    }

    /** The variables and their values. */
    ghost function Values(): map<Name, string>
      requires table.Valid()
      reads this, table, table.list
    {
      ValuesOf(AsMap(table.list))
    }

    constructor ()
      ensures Valid() && fresh(table) && table.list == [] && cache == null
    {
      table := new Table();
      cache, recent := null, [];
    }

    /** find_var_alias, for entries that are not stubs. */
    method Find(name: Name) returns (item: Alias?)
      requires Valid()
      modifies this, cache
      ensures Valid() && (old(cache) == null || cache == old(cache)) && (old(cache) == null ==> fresh(cache))
      ensures item == if name in AsMap(table.list) then AsMap(table.list)[name] else null
      ensures recent == if item == null then old(recent) else Used(old(recent), item)
      ensures item == null ==> Slots() == old(Slots())
      ensures item != null ==> exists k | 0 <= k < CACHE_SIZE ::
                Slots() == Front(old(Slots()), k, item)
                && (old(Slots())[k] == item || (k == CACHE_SIZE - 1 && item !in old(Slots())))
    {
      hide AsMap, Sorted, Live, Without, Hash, Distinct;
      if cache == null {
        cache := new Alias?[CACHE_SIZE](i => null);
        EmptyLive(cache[..]);
      }
      assert Slots() == old(Slots());
      var slot;
      item, slot := Lookup(name);
      if item == null {
        return;
      }
      FrontKeepsOrder(cache[..], recent, slot, item);
      UsedDistinct(recent, item);
      Rotate(cache, slot, item);
      recent := Used(recent, item);
    }

    /** The cache is asked first, then the table; `slot` is the one to be given up. */
    method Lookup(name: Name) returns (item: Alias?, slot: nat)
      requires Valid() && cache != null
      ensures item == if name in AsMap(table.list) then AsMap(table.list)[name] else null
      ensures slot < CACHE_SIZE
      ensures item != null ==> item in table.list
                               && (cache[slot] == item || (slot == CACHE_SIZE - 1 && item !in cache[..]))
    {
      hide AsMap, Sorted, Live, Without, Hash, Distinct;
      slot := FindCached(name);
      NamedInMap(table.list, name);
      if slot < CACHE_SIZE {
        return cache[slot], slot;
      }
      slot := CACHE_SIZE - 1;
      var cnt, loc;
      item, cnt, loc := table.Find(name);
      if cnt >= 0 {
        return null, slot;
      }
      ExactIsFirst(table.list, name, loc, loc + Abs(cnt));
    }

    /** The scan of the cache: the slot that holds the name's entry, or CACHE_SIZE. */
    method FindCached(name: Name) returns (slot: nat)
      requires Valid() && cache != null
      ensures slot <= CACHE_SIZE
      ensures slot < CACHE_SIZE ==> cache[slot] != null && cache[slot].name == name
                                    && name in AsMap(table.list) && AsMap(table.list)[name] == cache[slot]
      ensures slot == CACHE_SIZE ==> forall i | 0 <= i < CACHE_SIZE :: cache[i] == null || cache[i].name != name
    {
      hide AsMap, Sorted, Live, Hash, Distinct;
      var (hash, mask) := Hash(name);
      slot := 0;
      while slot < CACHE_SIZE
        invariant 0 <= slot <= CACHE_SIZE
        invariant forall i | 0 <= i < slot :: cache[i] == null || cache[i].name != name
      {
        if cache[slot] != null {
          assert cache[slot] in cache[..] && cache[slot] in Live(cache[..]);
          HashOf(table.list, cache[slot]);
          if cache[slot].hash == hash && cache[slot].name == name {
            return;
          }
        }
        slot := slot + 1;
      }
    }

    /** The global part of add_var_alias; an empty value deletes the variable. */
    method Assign(name: Name, stuff: string)
      requires Valid()
      modifies this, cache, table, table.list
      ensures Valid() && cache == old(cache)
      ensures stuff == "" ==> Values() == old(Values()) - {name}
      ensures stuff != "" ==> Values() == old(Values())[name := stuff]
      ensures stuff != "" ==> recent == old(recent) && Slots() == old(Slots())
      ensures stuff != "" && name in old(AsMap(table.list)) ==> table.list == old(table.list)
    {
      hide AsMap, Sorted, Live, Without, Hash, Distinct, Within;
      if stuff == "" {
        Delete(name);
        return;
      }
      var item := Entry(name);
      ghost var now := AsMap(table.list);
      item.stuff := stuff;
      assert cache != null ==> cache[..] == old(cache[..]);
      assert forall n | n in now && n != name :: now[n].name == n && now[n] == old(AsMap(table.list))[n];
    }

    /** The entry to assign to: the one of the name if it exists, else a new one. */
    method Entry(name: Name) returns (item: Alias)
      requires Valid()
      modifies table
      ensures Valid()
      ensures AsMap(table.list) == old(AsMap(table.list))[name := item]
      ensures if name in old(AsMap(table.list)) then table.list == old(table.list) && item == AsMap(table.list)[name]
              else fresh(item)
    {
      hide AsMap, Sorted, Live, Without, Hash, Distinct;
      var found, cnt, loc := table.Find(name);
      if cnt < 0 {
        ExactIsFirst(table.list, name, loc, loc + Abs(cnt));
      }
      NamedInMap(table.list, name);
      if found == null || cnt >= 0 {
        item := new Alias(name, "");
        var _, _ := table.Add(item);
        AddedWithin(recent, old(table.list), table.list, item);
        assert cache != null ==> cache[..] == old(cache[..]);
      } else {
        item := found;
      }
    }

    /** delete_var_alias. */
    method Delete(name: Name)
      requires Valid()
      modifies this, cache, table
      ensures Valid() && cache == old(cache)
      ensures AsMap(table.list) == old(AsMap(table.list)) - {name}
      ensures Values() == old(Values()) - {name}
      ensures cache != null ==> cache[..] == if name in old(AsMap(table.list))
                                             then Forget(old(cache[..]), old(AsMap(table.list))[name])
                                             else old(cache[..])
      ensures cache != null ==> forall i | 0 <= i < CACHE_SIZE :: cache[i] == null || cache[i].name != name
    {
      hide AsMap, Sorted, Live, Without, Hash;
      var item := table.Remove(name);
      assert cache != null ==> cache[..] == old(cache[..]);
      if item != null {
        NamedWithin(recent, old(table.list), table.list, name);
        Uncache(item);
      } else {
        assert AsMap(table.list) == old(AsMap(table.list));
        SameWithin(recent, old(table.list), table.list);
      }
      if cache != null {
        NotNamed(cache[..], recent, table.list, name);
      }
    }

    /** The loop that clears a removed entry from the cache, if there is one. */
    method Uncache(item: Alias)
      requires Distinct(recent) && (cache == null ==> recent == [])
      requires cache != null ==> cache.Length == CACHE_SIZE && Live(cache[..]) <= recent
      modifies this`recent, cache
      ensures cache != null ==> cache[..] == Forget(old(cache[..]), item) && Live(cache[..]) <= recent
      ensures Distinct(recent) && recent == Without(old(recent), item) && (cache == null ==> recent == [])
    {
      hide Live, Distinct;
      if cache != null {
        ClearSlots(item);
      } else {
        WithoutDistinct(recent, item);
        recent := Without(recent, item);
      }
    }

    /** The loop itself, for which there must be a cache. */
    method ClearSlots(item: Alias)
      requires cache != null && Distinct(recent) && cache.Length == CACHE_SIZE && Live(cache[..]) <= recent
      modifies this`recent, cache
      ensures cache[..] == Forget(old(cache[..]), item) && Live(cache[..]) <= recent
      ensures Distinct(recent) && recent == Without(old(recent), item)
    {
      hide Live, Distinct;
      var cache: array<Alias?> := this.cache;
      ghost var slots := cache[..];
      for i := 0 to CACHE_SIZE
        invariant forall j | 0 <= j < i :: cache[j] == Forget(slots, item)[j]
        invariant forall j | i <= j < CACHE_SIZE :: cache[j] == slots[j]
        modifies cache
      {
        if cache[i] == item {
          cache[i] := null;
        }
      }
      assert cache[..] == Forget(slots, item);
      ForgetKeepsOrder(slots, recent, item);
      WithoutDistinct(recent, item);
      recent := Without(recent, item);
    }

    /** delete_all_var_alias. It reaches for the cache without asking whether there is one yet. */
    method DeleteAll(name: Name)
      requires Valid() && (cache != null || forall n | n in AsMap(table.list) :: !(name <= n))
      modifies this, cache, table
      ensures Valid() && cache == old(cache)
      ensures AsMap(table.list) == WithoutPrefix(old(AsMap(table.list)), name)
    {
      hide AsMap, Sorted, Live, Without, Hash, Distinct, Within, WithoutPrefix;
      var item := RemoveOne(name);
      while item != null
        invariant Valid() && cache == old(cache) && (item != null ==> cache != null)
        invariant WithoutPrefix(AsMap(table.list), name) == WithoutPrefix(old(AsMap(table.list)), name)
        invariant item == null ==> forall n | n in AsMap(table.list) :: !(name <= n)
        decreases |table.list|, item != null
      {
        item := RemoveOne(name);
      }
      NothingLeft(AsMap(table.list), name);
    }

    /** One round of it: an entry leaves the table and then the cache. */
    method RemoveOne(name: Name) returns (item: Alias?)
      requires Valid() && (cache != null || forall n | n in AsMap(table.list) :: !(name <= n))
      modifies this, cache, table
      ensures Valid() && cache == old(cache)
      ensures item == null ==> table.list == old(table.list) && forall n | n in AsMap(table.list) :: !(name <= n)
      ensures item != null ==> cache != null && |table.list| < |old(table.list)| && name <= item.name
                               && AsMap(table.list) == old(AsMap(table.list)) - {item.name}
      ensures WithoutPrefix(AsMap(table.list), name) == WithoutPrefix(old(AsMap(table.list)), name)
    {
      hide AsMap, Sorted, Live, Without, Hash, Distinct;
      item := table.RemoveFirst(name);
      assert cache != null ==> cache[..] == old(cache[..]);
      if item != null {
        HashOf(old(table.list), item);
        NamedWithin(recent, old(table.list), table.list, item.name);
        ClearSlots(item);
      }
    }

    /** destroy_aliases. */
    method Destroy()
      requires Valid()
      modifies this, cache, table
      ensures Valid() && cache == old(cache) && table.list == []
      ensures cache != null ==> forall i | 0 <= i < CACHE_SIZE :: cache[i] == null
    {
      if cache != null {
        var cache: array<Alias?> := this.cache;
        for i := 0 to CACHE_SIZE
          invariant forall j | 0 <= j < i :: cache[j] == null
          modifies cache
        {
          cache[i] := null;
        }
        EmptyLive(cache[..]);
      }
      table.list := [];
      recent := [];
    }
  }

  /** An assignment makes no cache, so DeleteAll can be asked to remove a variable while there is none. */
  method AssignedOnly(name: Name, stuff: string) returns (v: Variables)
    requires stuff != ""
    ensures fresh(v) && v.Valid() && v.cache == null && name in AsMap(v.table.list)
  {
    v := new Variables();
    v.Assign(name, stuff);
    assert name in v.Values();
  }

  /** The rotation: the slots before `k` move down one and `item` comes in at the front. */
  method Rotate(cache: array<Alias?>, k: nat, item: Alias)
    requires k < cache.Length
    modifies cache
    ensures cache[..] == Front(old(cache[..]), k, item)
  {
    var i := k;
    while i > 0
      invariant 0 <= i <= k
      invariant forall j | i < j <= k :: cache[j] == old(cache[j - 1])
      invariant forall j | 0 <= j <= i || k < j < cache.Length :: cache[j] == old(cache[j])
    {
      cache[i] := cache[i - 1];
      i := i - 1;
    }
    cache[0] := item;
  }

  // ---------- tables and lists of entries ----------

  lemma {:induction false} EmptyLive(slots: seq<Alias?>)
    requires forall i | 0 <= i < |slots| :: slots[i] == null
    ensures Live(slots) == []
  {
    if slots != [] {
      EmptyLive(slots[1..]);
    }
  }

  lemma NothingLeft(m: map<Name, Alias>, p: Name)
    requires forall n | n in m :: !(p <= n)
    ensures WithoutPrefix(m, p) == m
  {
  }

  lemma HashOf(list: seq<Alias>, a: Alias)
    requires Sorted(list) && a in list
    ensures a.hash == Hash(a.name).0 && a.name in AsMap(list) && AsMap(list)[a.name] == a
  {
  }

  lemma NamedInMap(list: seq<Alias>, name: Name)
    requires Sorted(list)
    ensures (exists i :: 0 <= i < |list| && list[i].name == name) <==> name in AsMap(list)
    ensures forall i | 0 <= i < |list| && list[i].name == name :: AsMap(list)[name] == list[i]
  {
  }

  lemma AddedWithin(recent: seq<Alias>, before: seq<Alias>, after: seq<Alias>, item: Alias)
    requires Sorted(before) && Sorted(after) && Within(recent, before)
    requires AsMap(after) == AsMap(before)[item.name := item] && item.name !in AsMap(before)
    ensures Within(recent, after)
  {
    hide Sorted;
    forall a | a in recent
      ensures a in after
    {
      assert AsMap(after)[a.name] == a;
    }
  }

  /** Once the entry of a name is gone from the table, forgetting it is all the recency list needs. */
  lemma NamedWithin(recent: seq<Alias>, before: seq<Alias>, after: seq<Alias>, name: Name)
    requires Sorted(before) && Sorted(after) && Within(recent, before)
    requires AsMap(after) == AsMap(before) - {name} && name in AsMap(before)
    ensures Within(Without(recent, AsMap(before)[name]), after)
  {
    hide Sorted;
    forall a | a in recent && a != AsMap(before)[name]
      ensures a in after
    {
      assert a.name != name;
      assert AsMap(after)[a.name] == a;
    }
  }

  lemma SameWithin(recent: seq<Alias>, before: seq<Alias>, after: seq<Alias>)
    requires Sorted(before) && Sorted(after) && Within(recent, before) && AsMap(after) == AsMap(before)
    ensures Within(recent, after)
  {
    hide Sorted;
    forall a | a in recent
      ensures a in after
    {
      assert AsMap(after)[a.name] == a;
    }
  }

  lemma NotNamed(slots: seq<Alias?>, recent: seq<Alias>, list: seq<Alias>, name: Name)
    requires Sorted(list) && Within(recent, list) && Live(slots) <= recent && name !in AsMap(list)
    ensures forall i | 0 <= i < |slots| :: slots[i] == null || slots[i].name != name
  {
    forall i | 0 <= i < |slots| && slots[i] != null
      ensures slots[i].name != name
    {
      assert slots[i] in Live(slots);
    }
  }
}
