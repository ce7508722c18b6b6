/** The registry of script arrays (source/array.c): array_info, itself an array that holds the names,
    beside array_array, which holds the arrays in the same order. */
module ArrayRegistry {
  import opened Lists
  import opened Names
  import opened ScriptArray

  // ---------- the registry as a map ----------

  ghost predicate Distinct(names: seq<string>) {
    forall i, j | 0 <= i < j < |names| :: names[i] != names[j]
  }

  ghost function ContentsOf(names: seq<string>, items: seq<seq<string>>): (m: map<string, seq<string>>)
    requires |names| == |items| && Distinct(names)
    ensures forall i | 0 <= i < |names| :: names[i] in m && m[names[i]] == items[i]
    ensures forall n | n in m :: n in names
  {
    map i | 0 <= i < |names| :: names[i] := items[i]
  }

  lemma ContentsReplaced(names: seq<string>, items: seq<seq<string>>, k: nat, c: seq<string>)
    requires |names| == |items| && Distinct(names) && k < |names|
    ensures ContentsOf(names, items[k := c]) == ContentsOf(names, items)[names[k] := c]
  {
    hide ContentsOf;
  }

  lemma ContentsAdded(names: seq<string>, items: seq<seq<string>>, n: string, c: seq<string>)
    requires |names| == |items| && Distinct(names) && n !in names
    ensures Distinct(names + [n]) && ContentsOf(names + [n], items + [c]) == ContentsOf(names, items)[n := c]
  {
    var m := ContentsOf(names + [n], items + [c]);
    hide ContentsOf;
    assert (names + [n])[|names|] == n;
    forall x | x in ContentsOf(names, items)[n := c]
      ensures x in m && m[x] == ContentsOf(names, items)[n := c][x]
    {
      if x != n {
        var i :| 0 <= i < |names| && names[i] == x;
        assert (names + [n])[i] == x;
      }
    }
  }

  lemma RestDistinct(names: seq<string>, k: nat)
    requires Distinct(names) && k < |names|
    ensures Distinct(RemoveAt(names, k)) && names[k] !in RemoveAt(names, k)
  {
    RemovedAt(names, k);
  }

  lemma ContentsRemoved(names: seq<string>, items: seq<seq<string>>, k: nat)
    requires |names| == |items| && Distinct(names) && k < |names|
    ensures Distinct(RemoveAt(names, k))
    ensures ContentsOf(RemoveAt(names, k), RemoveAt(items, k)) == ContentsOf(names, items) - {names[k]}
  {
    hide ContentsOf, Distinct;
    RestDistinct(names, k);
    RemovedAt(names, k);
    RemovedAt(items, k);
    var rest, left := RemoveAt(names, k), RemoveAt(items, k);
    hide RemoveAt;
    var m := ContentsOf(names, items) - {names[k]};
    forall i | 0 <= i < |rest|
      ensures rest[i] in m && m[rest[i]] == left[i]
    {
      assert rest[i] in rest;
    }
    ContentsUnique(rest, left, m);
  }

  lemma ContentsUnique(names: seq<string>, items: seq<seq<string>>, m: map<string, seq<string>>)
    requires |names| == |items| && Distinct(names)
    requires forall i | 0 <= i < |names| :: names[i] in m && m[names[i]] == items[i]
    requires forall n | n in m :: n in names
    ensures m == ContentsOf(names, items)
  {
  }

  lemma RemoveOnly<T>(s: seq<T>)
    requires |s| == 1
    ensures RemoveAt(s, 0) == []
  {
  }

  // ---------- what the operations mean ----------

  /** The number setitem returns. */
  function SetCode(c: map<string, seq<string>>, name: string, item: int): int {
    if name == "" || item < 0 then -1
    else if Upper(name) in c then
      var size := |c[Upper(name)]|;
      if item < size then 0 else if item == size then 2 else -2
    else if item == 0 then 1
    else -1
  }

  function AfterSet(c: map<string, seq<string>>, name: string, item: int, text: string): map<string, seq<string>> {
    var n := Upper(name);
    match SetCode(c, name, item)
    case 0 => c[n := c[n][item := text]]
    case 1 => c[n := [text]]
    case 2 => c[n := c[n] + [text]]
    case _ => c
  }

  /** The number delitem returns. */
  function DeleteCode(c: map<string, seq<string>>, name: string, item: int): int {
    if name == "" || Upper(name) !in c then -1
    else if 0 <= item < |c[Upper(name)]| then 0
    else -2
  }

  function AfterDelete(c: map<string, seq<string>>, name: string, item: int): map<string, seq<string>> {
    var n := Upper(name);
    if DeleteCode(c, name, item) != 0 then c
    else if |c[n]| == 1 then c - {n}
    else c[n := RemoveAt(c[n], item)]
  }

  /** setitem item by item. The array is looked up in upper case; no other array is touched. */
  lemma SetLaw(c: map<string, seq<string>>, name: string, item: int, text: string)
    ensures var n, code, r := Upper(name), SetCode(c, name, item), AfterSet(c, name, item, text);
            && (name == "" || item < 0 || (n !in c && item > 0) ==> code == -1 && r == c)
            && (name != "" && n !in c && item == 0 ==> code == 1 && n in r && |r[n]| == 1 && r[n][0] == text)
            && (name != "" && n in c && item > |c[n]| ==> code == -2 && r == c)
            && (name != "" && n in c && item == |c[n]| ==>
                 code == 2 && n in r && |r[n]| == |c[n]| + 1
                 && forall i | 0 <= i <= |c[n]| :: r[n][i] == if i == item then text else c[n][i])
            && (name != "" && n in c && 0 <= item < |c[n]| ==>
                 code == 0 && n in r && |r[n]| == |c[n]|
                 && forall i | 0 <= i < |c[n]| :: r[n][i] == if i == item then text else c[n][i])
            && forall m | m != n :: (m in r <==> m in c) && (m in c ==> r[m] == c[m])
  {
  }

  /** delitem item by item: what is behind the item comes down by one; an array left without items goes. */
  lemma DeleteLaw(c: map<string, seq<string>>, name: string, item: int)
    ensures var n, code, r := Upper(name), DeleteCode(c, name, item), AfterDelete(c, name, item);
            && (name == "" || n !in c ==> code == -1 && r == c)
            && (name != "" && n in c && !(0 <= item < |c[n]|) ==> code == -2 && r == c)
            && (name != "" && n in c && 0 <= item < |c[n]| ==> code == 0)
            && (code == 0 && |c[n]| == 1 ==> n !in r)
            && (code == 0 && |c[n]| > 1 ==>
                 n in r && |r[n]| == |c[n]| - 1
                 && forall i | 0 <= i < |r[n]| :: r[n][i] == if i < item then c[n][i] else c[n][i + 1])
            && forall m | m != n :: (m in r <==> m in c) && (m in c ==> r[m] == c[m])
  {
    if DeleteCode(c, name, item) == 0 {
      RemovedAt(c[Upper(name)], item);
    }
  }

  /** Deleting what was just appended, or created, restores everything. */
  lemma AddThenDelete(c: map<string, seq<string>>, name: string, item: int, text: string)
    requires SetCode(c, name, item) > 0 && (Upper(name) in c ==> c[Upper(name)] != [])
    ensures AfterDelete(AfterSet(c, name, item, text), name, item) == c
  {
    var n := Upper(name);
    if n in c {
      assert RemoveAt(c[n] + [text], item) == c[n];
    }
  }

  /** Setting the item after the last again and again fills an array from nothing, in order. */
  ghost function Filled(c: map<string, seq<string>>, name: string, texts: seq<string>): map<string, seq<string>> {
    if texts == [] then c
    else AfterSet(Filled(c, name, texts[..|texts| - 1]), name, |texts| - 1, texts[|texts| - 1])
  }

  lemma {:induction false} FillKeepsOrder(c: map<string, seq<string>>, name: string, texts: seq<string>)
    requires name != "" && Upper(name) !in c && texts != []
    ensures Filled(c, name, texts) == c[Upper(name) := texts]
  {
    var before := texts[..|texts| - 1];
    if before != [] {
      FillKeepsOrder(c, name, before);
    }
    assert texts == before + [texts[|texts| - 1]];
  }

  // ---------- the registry ----------

  ghost function ListsOf(arrays: seq<Items>): (r: seq<seq<string>>)
    reads arrays
    ensures |r| == |arrays|
  {
    seq(|arrays|, i requires 0 <= i < |arrays| reads arrays => arrays[i].item)
  }

  /** Arrays of their own, none of them empty, and none the list of names. */
  ghost predicate Separate(arrays: seq<Items>, names: Items)
    reads arrays
  {
    && (forall i | 0 <= i < |arrays| :: arrays[i] != names && arrays[i].Valid() && arrays[i].size > 0)
    && (forall i, j | 0 <= i < j < |arrays| :: arrays[i] != arrays[j])
  }

  lemma SeparateRemoved(arrays: seq<Items>, names: Items, k: nat)
    requires Separate(arrays, names) && k < |arrays|
    ensures Separate(RemoveAt(arrays, k), names)
  {
    RemovedAt(arrays, k);
  }

  lemma ListsRemoved(arrays: seq<Items>, k: nat)
    requires k < |arrays|
    ensures ListsOf(RemoveAt(arrays, k)) == RemoveAt(ListsOf(arrays), k)
  {
    RemovedAt(arrays, k);
    RemovedAt(ListsOf(arrays), k);
  }

  class Registry {
    const names: Items
    var arrays: seq<Items>

    ghost predicate Valid()
      reads this, names, arrays
    {
      && names.Valid() && |arrays| == names.size && Distinct(names.item)
      && Separate(arrays, names)
    }

    ghost function ItemLists(): (r: seq<seq<string>>)
      reads this, arrays
      ensures |r| == |arrays|
    {
      ListsOf(arrays)
    }

    /** Every array by name. */
    ghost function Contents(): map<string, seq<string>>
      requires Valid()
      reads this, names, arrays
    {
      ContentsOf(names.item, ItemLists())
    }

    constructor ()
      ensures Valid() && Contents() == map[]
    {
      names := new Items();
      arrays := [];
    }

    /** The position of a name in array_array, or -1. */
    method Position(n: string) returns (k: int)
      requires Valid()
      ensures k < 0 <==> n !in Contents()
      ensures k >= 0 ==> k < |arrays| && names.item[k] == n
    {
      hide Sorted, Fits, ContentsOf;
      IndexInRange(names.index, names.size);
      k := -1;
      if names.size > 0 {
        var index := names.FindItem(n);
        if index >= 0 {
          k := names.index[index];
        } else {
          EveryPosition(names.index, names.item, n);
        }
      }
    }

    /** get_array. */
    method Get(name: string) returns (entry: Items?)
      requires Valid()
      ensures entry != null <==> name != "" && Upper(name) in Contents()
      ensures entry != null ==> exists k | 0 <= k < |arrays| :: arrays[k] == entry && names.item[k] == Upper(name)
    {
      hide ContentsOf;
      entry := null;
      if names.size > 0 && name != "" {
        var k := Position(Upper(name));
        if k >= 0 {
          entry := arrays[k];
        }
      }
    }

    /** setitem. */
    method SetItem(name: string, item: int, text: string) returns (result: int)
      requires Valid()
      modifies this, names, arrays
      ensures Valid()
      ensures result == SetCode(old(Contents()), name, item)
      ensures Contents() == AfterSet(old(Contents()), name, item, text)
    {
      hide ContentsOf, Sorted, Permutation, Distinct, ListsOf;
      result := -1;
      if name != "" && item >= 0 {
        var k := Position(Upper(name));
        if k >= 0 {
          result := SetExisting(k, item, text);
        } else if item == 0 {
          Create(Upper(name), text);
          result := 1;
        }
      }
    }

    method SetExisting(k: nat, item: nat, text: string) returns (result: int)
      requires Valid() && k < |arrays|
      modifies arrays[k]
      ensures Valid()
      ensures names.item[k] in old(Contents())
      ensures var n, c := names.item[k], old(Contents());
              if item < |c[n]| then result == 0 && Contents() == c[n := c[n][item := text]]
              else if item == |c[n]| then result == 2 && Contents() == c[n := c[n] + [text]]
              else result == -2 && Contents() == c
    {
      hide ContentsOf, Sorted, Permutation, Distinct;
      var entry := arrays[k];
      ghost var lists := ItemLists();
      result := -2;
      if item < entry.size {
        entry.Replace(item, text);
        result := 0;
      } else if item == entry.size {
        entry.Append(text);
        result := 2;
      }
      assert ItemLists() == lists[k := entry.item];
      ContentsReplaced(names.item, lists, k, entry.item);
      if result == -2 {
        assert ItemLists() == lists;
      }
    }

    method Create(n: string, text: string)
      requires Valid() && n !in Contents()
      modifies this, names
      ensures Valid() && Contents() == old(Contents())[n := [text]]
    {
      hide ContentsOf, Sorted, Permutation, Distinct;
      ghost var lists := ItemLists();
      var entry := new Items.One(text);
      arrays := arrays + [entry];
      names.Append(n);
      ContentsAdded(old(names.item), lists, n, [text]);
      assert ItemLists() == lists + [[text]];
    }

    /** delitem. */
    method DelItem(name: string, item: int) returns (found: int)
      requires Valid()
      modifies this, names, arrays
      ensures Valid()
      ensures found == DeleteCode(old(Contents()), name, item)
      ensures Contents() == AfterDelete(old(Contents()), name, item)
    {
      hide ContentsOf, Sorted, Permutation, Distinct, RemoveAt, ListsOf;
      found := -1;
      var entry := Get(name);
      if entry != null {
        ghost var k :| 0 <= k < |arrays| && arrays[k] == entry && names.item[k] == Upper(name);
        found := -2;
        EntryContents(k);
        if 0 <= item < entry.size {
          if entry.size == 1 {
            DeleteArray(Upper(name));
          } else {
            DeleteFrom(entry, k, item);
          }
          found := 0;
        }
      }
    }

    lemma EntryContents(k: nat)
      requires Valid() && k < |arrays|
      ensures names.item[k] in Contents() && Contents()[names.item[k]] == arrays[k].item
              && |arrays[k].item| == arrays[k].size
    {
    }

    method DeleteFrom(entry: Items, ghost k: nat, item: nat)
      requires Valid() && k < |arrays| && arrays[k] == entry && item < entry.size && entry.size > 1
      modifies entry
      ensures Valid()
      ensures var n := names.item[k]; Contents() == old(Contents())[n := RemoveAt(old(entry.item), item)]
    {
      hide ContentsOf, Sorted, Permutation, Distinct, RemoveAt;
      ghost var lists := ItemLists();
      entry.DeleteItem(item);
      assert ItemLists() == lists[k := entry.item];
      ContentsReplaced(names.item, lists, k, entry.item);
    }

    /** delete_array. */
    method DeleteArray(n: string)
      requires Valid() && n in Contents()
      modifies this, names
      ensures Valid() && Contents() == old(Contents()) - {n}
    {
      hide ContentsOf, Sorted, Permutation, Distinct, RemoveAt;
      IndexInRange(names.index, names.size);
      var index := names.FindItem(n);
      if index < 0 {
        EveryPosition(names.index, names.item, n);
      }
      var item := names.index[index];
      ghost var lists := ItemLists();
      ContentsRemoved(names.item, lists, item);
      hide Covers, Fits, ListsOf;
      if names.size > 1 {
        assert names !in arrays;
        hide Separate;
        names.Drop(index, item);
        assert ListsOf(arrays) == lists && Separate(arrays, names);
        CloseGap(item);
        assert ListsOf(old(arrays)) == lists && Separate(old(arrays), names);
        ListsRemoved(old(arrays), item);
        SeparateRemoved(old(arrays), names, item);
        assert Valid();
      } else {
        RemoveOnly(names.item);
        RemoveOnly(lists);
        names.Clear();
        arrays := [];
        assert ItemLists() == [];
      }
    }

    /** The arrays after `k` move down by one, as their names did. */
    method CloseGap(k: nat)
      requires |arrays| == names.size + 1 && k <= names.size
      modifies this`arrays
      ensures arrays == RemoveAt(old(arrays), k)
    {
      for cnt := k to names.size
        invariant |arrays| == names.size + 1
        invariant forall i | 0 <= i <= names.size :: arrays[i] == old(arrays)[if k <= i < cnt then i + 1 else i]
      {
        arrays := arrays[cnt := arrays[cnt + 1]];
      }
      arrays := arrays[..names.size];
      RemovedAt(old(arrays), k);
    }
  }

  /** A name that no position of the index leads to is not there. */
  lemma EveryPosition(index: seq<nat>, names: seq<string>, n: string)
    requires Permutation(index, |names|) && forall i | 0 <= i < |index| :: names[index[i]] != n
    ensures n !in names
  {
    forall k | 0 <= k < |names|
      ensures names[k] != n
    {
      assert k in index;
    }
  }
}
