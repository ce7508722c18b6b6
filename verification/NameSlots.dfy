/** The storage of the name tables (source/alist.c): entries shifted in place inside an array of slots. */
module NameSlots {
  import opened Lists
  import opened Names
  import opened NameTable

  /** What slot `k` holds once the items from `start` to `end` have moved by `dir`. Only a move up clears
      the slots it vacates: the loop that should do so after a move down runs over no slot at all. */
  ghost function Shifted(list: seq<Alias?>, start: int, end: int, dir: int, k: int): Alias?
    requires 0 <= k < |list|
    requires start + dir <= k <= end + dir ==> 0 <= k - dir < |list|
  {
    if start + dir <= k <= end + dir then list[k - dir]
    else if dir > 0 && start <= k < start + dir then null
    else list[k]
  }

  /** move_array_items. */
  method MoveItems(list: array<Alias?>, start: nat, end: int, dir: int)
    requires start <= end + 1 && end < list.Length
    requires dir > 0 ==> end + dir < list.Length
    requires dir < 0 ==> 0 <= start + dir
    modifies list
    ensures forall k | 0 <= k < list.Length :: list[k] == Shifted(old(list[..]), start, end, dir, k)
  {
    if dir > 0 {
      var i := end;
      while i >= start
        invariant start - 1 <= i <= end
        invariant forall k | 0 <= k < list.Length ::
                    list[k] == if i + dir < k <= end + dir then old(list[k - dir]) else old(list[k])
      {
        list[i + dir] := list[i];
        i := i - 1;
      }
      i := dir;
      while i > 0
        invariant 0 <= i <= dir
        invariant forall k | 0 <= k < list.Length ::
                    list[k] == if start + dir <= k <= end + dir then old(list[k - dir])
                               else if start + i <= k < start + dir then null else old(list[k])
      {
        list[start + i - 1] := null;
        i := i - 1;
      }
    } else if dir < 0 {
      var i := start;
      while i <= end
        invariant start <= i <= end + 1
        invariant forall k | 0 <= k < list.Length ::
                    list[k] == if start + dir <= k < i + dir then old(list[k - dir]) else old(list[k])
      {
        list[i + dir] := list[i];
        i := i + 1;
      }
      // The loop to clear the rest would run from here, past `end` already, up to `end`.
      assert end - dir + 1 > end;
    }
  }

  /** How add_to_array makes room at `location`, the `max` entries before it starts being in front. */
  method Insert(list: array<Alias?>, max: nat, location: nat, item: Alias)
    requires location <= max && max + 1 < list.Length
    modifies list
    ensures list[..max + 1] == InsertAt(old(list[..max]), location, item)
  {
    MoveItems(list, location, max, 1);
    list[location] := item;
  }

  /** How array_pop and remove_all_from_array close the gap at `which`. */
  method TakeOut(list: array<Alias?>, max: nat, which: nat) returns (item: Alias?)
    requires which < max < list.Length
    modifies list
    ensures item == old(list[which])
    ensures list[..max - 1] == RemoveAt(old(list[..max]), which)
  {
    item := list[which];
    MoveItems(list, which + 1, max, -1);
  }

  // ---------- the table in its slots ----------

  /** The slots up to the count hold the entries of the table, in order. */
  ghost predicate Stored(slots: array<Alias?>, list: seq<Alias>)
    reads slots
  {
    |list| <= slots.Length && slots[..|list|] == list
  }

  /** Room for one more: nothing is moved, and no slot after the new one touched, when there is no entry yet. */
  predicate HasRoom(max: nat, length: nat) {
    if max == 0 then length > 0 else max + 1 < length
  }

  /** The storage side of add_to_array follows the table. */
  method StoreAdded(table: Table, slots: array<Alias?>, item: Alias) returns (replaced: Alias?)
    requires table.Valid() && Stored(slots, table.list) && item.hash == Hash(item.name).0
    requires item.name in AsMap(table.list) || HasRoom(|table.list|, slots.Length)
    modifies table, slots
    ensures table.Valid() && Stored(slots, table.list)
    ensures AsMap(table.list) == old(AsMap(table.list))[item.name := item]
    ensures replaced == if item.name in old(AsMap(table.list)) then old(AsMap(table.list))[item.name] else null
  {
    hide AsMap, Hash, Less, Sorted, Regions, Stored;
    ghost var was := table.list;
    var max := |table.list|;
    var found, count, location := table.Find(item.name);
    NamedIsIn(was, item.name);
    ghost var where;
    replaced, where := table.Add(item);
    ghost var end :| Regions(was, item.name, where, end);
    RegionsUnique(was, item.name, where, end, location, location + Abs(count));
    Place(slots, max, was, location, item, count < 0);
  }

  /** Where an entry is replaced it takes its slot, else room is made. */
  method Place(slots: array<Alias?>, max: nat, ghost was: seq<Alias>, location: nat, item: Alias, known: bool)
    requires Stored(slots, was) && max == |was| && location <= max
    requires if known then location < |was| else HasRoom(|was|, slots.Length)
    modifies slots
    ensures Stored(slots, if known then was[location := item] else InsertAt(was, location, item))
  {
    ghost var before := slots[..];
    assert before[..|was|] == was;
    if max == 0 || known {
      slots[location] := item;
      if known {
        assert slots[..max] == was[location := item];
      } else {
        assert slots[..1] == [item] == InsertAt(was, 0, item);
      }
    } else {
      Insert(slots, max, location, item);
      assert before[..max] == was;
    }
  }

  /** The storage side of array_pop follows the table. */
  method StorePopped(table: Table, slots: array<Alias?>, which: int) returns (item: Alias?)
    requires table.Valid() && Stored(slots, table.list) && |table.list| < slots.Length
    modifies table, slots
    ensures table.Valid() && Stored(slots, table.list)
    ensures if 0 <= which < |old(table.list)|
            then item == old(table.list)[which] && AsMap(table.list) == old(AsMap(table.list)) - {item.name}
            else item == null && table.list == old(table.list)
  {
    hide AsMap, Sorted;
    var max := |table.list|;
    ghost var popped := table.Pop(which);
    if which < 0 || which >= max {
      return null;
    }
    assert slots[..max] == old(table.list) && slots[which] == slots[..max][which];
    item := TakeOut(slots, max, which);
  }

  lemma NamedIsIn(list: seq<Alias>, name: Name)
    requires Sorted(list)
    ensures name in AsMap(list) <==> exists i :: 0 <= i < |list| && list[i].name == name
  {
  }

  /** A move up and the move down that undoes it leave the entries as they were, but not the slot
      after them, where the last entry stays behind. */
  lemma UpAndDown(list: seq<Alias?>, start: nat, max: nat, up: seq<Alias?>, down: seq<Alias?>)
    requires start < max < |list| - 1 && |up| == |list| == |down|
    requires forall k | 0 <= k < |list| :: up[k] == Shifted(list, start, max, 1, k)
    requires forall k | 0 <= k < |list| :: down[k] == Shifted(up, start + 1, max + 1, -1, k)
    ensures down[..max] == list[..max] && down[max + 1] == list[max]
  {
    assert forall k | start <= k <= max :: down[k] == up[k + 1];
    assert forall k | start <= k <= max :: up[k + 1] == list[k];
  }
}
