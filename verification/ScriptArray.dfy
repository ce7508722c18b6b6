/** The arrays of the scripting language (source/array.c): items in the order they were added, and an
    index that lists them in dictionary order. */
module ScriptArray {
  import opened Lists
  import opened Names

  const ARRAY_THRESHOLD := 100

  /** Each number below `n` exactly once. */
  ghost predicate Permutation(index: seq<nat>, n: nat) {
    && |index| == n
    && (forall i | 0 <= i < n :: index[i] < n)
    && (forall i, j | 0 <= i < j < n :: index[i] != index[j])
    && (forall k | 0 <= k < n :: k in index)
  }

  ghost predicate Covers(item: seq<string>, index: seq<nat>) {
    forall i | 0 <= i < |index| :: index[i] < |item|
  }

  /** Read through the index the items never go down. */
  ghost predicate Sorted(item: seq<string>, index: seq<nat>)
    requires Covers(item, index)
  {
    forall i, j | 0 <= i < j < |index| :: !Less(item[index[j]], item[index[i]])
  }

  /** `text` may go in at position `p` of the index. */
  ghost predicate Fits(item: seq<string>, index: seq<nat>, p: int, text: string)
    requires Covers(item, index)
  {
    && 0 <= p <= |index|
    && (forall i | 0 <= i < p :: !Less(text, item[index[i]]))
    && (forall i | p <= i < |index| :: !Less(item[index[i]], text))
  }

  // ---------- the index ----------

  /** What move_index makes of the index. */
  ghost function Moved(index: seq<nat>, oldindex: nat, newindex: nat): (r: seq<nat>)
    requires oldindex < |index| && newindex <= |index|
    ensures |r| == |index|
  {
    InsertAt(RemoveAt(index, oldindex), if newindex > oldindex then newindex - 1 else newindex, index[oldindex])
  }

  /** All numbers below `n` but `x`, each once. */
  ghost predicate AllBut(s: seq<nat>, n: nat, x: nat) {
    && |s| == n - 1
    && (forall i | 0 <= i < |s| :: s[i] < n && s[i] != x)
    && (forall i, j | 0 <= i < j < |s| :: s[i] != s[j])
    && (forall k | 0 <= k < n && k != x :: k in s)
  }

  lemma RemoveEntry(index: seq<nat>, p: nat)
    requires Permutation(index, |index|) && p < |index|
    ensures AllBut(RemoveAt(index, p), |index|, index[p])
  {
    RemovedAt(index, p);
  }

  lemma InsertEntry(s: seq<nat>, p: nat, x: nat)
    requires AllBut(s, |s| + 1, x) && x <= |s| && p <= |s|
    ensures Permutation(InsertAt(s, p, x), |s| + 1)
  {
    InsertedAt(s, p, x);
  }

  /** A new item, numbered last, goes into the index at `p`. */
  lemma InsertPermutation(index: seq<nat>, p: nat)
    requires Permutation(index, |index|) && p <= |index|
    ensures Permutation(InsertAt<nat>(index, p, |index|), |index| + 1)
  {
    InsertEntry(index, p, |index|);
  }

  lemma InsertSorted(item: seq<string>, index: seq<nat>, p: nat, k: nat)
    requires Covers(item, index) && Sorted(item, index) && k < |item| && Fits(item, index, p, item[k])
    ensures Covers(item, InsertAt(index, p, k)) && Sorted(item, InsertAt(index, p, k))
  {
    hide Less;
    InsertedAt(index, p, k);
  }

  /** Moving one entry of the index keeps it a permutation. */
  lemma MovePermutation(index: seq<nat>, oldindex: nat, newindex: nat)
    requires oldindex < |index| && newindex <= |index| && Permutation(index, |index|)
    ensures Permutation(Moved(index, oldindex, newindex), |index|)
  {
    assert index[oldindex] < |index|;
    hide Permutation, AllBut;
    RemoveEntry(index, oldindex);
    InsertEntry(RemoveAt(index, oldindex), if newindex > oldindex then newindex - 1 else newindex, index[oldindex]);
  }

  /** Where the entry at `i` of the index comes from when entry `from` moves to `to`. */
  function Source(from: nat, to: nat, i: nat): nat {
    if i == to then from else if from <= i < to then i + 1 else if to < i <= from then i - 1 else i
  }

  lemma MovedAt(index: seq<nat>, oldindex: nat, newindex: nat)
    requires oldindex < |index| && newindex <= |index|
    ensures var to := if newindex > oldindex then newindex - 1 else newindex;
            forall i | 0 <= i < |index| :: Moved(index, oldindex, newindex)[i] == index[Source(oldindex, to, i)]
  {
    var to := if newindex > oldindex then newindex - 1 else newindex;
    var rest, moved := RemoveAt(index, oldindex), Moved(index, oldindex, newindex);
    RemovedAt(index, oldindex);
    InsertedAt(rest, to, index[oldindex]);
    forall i | 0 <= i < |index|
      ensures moved[i] == index[Source(oldindex, to, i)]
    {
      assert moved[i] == if i < to then rest[i] else if i == to then index[oldindex] else rest[i - 1];
    }
  }

  /** Giving item `k` a new text, and its entry the place the search found among the old ones, keeps the
      index sorted. */
  lemma ReplaceSorted(item: seq<string>, index: seq<nat>, oldindex: nat, newindex: nat, text: string)
    requires Permutation(index, |item|) && Covers(item, index) && Sorted(item, index)
    requires oldindex < |index| && Fits(item, index, newindex, text)
    ensures Permutation(Moved(index, oldindex, newindex), |item|)
    ensures Sorted(item[index[oldindex] := text], Moved(index, oldindex, newindex))
  {
    assert |index| == |item| && newindex <= |index|;
    hide Less, Sorted, Fits, Permutation;
    MovePermutation(index, oldindex, newindex);
    RestSorted(item, index, oldindex, text);
    RestFits(item, index, oldindex, newindex, text);
    var p := if newindex > oldindex then newindex - 1 else newindex;
    InsertSorted(item[index[oldindex] := text], RemoveAt(index, oldindex), p, index[oldindex]);
    MovedCovers(index, oldindex, newindex, |item|);
  }

  lemma MovedCovers(index: seq<nat>, oldindex: nat, newindex: nat, n: nat)
    requires oldindex < |index| == n && newindex <= |index| && Permutation(Moved(index, oldindex, newindex), n)
    ensures forall i | 0 <= i < n :: Moved(index, oldindex, newindex)[i] < n
  {
  }

  /** Without its entry the index does not notice the new text. */
  lemma RestSorted(item: seq<string>, index: seq<nat>, oldindex: nat, text: string)
    requires Permutation(index, |item|) && Covers(item, index) && Sorted(item, index) && oldindex < |index|
    ensures var item2, rest := item[index[oldindex] := text], RemoveAt(index, oldindex);
            Covers(item2, rest) && Sorted(item2, rest)
  {
    hide Less;
    RemovedAt(index, oldindex);
    assert forall i | 0 <= i < |index| - 1 :: RemoveAt(index, oldindex)[i] != index[oldindex];
  }

  lemma RestFits(item: seq<string>, index: seq<nat>, oldindex: nat, newindex: nat, text: string)
    requires Permutation(index, |item|) && Covers(item, index) && oldindex < |index|
    requires Fits(item, index, newindex, text)
    requires Covers(item[index[oldindex] := text], RemoveAt(index, oldindex))
    ensures Fits(item[index[oldindex] := text], RemoveAt(index, oldindex),
                 if newindex > oldindex then newindex - 1 else newindex, text)
  {
    hide Less;
    RemovedAt(index, oldindex);
    assert forall i | 0 <= i < |index| - 1 :: RemoveAt(index, oldindex)[i] != index[oldindex];
  }

  /** An item's number once item `k` is gone. */
  function Renumbered(x: nat, k: nat): nat {
    if x > k then x - 1 else x
  }

  function RenumberedAll(index: seq<nat>, k: nat): (r: seq<nat>)
    ensures |r| == |index|
  {
    seq(|index|, i requires 0 <= i < |index| => Renumbered(index[i], k))
  }

  lemma DeletePermutation(index: seq<nat>, oldindex: nat)
    requires Permutation(index, |index|) && oldindex < |index|
    ensures Permutation(RenumberedAll(RemoveAt(index, oldindex), index[oldindex]), |index| - 1)
  {
    var k := index[oldindex];
    var rest := RemoveAt(index, oldindex);
    RemovedAt(index, oldindex);
    var r := RenumberedAll(rest, k);
    assert forall i | 0 <= i < |rest| :: rest[i] != k;
    forall y | 0 <= y < |index| - 1
      ensures y in r
    {
      var x := if y >= k then y + 1 else y;
      assert x in rest;
      var i :| 0 <= i < |rest| && rest[i] == x;
      assert r[i] == y;
    }
  }

  lemma DeleteSorted(item: seq<string>, index: seq<nat>, oldindex: nat)
    requires Permutation(index, |item|) && Covers(item, index) && Sorted(item, index) && oldindex < |index|
    ensures var index2 := RenumberedAll(RemoveAt(index, oldindex), index[oldindex]);
            Permutation(index2, |item| - 1) && Sorted(RemoveAt(item, index[oldindex]), index2)
  {
    var k := index[oldindex];
    var rest := RemoveAt(index, oldindex);
    assert |index| == |item|;
    RestOthers(index, oldindex);
    hide Permutation, Less, RemoveAt, RenumberedAll, Sorted;
    DeletePermutation(index, oldindex);
    RestStillSorted(item, index, oldindex);
    RenumberedItems(item, rest, k);
    SameItemsSorted(item, rest, RemoveAt(item, k), RenumberedAll(rest, k));
  }

  lemma RestOthers(index: seq<nat>, oldindex: nat)
    requires Permutation(index, |index|) && oldindex < |index|
    ensures forall i | 0 <= i < |index| - 1 ::
              RemoveAt(index, oldindex)[i] < |index| && RemoveAt(index, oldindex)[i] != index[oldindex]
  {
    RemoveEntry(index, oldindex);
  }

  lemma RestStillSorted(item: seq<string>, index: seq<nat>, oldindex: nat)
    requires Covers(item, index) && Sorted(item, index) && oldindex < |index|
    ensures Covers(item, RemoveAt(index, oldindex)) && Sorted(item, RemoveAt(index, oldindex))
  {
    hide Less;
    RemovedAt(index, oldindex);
  }

  /** The new numbers find the items that the old ones found. */
  lemma RenumberedItems(item: seq<string>, rest: seq<nat>, k: nat)
    requires k < |item| && forall i | 0 <= i < |rest| :: rest[i] < |item| && rest[i] != k
    ensures var item2, index2 := RemoveAt(item, k), RenumberedAll(rest, k);
            forall i | 0 <= i < |rest| :: index2[i] < |item2| && item2[index2[i]] == item[rest[i]]
  {
    RemovedAt(item, k);
  }

  lemma SameItemsSorted(item: seq<string>, index: seq<nat>, item2: seq<string>, index2: seq<nat>)
    requires Covers(item, index) && Sorted(item, index) && |index2| == |index|
    requires forall i | 0 <= i < |index| :: index2[i] < |item2| && item2[index2[i]] == item[index[i]]
    ensures Covers(item2, index2) && Sorted(item2, index2)
  {
    hide Less;
  }

  /** Renumbering before the entry is moved to the end and cut off, as the deletion does it. */
  lemma DeletedIndex(index: seq<nat>, oldindex: nat, k: nat)
    requires oldindex < |index|
    ensures Moved(RenumberedAll(index, k), oldindex, |index|)[..|index| - 1]
            == RenumberedAll(RemoveAt(index, oldindex), k)
  {
  }

  class Items {
    var item: seq<string>
    var index: seq<nat>
    var size: nat

    ghost predicate Valid()
      reads this
    {
      && |item| == size
      && Permutation(index, size) && Sorted(item, index)
    }

    constructor ()
      ensures Valid() && item == []
    {
      item, index, size := [], [], 0;
    }

    /** The array setitem makes for a new name: one item. */
    constructor One(text: string)
      ensures Valid() && item == [text]
    {
      item, index, size := [text], [0], 1;
    }

    method Clear()
      modifies this
      ensures Valid() && item == [] && size == 0
    {
      item, index, size := [], [], 0;
    }

    /** find_item: a position of the index that holds the text, or else, made negative, where it would go. */
    method FindItem(find: string) returns (r: int)
      requires |index| == size && Covers(item, index) && Sorted(item, index)
      ensures Fits(item, index, if r >= 0 then r else -r - 1, find)
      ensures if r >= 0 then r < size && item[index[r]] == find
              else forall i | 0 <= i < size :: item[index[i]] != find
    {
      hide Less;
      LessIrreflexive(find);
      var top, bottom: int := size as int - 1, 0;
      while top >= bottom
        invariant 0 <= bottom <= top + 1 <= size
        invariant forall i | 0 <= i < bottom :: Less(item[index[i]], find)
        invariant forall i | top < i < size :: Less(find, item[index[i]])
      {
        var key := (top - bottom) / 2 + bottom;
        var cmp := Order(find, item[index[key]]);
        if cmp == 0 {
          return key;
        }
        LessTotal(find, item[index[key]]);
        if cmp < 0 {
          BelowAll(item, index, key, find);
          top := key - 1;
        } else {
          AboveAll(item, index, key, find);
          bottom := key + 1;
        }
      }
      forall i | 0 <= i < size
        ensures !(Less(find, item[index[i]]) && Less(item[index[i]], find))
      {
        if Less(find, item[index[i]]) && Less(item[index[i]], find) {
          LessTransitive(find, item[index[i]], find);
        }
      }
      return -bottom - 1;
    }

    /** insert_index; the very first entry goes to position 0 whatever the caller asks for. */
    method InsertIndex(newIndex: int)
      requires |index| == size && (size > 0 ==> 0 <= newIndex <= size)
      modifies this`index, this`size
      ensures size == old(size) + 1
      ensures index == InsertAt(old(index), if old(size) == 0 then 0 else newIndex, old(size))
    {
      var position := newIndex;
      if size == 0 {
        position := 0;
      }
      index := index + [0];
      var cnt := size;
      while cnt > position
        invariant position <= cnt <= size && |index| == size + 1
        invariant forall i | 0 <= i < cnt :: index[i] == old(index)[i]
        invariant forall i | cnt < i <= size :: index[i] == old(index)[i - 1]
        modifies this`index
      {
        index := index[cnt := index[cnt - 1]];
        cnt := cnt - 1;
      }
      index := index[position := size];
      size := size + 1;
    }

    /** move_index. */
    method MoveIndex(oldindex: nat, newindex: nat)
      requires oldindex < |index| && newindex <= |index|
      modifies this`index
      ensures index == Moved(old(index), oldindex, newindex)
    {
      hide Moved;
      var to := newindex;
      if to > oldindex {
        to := to - 1;
      }
      MovedAt(index, oldindex, newindex);
      if to == oldindex {
        assert index == Moved(index, oldindex, newindex);
        return;
      }
      var temp := index[oldindex];
      if oldindex < to {
        ShiftDown(oldindex, to);
      } else {
        ShiftUp(oldindex, to);
      }
      index := index[to := temp];
    }

    /** Every entry from `from` up to `to` is replaced by the next one. */
    method ShiftDown(from: nat, to: nat)
      requires from < to < |index|
      modifies this`index
      ensures |index| == |old(index)|
      ensures forall i | 0 <= i < |index| :: index[i] == old(index)[if from <= i < to then i + 1 else i]
    {
      for at := from to to
        invariant |index| == |old(index)|
        invariant forall i | 0 <= i < |index| :: index[i] == old(index)[if from <= i < at then i + 1 else i]
      {
        index := index[at := index[at + 1]];
      }
    }

    /** Every entry from `from` down to `to` is replaced by the one before. */
    method ShiftUp(from: nat, to: nat)
      requires to < from < |index|
      modifies this`index
      ensures |index| == |old(index)|
      ensures forall i | 0 <= i < |index| :: index[i] == old(index)[if to < i <= from then i - 1 else i]
    {
      var at := from;
      while at > to
        invariant to <= at <= from && |index| == |old(index)|
        invariant forall i | 0 <= i < |index| :: index[i] == old(index)[if at < i <= from then i - 1 else i]
      {
        index := index[at := index[at - 1]];
        at := at - 1;
      }
    }

    /** find_index: the one position that refers to the item, whether or not other items have its text. */
    method FindIndex(k: nat) returns (search: nat)
      requires Valid() && k < size
      ensures search < size && index[search] == k
      ensures forall i | 0 <= i < size && index[i] == k :: i == search
    {
      hide Less;
      search := 0;
      assert k in index;
      ghost var p :| 0 <= p < size && index[p] == k;
      if size >= ARRAY_THRESHOLD {
        var at := FindItem(item[k]);
        ghost var start := at;
        while at >= 0 && Order(item[index[at]], item[k]) == 0
          invariant -1 <= at <= start < size
          invariant forall i | at < i <= start :: item[index[i]] == item[k]
          invariant at == start ==> item[index[at]] == item[k]
        {
          at := at - 1;
        }
        if at >= 0 && p < at {
          Between(item, index, p, at, at + 1);
        }
        search := at + 1;
      }
      while index[search] != k && search < size
        invariant search <= p
        decreases p - search
      {
        search := search + 1;
      }
    }

    /** setitem for an item there is. */
    method Replace(k: nat, text: string)
      requires Valid() && k < size
      modifies this
      ensures Valid() && item == old(item)[k := text]
    {
      hide Moved, Permutation, Sorted, Fits, Less;
      IndexInRange(index, size);
      var oldindex := FindIndex(k);
      var at := FindItem(text);
      at := if at >= 0 then at else -at - 1;
      FitsInRange(item, index, at, text);
      ReplaceSorted(item, index, oldindex, at, text);
      MoveIndex(oldindex, at);
      item := item[k := text];
    }

    /** setitem for the item after the last. */
    method Append(text: string)
      requires Valid()
      modifies this
      ensures Valid() && item == old(item) + [text]
    {
      hide InsertAt, Permutation, Sorted, Less, Fits;
      IndexInRange(index, size);
      item := item + [text];
      MoreItems(old(item), index, text);
      var at := FindItem(text);
      at := if at >= 0 then at else -at - 1;
      FitsInRange(item, index, at, text);
      InsertSorted(item, index, at, size);
      InsertPermutation(index, at);
      InsertIndex(at);
      assert index == InsertAt(old(index), at, old(size));
    }

    /** delitem, as long as another item is left. */
    method DeleteItem(k: nat)
      requires Valid() && k < size && size > 1
      modifies this
      ensures Valid() && item == RemoveAt(old(item), k)
    {
      var oldindex := FindIndex(k);
      Drop(oldindex, k);
    }

    /** Take out item `k`, which the index has at `oldindex`, and renumber those after it. */
    method Drop(oldindex: nat, k: nat)
      requires Valid() && oldindex < size && index[oldindex] == k
      modifies this
      ensures Valid() && item == RemoveAt(old(item), k) && size == old(size) - 1
      ensures index == RenumberedAll(RemoveAt(old(index), oldindex), k)
    {
      hide Moved, Permutation, Sorted, Less, RemoveAt;
      IndexInRange(index, size);
      DeleteSorted(item, index, oldindex);
      DeletedIndex(index, oldindex, k);
      for cnt := 0 to size
        invariant |index| == size
        invariant forall i | 0 <= i < size ::
                      index[i] == if i < cnt then Renumbered(old(index)[i], k) else old(index)[i]
        modifies this`index
      {
        if index[cnt] > k {
          index := index[cnt := index[cnt] - 1];
        }
      }
      assert index == RenumberedAll(old(index), k);
      MoveIndex(oldindex, size);
      size := size - 1;
      CloseGap(k);
      index := index[..size];
    }

    /** The items after `k` move down by one. */
    method CloseGap(k: nat)
      requires |item| == size + 1 && k <= size
      modifies this`item
      ensures item == RemoveAt(old(item), k)
    {
      for cnt := k to size
        invariant |item| == size + 1
        invariant forall i | 0 <= i <= size :: item[i] == old(item)[if k <= i < cnt then i + 1 else i]
      {
        item := item[cnt := item[cnt + 1]];
      }
      item := item[..size];
      RemovedAt(old(item), k);
    }
  }

  lemma IndexInRange(index: seq<nat>, n: nat)
    requires Permutation(index, n)
    ensures |index| == n && forall i | 0 <= i < n :: index[i] < n
  {
  }

  lemma FitsInRange(item: seq<string>, index: seq<nat>, p: int, text: string)
    requires Covers(item, index) && Fits(item, index, p, text)
    ensures 0 <= p <= |index|
  {
  }

  lemma MoreItems(item: seq<string>, index: seq<nat>, text: string)
    requires Covers(item, index) && Sorted(item, index)
    ensures Covers(item + [text], index) && Sorted(item + [text], index)
  {
    hide Less;
  }

  /** Equal texts are next to each other. */
  lemma Between(item: seq<string>, index: seq<nat>, i: nat, j: nat, k: nat)
    requires Covers(item, index) && Sorted(item, index)
    requires i < j < k < |index| && item[index[i]] == item[index[k]]
    ensures item[index[j]] == item[index[i]]
  {
    hide Less;
    LessTotal(item[index[i]], item[index[j]]);
  }

  lemma BelowAll(item: seq<string>, index: seq<nat>, key: nat, find: string)
    requires Covers(item, index) && Sorted(item, index) && key < |index| && Less(find, item[index[key]])
    ensures forall i | key <= i < |index| :: Less(find, item[index[i]])
  {
    hide Less;
    forall i | key <= i < |index|
      ensures Less(find, item[index[i]])
    {
      LessTotal(item[index[key]], item[index[i]]);
      if Less(item[index[key]], item[index[i]]) {
        LessTransitive(find, item[index[key]], item[index[i]]);
      }
    }
  }

  lemma AboveAll(item: seq<string>, index: seq<nat>, key: nat, find: string)
    requires Covers(item, index) && Sorted(item, index) && key < |index| && Less(item[index[key]], find)
    ensures forall i | 0 <= i <= key :: Less(item[index[i]], find)
  {
    hide Less;
    forall i | 0 <= i <= key
      ensures Less(item[index[i]], find)
    {
      LessTotal(item[index[i]], item[index[key]]);
      if Less(item[index[i]], item[index[key]]) {
        LessTransitive(item[index[i]], item[index[key]], find);
      }
    }
  }
}
