/** The table of meta maps (source/keys.c): `keys`, of which `currKeysSize` maps are in use. */
module KeyTable {
  import opened Keys

  /** The bindings of a map without those that lead to a state from `size` on. */
  ghost function WithoutDangling(m: MetaMap, size: nat): MetaMap {
    map c | c in m && m[c].index > -(size as int) :: m[c]
  }

  /** What resize_metamap makes of the maps in use. */
  ghost function Resized(maps: seq<MetaMap>, size: nat): (r: seq<MetaMap>)
    ensures |r| == size
  {
    if size >= |maps| then maps + seq(size - |maps|, i => map[])
    else seq(size, i requires 0 <= i < size => WithoutDangling(maps[i], size))
  }

  /** Resizing leaves no binding that leads out of the table, and keeps every other binding there is room
      for. */
  lemma ResizedInRange(maps: seq<MetaMap>, size: nat)
    requires InRange(maps)
    ensures InRange(Resized(maps, size))
    ensures forall i, c | 0 <= i < size && i < |maps| && c in maps[i] ::
              if -maps[i][c].index < size then c in Resized(maps, size)[i] && Resized(maps, size)[i][c] == maps[i][c]
              else c !in Resized(maps, size)[i]
  {
  }

  /** Growing and shrinking back loses nothing. */
  lemma GrowThenShrink(maps: seq<MetaMap>, size: nat)
    requires InRange(maps) && size >= |maps|
    ensures Resized(Resized(maps, size), |maps|) == maps
  {
    if size > |maps| {
      forall i | 0 <= i < |maps|
        ensures Resized(Resized(maps, size), |maps|)[i] == maps[i]
      {
        assert WithoutDangling(maps[i], |maps|) == maps[i];
      }
    }
  }

  class Table {
    var keys: seq<MetaMap>
    var currKeysSize: nat

    /** Maps that are not in use are empty. */
    ghost predicate Valid()
      reads this
    {
      && currKeysSize <= |keys|
      && (forall i | currKeysSize <= i < |keys| :: keys[i] == map[])
      && InRange(Maps())
    }

    ghost function Maps(): (r: seq<MetaMap>)
      requires currKeysSize <= |keys|
      reads this
    {
      keys[..currKeysSize]
    }

    constructor ()
      ensures Valid() && Maps() == []
    {
      keys, currKeysSize := [], 0;
    }

    /** resize_metamap. A size under 5 draws a message but is carried out all the same. */
    method ResizeMetamap(newSize: nat)
      requires Valid()
      modifies this
      ensures Valid() && Maps() == Resized(old(Maps()), newSize)
      ensures |Maps()| == newSize && forall i | |old(Maps())| <= i < newSize :: Maps()[i] == map[]
    {
      hide InRange, WithoutDangling;
      ghost var maps := Maps();
      ResizedInRange(maps, newSize);
      if currKeysSize == newSize {
        assert Maps() == Resized(maps, newSize);
        return;
      }
      if currKeysSize < newSize {
        if newSize > |keys| {
          keys := keys[..currKeysSize] + seq(newSize - currKeysSize, i => map[]);
        }
        currKeysSize := newSize;
        assert Maps() == Resized(maps, newSize);
      } else {
        for i := newSize to currKeysSize
          invariant |keys| == |old(keys)| && currKeysSize == old(currKeysSize)
          invariant forall j | newSize <= j < i || currKeysSize <= j < |keys| :: keys[j] == map[]
          invariant forall j | 0 <= j < newSize || i <= j < currKeysSize :: keys[j] == old(keys)[j]
        {
          keys := keys[i := map[]];
        }
        currKeysSize := newSize;
        for i := 0 to newSize
          invariant |keys| == |old(keys)| && currKeysSize == newSize
          invariant forall j | newSize <= j < |keys| :: keys[j] == map[]
          invariant forall j | 0 <= j < newSize ::
                      keys[j] == if j < i then WithoutDangling(old(keys)[j], newSize) else old(keys)[j]
        {
          var kept := CollectDangling(keys[i], newSize);
          keys := keys[i := kept];
        }
        assert Maps() == Resized(maps, newSize);
      }
    }

    /** find_meta_map. */
    method FindMetaMap(key: Key) returns (curr: nat)
      requires Valid() && currKeysSize >= FIRST_FREE
      modifies this
      ensures Valid() && (Maps(), curr) == FindMap(old(Maps()), key)
      ensures 5 <= curr < |Maps()| && key !in Maps()[curr]
      ensures forall i | 5 <= i < |old(Maps())| && (i > curr || curr == |old(Maps())|) :: key in old(Maps())[i]
      ensures if curr < |old(Maps())| then Maps() == old(Maps()) else Maps() == old(Maps()) + [map[]]
    {
      hide InRange, Resized;
      FindKeeps(Maps(), key);
      ghost var maps := Maps();
      curr := currKeysSize - 1;
      while curr > 4
        invariant 4 <= curr < currKeysSize && Maps() == maps && Valid()
        invariant Highest(maps, key, currKeysSize - 1) == Highest(maps, key, curr)
        decreases curr
      {
        if key !in keys[curr] {
          return;
        }
        curr := curr - 1;
      }
      OneMore(maps);
      ResizeMetamap(currKeysSize + 1);
      curr := currKeysSize - 1;
    }

    /** new_key. */
    method NewKey(meta: nat, chr: Key, kind: int, change: bool, stuff: string)
      requires currKeysSize <= |keys| && meta < currKeysSize
      requires forall i | currKeysSize <= i < |keys| :: keys[i] == map[]
      requires InRange(Bind(Maps(), meta, chr, kind, change, stuff))
      modifies this`keys
      ensures Valid() && Maps() == Bind(old(Maps()), meta, chr, kind, change, stuff)
      ensures |Maps()| == |old(Maps())|
      ensures kind == 0 ==> chr !in Maps()[meta]
      ensures kind != 0 ==> chr in Maps()[meta] && Maps()[meta][chr] == KeyMap(kind, change, stuff)
      ensures forall i, c | 0 <= i < |Maps()| && (i != meta || c != chr) ::
                (c in Maps()[i] <==> c in old(Maps())[i])
                && (c in Maps()[i] ==> Maps()[i][c] == old(Maps())[i][c])
    {
      hide InRange;
      ghost var maps := Maps();
      keys := keys[meta := keys[meta] - {chr}];
      if kind != 0 {
        var bound: MetaMap := keys[meta][chr := KeyMap(kind, change, stuff)];
        keys := keys[meta := bound];
        assert bound == old(keys)[meta][chr := KeyMap(kind, change, stuff)];
      }
      assert Maps() == Bind(maps, meta, chr, kind, change, stuff);
    }

    /** parse_key, on what follows any leading META description. */
    method ParseKey(start: nat, sequence: seq<Key>) returns (returnMeta: nat, term: Key)
      requires Valid() && currKeysSize >= FIRST_FREE && start < currKeysSize
      modifies this
      ensures Valid() && (Maps(), returnMeta, term) == Parsed(old(Maps()), start, sequence)
    {
      hide InRange, FindMap, Bind, Extends, Chained, Chain, Skip, Next;
      ghost var maps := Maps();
      SkipFollows(maps, start, sequence);
      var meta, copy := SkipMeta(start, sequence);
      if |copy| < 2 {
        return meta, if copy == [] then 0 else copy[0];
      }
      var n := |copy| - 1;
      FindKeeps(maps, copy[n]);
      returnMeta := FindMetaMap(copy[n]);
      ghost var maps1 := Maps();
      ChainLinks(maps1, copy[1..n], returnMeta);
      var last := LinkBack(copy[1..n], returnMeta);
      ExtendsTrans(maps, maps1, Maps(), [], copy[1..n]);
      BindPreserves(maps, Maps(), copy[1..n] + [], meta, copy[0], last);
      NewKey(meta, copy[0], -(last as int), true, "");
      term := copy[n];
    }

    /** The loop over leading keys that are meta bindings already. */
    method SkipMeta(start: nat, sequence: seq<Key>) returns (meta: nat, copy: seq<Key>)
      requires Valid() && start < currKeysSize
      ensures (meta, copy) == Skip(Maps(), start, sequence)
    {
      hide InRange, Skip;
      ghost var maps := Maps();
      meta, copy := start, sequence;
      while |copy| > 1 && copy[0] in keys[meta] && keys[meta][copy[0]].index < 0
        invariant meta < currKeysSize && Skip(maps, meta, copy) == Skip(maps, start, sequence)
        decreases |copy|
      {
        assert maps[meta] == keys[meta];
        NextInRange(maps, meta, copy[0]);
        SkipStep(maps, meta, copy);
        meta, copy := -keys[meta][copy[0]].index, copy[1..];
      }
      assert maps[meta] == keys[meta];
      SkipStep(maps, meta, copy);
    }

    /** The loop that works backwards through the keys, linking each to the state the next one is in. */
    method LinkBack(s: seq<Key>, target: nat) returns (last: nat)
      requires Valid() && FIRST_FREE <= target < currKeysSize
      modifies this
      ensures Valid() && (Maps(), last) == Chain(old(Maps()), s, target)
      ensures FIRST_FREE <= last < currKeysSize
    {
      hide InRange, FindMap, Bind, Extends, Next;
      last := target;
      var copy := s;
      while copy != []
        invariant Valid() && FIRST_FREE <= last < currKeysSize
        invariant Chain(Maps(), copy, last) == Chain(old(Maps()), s, target)
      {
        var terminal := copy[|copy| - 1];
        FindKeeps(Maps(), terminal);
        var something := FindMetaMap(terminal);
        BindExtends(Maps(), something, terminal, last);
        NewKey(something, terminal, -(last as int), true, "");
        last := something;
        copy := copy[..|copy| - 1];
      }
    }
  }

  /** The inner loop of resize_metamap: drop the bindings of one map that lead out of the table. */
  method CollectDangling(m: MetaMap, size: nat) returns (r: MetaMap)
    ensures r == WithoutDangling(m, size)
  {
    r := m;
    for j: int := 0 to 256
      invariant forall c | c in r :: c in m && r[c] == m[c]
      invariant forall c | c in m :: c in r <==> (c >= j || m[c].index > -(size as int))
    {
      if j in r && r[j].index <= -(size as int) {
        r := r - {j};
      }
    }
  }

  lemma OneMore(maps: seq<MetaMap>)
    ensures Resized(maps, |maps| + 1) == maps + [map[]]
  {
  }

  lemma SkipStep(maps: seq<MetaMap>, meta: nat, s: seq<Key>)
    ensures Skip(maps, meta, s)
            == if |s| > 1 && Next(maps, meta, s[0]) > 0 then Skip(maps, Next(maps, meta, s[0]), s[1..]) else (meta, s)
  {
    hide Next;
  }

  lemma NextInRange(maps: seq<MetaMap>, meta: nat, c: Key)
    requires InRange(maps) && meta < |maps|
    ensures Next(maps, meta, c) < |maps| || Next(maps, meta, c) == 0
  {
  }
}
