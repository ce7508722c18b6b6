/** The linked hook lists of source/hook.c: insertion, removal, and the walk of do_hook. */
module HookList {
  import opened Lists
  import opened Names
  import opened Hooks

  class Hook {
    var nick: string
    var sernum: Int
    var stuff: string
    var noisy: int
    var negated: bool
    var flexible: bool
    var next: Hook?

    ghost function Value(): Entry
      reads `nick, `sernum, `stuff, `noisy, `negated, `flexible
    {
      Entry(nick, sernum, stuff, noisy, negated, flexible)
    }

    constructor ()
    {
      nick, stuff, next := "", "", null;
    }
  }

  ghost function HookAt(hooks: seq<Hook>, k: int): Hook? {
    if 0 <= k < |hooks| then hooks[k] else null
  }

  /** The links run through `hooks`, each exactly once. */
  ghost predicate Linked(head: Hook?, hooks: seq<Hook>)
    reads hooks`next
  {
    && head == HookAt(hooks, 0)
    && (forall i {:trigger hooks[i].next} | 0 <= i < |hooks| :: hooks[i].next == HookAt(hooks, i + 1))
    && (forall i, j | 0 <= i < j < |hooks| :: hooks[i] != hooks[j])
  }

  ghost predicate Holds(hooks: seq<Hook>, es: seq<Entry>)
    reads hooks`nick, hooks`sernum, hooks`stuff, hooks`noisy, hooks`negated, hooks`flexible
  {
    |es| == |hooks| && forall i | 0 <= i < |hooks| :: hooks[i].Value() == es[i]
  }

  lemma HoldsInserted(hooks: seq<Hook>, es: seq<Entry>, k: nat, item: Hook)
    requires Holds(hooks, es) && k <= |hooks|
    ensures Holds(InsertAt(hooks, k, item), InsertAt(es, k, item.Value()))
  {
    InsertedAt(hooks, k, item);
    InsertedAt(es, k, item.Value());
  }

  lemma HoldsAt(hooks: seq<Hook>, es: seq<Entry>, k: nat)
    requires Holds(hooks, es) && k < |hooks|
    ensures |es| == |hooks| && hooks[k].Value() == es[k] && hooks[k] in hooks
    ensures forall h | h in RemoveAt(hooks, k) :: h in hooks
  {
  }

  lemma HoldsRemoved(hooks: seq<Hook>, es: seq<Entry>, k: nat)
    requires Holds(hooks, es) && k < |hooks|
    ensures Holds(RemoveAt(hooks, k), RemoveAt(es, k))
  {
    RemovedAt(hooks, k);
    RemovedAt(es, k);
  }

  /** my_stricmp, by sign. */
  function CompareFolded(a: string, b: string): int {
    Order(FoldAll(a), FoldAll(b))
  }

  lemma StepsOver(a: Entry, b: Entry)
    ensures Before(a, b) <==> a.sernum < b.sernum || (a.sernum == b.sernum && CompareFolded(a.nick, b.nick) < 0)
  {
    LessIrreflexive(FoldAll(a.nick));
  }

  lemma SameKey(a: Entry, nick: string, sernum: Int)
    ensures Key(a) == (sernum, FoldAll(nick)) <==> a.sernum == sernum && CompareFolded(a.nick, nick) == 0
  {
  }

  /** Link a hook in at position `k`, behind `last`. */
  method LinkIn(list: Hook?, ghost hooks: seq<Hook>, last: Hook?, item: Hook, ghost k: nat) returns (head: Hook?)
    requires Linked(list, hooks) && item !in hooks && k <= |hooks| && last == HookAt(hooks, k - 1)
    modifies hooks`next, item`next
    ensures Linked(head, InsertAt(hooks, k, item))
  {
    ghost var after := InsertAt(hooks, k, item);
    assert after == hooks[..k] + [item] + hooks[k..];
    hide InsertAt;
    head := list;
    if last != null {
      item.next := last.next;
      last.next := item;
    } else {
      item.next := list;
      head := item;
    }
    forall i | 0 <= i < |after|
      ensures after[i].next == HookAt(after, i + 1)
    {
      if i > k {
        assert after[i] == hooks[i - 1] && hooks[i - 1].next == HookAt(hooks, i);
      } else if i == k {
        assert after[i] == item && item.next == HookAt(hooks, k);
      } else if i == k - 1 {
        assert after[i] == last && after[i + 1] == item;
      } else {
        assert after[i] == hooks[i] && after[i + 1] == hooks[i + 1] && hooks[i].next == HookAt(hooks, i + 1);
      }
    }
  }

  /** Unlink the hook at position `k`, the one behind `last`. */
  method LinkOut(list: Hook?, ghost hooks: seq<Hook>, last: Hook?, tmp: Hook, ghost k: nat) returns (head: Hook?)
    requires Linked(list, hooks) && k < |hooks| && tmp == hooks[k] && last == HookAt(hooks, k - 1)
    modifies hooks`next
    ensures Linked(head, RemoveAt(hooks, k)) && tmp !in RemoveAt(hooks, k) && tmp.next == old(tmp.next)
  {
    ghost var after := RemoveAt(hooks, k);
    RemovedAt(hooks, k);
    hide RemoveAt;
    head := list;
    if last != null {
      last.next := tmp.next;
    } else {
      head := tmp.next;
    }
    forall i | 0 <= i < |after|
      ensures after[i].next == HookAt(after, i + 1) && after[i] != tmp
    {
      if i >= k {
        assert after[i] == hooks[i + 1];
      } else {
        assert after[i] == hooks[i];
      }
    }
  }

  class List {
    var list: Hook?
    ghost var hooks: seq<Hook>

    /** What the hooks hold, in order. */
    ghost var entries: seq<Entry>

    ghost predicate Valid()
      reads this, hooks
    {
      Linked(list, hooks) && Holds(hooks, entries) && Ordered(entries)
    }

    constructor ()
      ensures Valid() && entries == []
    {
      list, hooks, entries := null, [], [];
    }

    /** add_to_list, for a hook whose key is not in the list. */
    method AddToList(item: Hook)
      requires Valid() && item !in hooks
      requires Key(item.Value()) !in View(entries)
      modifies this, hooks`next, item`next
      ensures Valid() && View(entries) == View(old(entries))[Key(old(item.Value())) := old(item.Value())]
    {
      hide Ordered, Before, Key, View, Fits, Linked, Holds, InsertAt, HookAt, Less, FoldAll;
      ghost var e := item.Value();
      NotThere(entries, Key(e));
      ghost var k;
      var last;
      last, k := SeekPlace(item);
      ViewInserted(entries, k, e);
      HoldsInserted(hooks, entries, k, item);
      ghost var hs, es := InsertAt(hooks, k, item), InsertAt(entries, k, e);
      assert Holds(hs, es);
      var head := LinkIn(list, hooks, last, item, k);
      assert Holds(hs, es);
      list := head;
      assert Linked(head, hs) && Holds(hs, es);
      hooks, entries := hs, es;
    }

    /** The walk of add_to_list: past every hook that comes before the item. */
    method SeekPlace(item: Hook) returns (last: Hook?, ghost k: nat)
      requires Valid() && forall i | 0 <= i < |entries| :: Key(entries[i]) != Key(item.Value())
      ensures Fits(entries, k, item.Value()) && k <= |hooks| && last == HookAt(hooks, k - 1)
    {
      hide Ordered, Before, Key;
      ghost var e := item.Value();
      var tmp := list;
      last, k := null, 0;
      while tmp != null && (tmp.sernum < item.sernum
                            || (tmp.sernum == item.sernum && CompareFolded(tmp.nick, item.nick) < 0))
        invariant 0 <= k <= |hooks| && tmp == HookAt(hooks, k) && last == HookAt(hooks, k - 1)
        invariant forall i | 0 <= i < k :: Before(entries[i], e)
        decreases |hooks| - k
      {
        StepsOver(entries[k], e);
        last, tmp, k := tmp, tmp.next, k + 1;
      }
      if k < |hooks| {
        StepsOver(entries[k], e);
      }
      StopFits(entries, k, e);
    }

    /** remove_from_list. */
    method RemoveFromList(item: string, sernum: Int) returns (found: Hook?)
      requires Valid()
      modifies this, hooks`next
      ensures Valid() && forall h | h in hooks :: h in old(hooks)
      ensures var key, was := (sernum, FoldAll(item)), View(old(entries));
              View(entries) == was - {key}
              && if key in was then found in old(hooks) && found !in hooks && found.Value() == was[key]
                 else found == null
    {
      hide Ordered, Before, Key, View, Linked, Holds, RemoveAt, HookAt, Less;
      var last, tmp;
      ghost var k;
      last, tmp, k := SeekKey(item, sernum);
      NotThere(entries, (sernum, FoldAll(item)));
      if tmp == null {
        return null;
      }
      ViewRemoved(entries, k);
      InView(entries, k);
      HoldsRemoved(hooks, entries, k);
      HoldsAt(hooks, entries, k);
      ghost var hs, es := RemoveAt(hooks, k), RemoveAt(entries, k);
      assert Holds(hs, es);
      var head := LinkOut(list, hooks, last, tmp, k);
      assert Holds(hs, es);
      list := head;
      assert Linked(head, hs) && Holds(hs, es);
      hooks, entries := hs, es;
      return tmp;
    }

    /** The walk of remove_from_list: to the hook of this serial number and nick. */
    method SeekKey(item: string, sernum: Int) returns (last: Hook?, tmp: Hook?, ghost k: nat)
      requires Valid()
      ensures var key := (sernum, FoldAll(item));
              if tmp == null then forall i | 0 <= i < |entries| :: Key(entries[i]) != key
              else
                && k < |hooks| && k < |entries| && tmp == hooks[k] && Key(entries[k]) == key
                && last == HookAt(hooks, k - 1)
    {
      hide Ordered, Key;
      ghost var key := (sernum, FoldAll(item));
      last, tmp, k := null, list, 0;
      while tmp != null && !(tmp.sernum == sernum && CompareFolded(tmp.nick, item) == 0)
        invariant 0 <= k <= |hooks| && tmp == HookAt(hooks, k) && last == HookAt(hooks, k - 1)
        invariant forall i | 0 <= i < k :: Key(entries[i]) != key
        decreases |hooks| - k
      {
        SameKey(entries[k], item, sernum);
        last, tmp, k := tmp, tmp.next, k + 1;
      }
      if tmp != null {
        SameKey(entries[k], item, sernum);
      }
    }

    /** add_hook: any hook of the same serial number and nick is replaced. */
    method AddHook(nick: string, stuff: string, noisy: int, negated: bool, sernum: Int, flexible: bool)
      requires Valid()
      modifies this, hooks
      ensures Valid()
      ensures View(entries) == View(old(entries))[(sernum, FoldAll(nick)) :=
                                 Entry(Upper(nick), sernum, stuff, noisy, negated, flexible)]
    {
      hide Ordered, Before, View, Linked, Holds;
      UpperFolds(nick);
      var newHook := RemoveFromList(nick, sernum);
      if newHook == null {
        newHook := new Hook();
      }
      Fill(newHook, Upper(nick), stuff, noisy, negated, sernum, flexible);
      assert forall i | 0 <= i < |hooks| :: hooks[i] in old(hooks);
      AddToList(newHook);
    }

    /** remove_hook without a nick: every hook of the serial number, or every hook for number 0. */
    method RemoveLevel(sernum: Int)
      requires Valid()
      modifies this, hooks
      ensures Valid() && View(entries) == WithoutLevel(View(old(entries)), sernum)
      ensures forall k | k in View(old(entries)) :: k in View(entries) <==> sernum != 0 && k.0 != sernum
    {
      hide Ordered, Before, View, Key, Linked, Holds, HookAt, RemoveAt, WithoutLevel, OtherLevels;
      var top := list;
      var tmp := top;
      var prev: Hook? := null;
      ghost var hs, es, p := hooks, entries, 0;
      LinkedAt(top, hs, p);
      HoldsLength(hs, es);
      NoneYet(es, sernum);
      while tmp != null
        invariant Linked(top, hs) && Holds(hs, es) && Ordered(es) && p <= |hs| == |es|
        invariant tmp == HookAt(hs, p) && prev == HookAt(hs, p - 1) && (tmp == null ==> p == |hs|)
        invariant forall i | 0 <= i < |hs| :: hs[i] in old(hooks)
        invariant WithoutLevel(View(es), sernum) == WithoutLevel(View(old(entries)), sernum)
        invariant OtherLevels(es, p, sernum)
        decreases |hs| - p
        modifies hooks
      {
        LinkedAt(top, hs, p);
        HoldsAt(hs, es, p);
        assert tmp.Value() == es[p] && tmp.sernum == es[p].sernum;
        var next := tmp.next;
        if sernum != 0 && tmp.sernum != sernum {
          OneMoreOther(es, p, sernum);
          prev := tmp;
          p := p + 1;
        } else {
          top := DropAt(top, hs, es, prev, tmp, p);
          DropFacts(hs, es, p, sernum, old(hooks));
          hs, es := RemoveAt(hs, p), RemoveAt(es, p);
        }
        tmp := next;
        LinkedAt(top, hs, p);
      }
      assert p == |es|;
      NoneOfLevel(es, sernum);
      list := top;
      hooks, entries := hs, es;
      LevelKept(View(old(entries)), sernum);
    }

    /** The walk of do_hook: for each serial number that any hook scores under, in ascending order, the first
        of its best, so as many as there are such serial numbers: its array is too small exactly if they are
        more than 2048. A serial number smaller than the one before, which it takes for a fatal error, never
        comes up. */
    method Collect(score: Entry -> int) returns (hookArray: seq<Hook>)
      requires Valid()
      ensures forall h | h in hookArray :: exists i | 0 <= i < |hooks| == |entries| ::
                hooks[i] == h && Best(entries, |entries|, score, i)
      ensures forall i | 0 <= i < |hooks| == |entries| && Best(entries, |entries|, score, i) :: hooks[i] in hookArray
      ensures forall m, n | 0 <= m < n < |hookArray| :: hookArray[m].sernum < hookArray[n].sernum
      ensures |hookArray| == |Levels(entries, score)|
    {
      hide Levels, Before, Holds, Best, Ordered, Walked, Linked, HookAt, Collected, Chosen;
      hookArray := [];
      ghost var picked: seq<nat> := [];
      var currser, oldser, currmatch, oldmatch := 0, INT_MIN, 0, 0;
      var bestmatch: Hook? := null;
      ghost var k, b := 0, -1;
      HoldsLength(hooks, entries);
      NotWalked(entries, score);
      ChosenNone(hooks);
      var tmp := list;
      LinkedAt(list, hooks, k);
      while tmp != null
        invariant 0 <= k <= |hooks| == |entries| && tmp == HookAt(hooks, k) && (tmp == null <==> k == |hooks|)
        invariant oldser == if k == 0 then INT_MIN else entries[k - 1].sernum
        invariant Chosen(hooks, hookArray, picked, bestmatch, b)
        invariant Walked(entries, k, score, picked, b, oldser, oldmatch)
        decreases |hooks| - k
      {
        LinkedAt(list, hooks, k);
        LinkedAt(list, hooks, k + 1);
        HoldsAt(hooks, entries, k);
        NeverBack(entries, k);
        ChosenMore(hooks, hookArray, picked, bestmatch, b, k);
        currser := tmp.sernum;
        if currser != oldser {
          assert !(currser < oldser);
          NextLevel(entries, k, score, picked, b, oldser, oldmatch);
          oldser := currser;
          oldmatch := 0;
          if bestmatch != null {
            hookArray := hookArray + [bestmatch];
          }
          picked, bestmatch, b := Collected(picked, b), null, -1;
          ChosenMore(hooks, hookArray, picked, bestmatch, b, k);
        }
        currmatch := score(Entry(tmp.nick, tmp.sernum, tmp.stuff, tmp.noisy, tmp.negated, tmp.flexible));
        OneMore(entries, k, score, picked, b, oldser, oldmatch);
        if currmatch > oldmatch {
          oldmatch := currmatch;
          bestmatch, b := tmp, k;
        }
        tmp, k := tmp.next, k + 1;
      }
      Finished(entries, score, picked, b, oldser, oldmatch);
      ChosenMore(hooks, hookArray, picked, bestmatch, b, 0);
      if bestmatch != null {
        hookArray := hookArray + [bestmatch];
      }
      picked := Collected(picked, b);
      ChosenAll(hooks, entries, hookArray, picked, score);
    }

    /** Fill in a hook that is not in the list. */
    method Fill(hook: Hook, nick: string, stuff: string, noisy: int, negated: bool, sernum: Int, flexible: bool)
      requires Valid() && hook !in hooks
      modifies hook
      ensures Valid() && hook.Value() == Entry(nick, sernum, stuff, noisy, negated, flexible)
    {
      hide Ordered;
      hook.nick, hook.sernum, hook.stuff := nick, sernum, stuff;
      hook.noisy, hook.negated, hook.flexible, hook.next := noisy, negated, flexible, null;
    }
  }

  /** The hooks collected are those at the positions picked, and the best so far is that at position `b`. */
  ghost predicate Chosen(hooks: seq<Hook>, hookArray: seq<Hook>, picked: seq<nat>, bestmatch: Hook?, b: int) {
    && |hookArray| == |picked|
    && (forall m | 0 <= m < |picked| :: picked[m] < |hooks| && hookArray[m] == hooks[picked[m]])
    && if bestmatch == null then b == -1 else 0 <= b < |hooks| && bestmatch == hooks[b]
  }

  lemma ChosenNone(hooks: seq<Hook>)
    ensures Chosen(hooks, [], [], null, -1)
  {
  }

  lemma ChosenAll(hooks: seq<Hook>, es: seq<Entry>, hookArray: seq<Hook>, picked: seq<nat>, score: Entry -> int)
    requires Chosen(hooks, hookArray, picked, null, -1) && Holds(hooks, es)
    requires forall i | 0 <= i < |es| :: i in picked <==> Best(es, |es|, score, i)
    requires forall m | 0 <= m < |picked| :: picked[m] < |es|
    requires forall m, n | 0 <= m < n < |picked| :: es[picked[m]].sernum < es[picked[n]].sernum
    ensures forall h | h in hookArray :: exists i | 0 <= i < |hooks| == |es| ::
              hooks[i] == h && Best(es, |es|, score, i)
    ensures forall i | 0 <= i < |hooks| == |es| && Best(es, |es|, score, i) :: hooks[i] in hookArray
    ensures forall m, n | 0 <= m < n < |hookArray| :: hookArray[m].sernum < hookArray[n].sernum
    ensures |hookArray| == |Levels(es, score)|
  {
    hide Best;
    OnePerLevel(es, score, picked);
    forall h | h in hookArray
      ensures exists i | 0 <= i < |hooks| == |es| :: hooks[i] == h && Best(es, |es|, score, i)
    {
      var m :| 0 <= m < |hookArray| && hookArray[m] == h;
      assert hooks[picked[m]] == h && picked[m] in picked;
    }
    forall i | 0 <= i < |hooks| == |es| && Best(es, |es|, score, i)
      ensures hooks[i] in hookArray
    {
      var m :| 0 <= m < |picked| && picked[m] == i;
      assert hookArray[m] == hooks[i];
    }
    forall m, n | 0 <= m < n < |hookArray|
      ensures hookArray[m].sernum < hookArray[n].sernum
    {
      assert hooks[picked[m]].Value() == es[picked[m]] && hooks[picked[n]].Value() == es[picked[n]];
    }
  }

  lemma ChosenMore(hooks: seq<Hook>, hookArray: seq<Hook>, picked: seq<nat>, bestmatch: Hook?, b: int, k: nat)
    requires Chosen(hooks, hookArray, picked, bestmatch, b)
    ensures bestmatch == null ==> Chosen(hooks, hookArray, Collected(picked, b), null, -1)
    ensures bestmatch != null ==> Chosen(hooks, hookArray + [bestmatch], Collected(picked, b), null, -1)
    ensures k < |hooks| ==> Chosen(hooks, hookArray, picked, hooks[k], k)
  {
  }

  ghost function WithoutLevel(m: map<(Int, string), Entry>, sernum: Int): map<(Int, string), Entry> {
    map k | k in m && sernum != 0 && k.0 != sernum :: m[k]
  }

  lemma LevelKept(m: map<(Int, string), Entry>, sernum: Int)
    ensures forall k | k in m :: k in WithoutLevel(m, sernum) <==> sernum != 0 && k.0 != sernum
  {
  }

  lemma RemovedLevel(m: map<(Int, string), Entry>, key: (Int, string), sernum: Int)
    requires sernum == 0 || key.0 == sernum
    ensures WithoutLevel(m - {key}, sernum) == WithoutLevel(m, sernum)
  {
  }

  lemma {:induction false} DropFacts(hooks: seq<Hook>, es: seq<Entry>, k: nat, sernum: Int, all: seq<Hook>)
    requires Ordered(es) && k < |hooks| == |es| && (sernum == 0 || es[k].sernum == sernum)
    requires forall i | 0 <= i < |hooks| :: hooks[i] in all
    ensures Ordered(RemoveAt(es, k)) && WithoutLevel(View(RemoveAt(es, k)), sernum) == WithoutLevel(View(es), sernum)
    ensures forall i | 0 <= i < |hooks| - 1 :: RemoveAt(hooks, k)[i] in all
    ensures OtherLevels(es, k, sernum) ==> OtherLevels(RemoveAt(es, k), k, sernum)
    ensures HookAt(RemoveAt(hooks, k), k) == HookAt(hooks, k + 1)
    ensures HookAt(RemoveAt(hooks, k), k - 1) == HookAt(hooks, k - 1)
  {
    hide View, Key, Ordered, WithoutLevel;
    ViewRemoved(es, k);
    KeyLevel(es[k]);
    RemovedLevel(View(es), Key(es[k]), sernum);
    NextAfter(hooks, k);
    RemovedAt(hooks, k);
    RemovedAt(es, k);
  }

  lemma KeyLevel(e: Entry)
    ensures Key(e).0 == e.sernum
  {
  }

  ghost predicate OtherLevels(es: seq<Entry>, k: nat, sernum: Int) {
    k <= |es| && (k > 0 ==> sernum != 0) && forall i | 0 <= i < k :: es[i].sernum != sernum
  }

  lemma NoneYet(es: seq<Entry>, sernum: Int)
    ensures OtherLevels(es, 0, sernum)
  {
  }

  lemma OneMoreOther(es: seq<Entry>, k: nat, sernum: Int)
    requires OtherLevels(es, k, sernum) && k < |es| && sernum != 0 && es[k].sernum != sernum
    ensures OtherLevels(es, k + 1, sernum)
  {
  }

  lemma NoneOfLevel(es: seq<Entry>, sernum: Int)
    requires Ordered(es) && OtherLevels(es, |es|, sernum)
    ensures WithoutLevel(View(es), sernum) == View(es)
  {
    hide Ordered, Before;
    forall k | k in View(es)
      ensures sernum != 0 && k.0 != sernum
    {
      var e := View(es)[k];
      var i :| 0 <= i < |es| && es[i] == e;
    }
  }

  lemma LinkedAt(head: Hook?, hooks: seq<Hook>, k: nat)
    requires Linked(head, hooks) && k <= |hooks|
    ensures head == HookAt(hooks, 0) && (HookAt(hooks, k) == null <==> k == |hooks|)
    ensures k < |hooks| ==> HookAt(hooks, k) == hooks[k] && hooks[k].next == HookAt(hooks, k + 1)
    ensures HookAt(hooks, -1) == null
  {
  }

  lemma NextAfter(hooks: seq<Hook>, k: nat)
    requires k < |hooks|
    ensures HookAt(RemoveAt(hooks, k), k) == HookAt(hooks, k + 1)
    ensures HookAt(RemoveAt(hooks, k), k - 1) == HookAt(hooks, k - 1)
  {
  }

  lemma HoldsLength(hooks: seq<Hook>, es: seq<Entry>)
    requires Holds(hooks, es)
    ensures |hooks| == |es|
  {
  }

  /** Unlink the hook at position `k`, mark it and free it. */
  method DropAt(list: Hook?, ghost hooks: seq<Hook>, ghost es: seq<Entry>, prev: Hook?, tmp: Hook, ghost k: nat)
    returns (head: Hook?)
    requires Linked(list, hooks) && Holds(hooks, es) && k < |hooks| && k < |es| && tmp == hooks[k]
    requires prev == HookAt(hooks, k - 1)
    modifies hooks
    ensures Linked(head, RemoveAt(hooks, k)) && Holds(RemoveAt(hooks, k), RemoveAt(es, k))
  {
    HoldsRemoved(hooks, es, k);
    ghost var hs, es2 := RemoveAt(hooks, k), RemoveAt(es, k);
    hide RemoveAt, HookAt;
    assert Holds(hs, es2);
    head := LinkOut(list, hooks, prev, tmp, k);
    assert Holds(hs, es2);
    tmp.negated := true;
    tmp.next := null;
  }

  lemma InView(es: seq<Entry>, k: nat)
    requires Ordered(es) && k < |es|
    ensures Key(es[k]) in View(es) && View(es)[Key(es[k])] == es[k]
  {
  }

  lemma NotThere(es: seq<Entry>, key: (Int, string))
    requires Ordered(es)
    ensures key in View(es) <==> exists i :: 0 <= i < |es| && Key(es[i]) == key
  {
  }
}
