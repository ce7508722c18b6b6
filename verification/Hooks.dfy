/** Hook lists (source/hook.c) as sequences of entries: their order, and what a walk of one selects. */
module Hooks {
  import opened Lists
  import opened Names

  const INT_MIN := -0x8000_0000

  type Int = x: int | INT_MIN <= x <= 0x7fff_ffff

  datatype Entry = Entry(nick: string, sernum: Int, stuff: string, noisy: int, negated: bool, flexible: bool)

  /** stricmp_table: letters to upper case, and the three characters after 'z' likewise. */
  function Fold(c: char): char {
    if 97 <= c as int <= 125 then (c as int - 32) as char else c
  }

  function FoldAll(s: string): (r: string)
    ensures |r| == |s|
  {
    seq(|s|, i requires 0 <= i < |s| => Fold(s[i]))
  }

  lemma UpperFolds(s: string)
    ensures FoldAll(Upper(s)) == FoldAll(s)
  {
  }

  /** The 26 pairs of letters, and the three of the brackets that scandinavian alphabets have letters for. */
  predicate SameNickChar(a: char, b: char) {
    var x, y := a as int, b as int;
    x == y || (97 <= x <= 125 && y == x - 32) || (97 <= y <= 125 && x == y - 32)
  }

  lemma FoldedMeans(a: string, b: string)
    ensures FoldAll(a) == FoldAll(b) <==> |a| == |b| && forall i | 0 <= i < |a| :: SameNickChar(a[i], b[i])
  {
    if FoldAll(a) == FoldAll(b) {
      assert |FoldAll(a)| == |a| && |FoldAll(b)| == |b|;
      forall i | 0 <= i < |a|
        ensures SameNickChar(a[i], b[i])
      {
        assert FoldAll(a)[i] == FoldAll(b)[i];
      }
    }
  }

  /** What tells the hooks of a list apart. */
  function Key(e: Entry): (Int, string) {
    (e.sernum, FoldAll(e.nick))
  }

  predicate Before(a: Entry, b: Entry) {
    a.sernum < b.sernum || (a.sernum == b.sernum && Less(FoldAll(a.nick), FoldAll(b.nick)))
  }

  lemma BeforeTransitive(a: Entry, b: Entry, c: Entry)
    requires Before(a, b) && Before(b, c)
    ensures Before(a, c)
  {
    if a.sernum == b.sernum == c.sernum {
      LessTransitive(FoldAll(a.nick), FoldAll(b.nick), FoldAll(c.nick));
    }
  }

  lemma BeforeTotal(a: Entry, b: Entry)
    ensures Before(a, b) || Before(b, a) || Key(a) == Key(b)
    ensures Before(a, b) ==> Key(a) != Key(b)
  {
    LessTotal(FoldAll(a.nick), FoldAll(b.nick));
    LessIrreflexive(FoldAll(a.nick));
  }

  /** Strictly by serial number, then nick. */
  ghost predicate Ordered(es: seq<Entry>) {
    forall i, j | 0 <= i < j < |es| :: Before(es[i], es[j])
  }

  ghost predicate Fits(es: seq<Entry>, k: int, e: Entry) {
    && 0 <= k <= |es|
    && (forall i | 0 <= i < k :: Before(es[i], e))
    && (forall i | k <= i < |es| :: Before(e, es[i]))
  }

  lemma InsertOrdered(es: seq<Entry>, k: nat, e: Entry)
    requires Ordered(es) && Fits(es, k, e)
    ensures Ordered(InsertAt(es, k, e))
  {
    hide Before;
    InsertedAt(es, k, e);
  }

  lemma RemoveOrdered(es: seq<Entry>, k: nat)
    requires Ordered(es) && k < |es|
    ensures Ordered(RemoveAt(es, k))
  {
    hide Before;
    RemovedAt(es, k);
  }

  /** The walk stops where the entry fits, if none has its key. */
  lemma StopFits(es: seq<Entry>, k: nat, e: Entry)
    requires Ordered(es) && k <= |es| && (forall i | 0 <= i < |es| :: Key(es[i]) != Key(e))
    requires (forall i | 0 <= i < k :: Before(es[i], e)) && (k < |es| ==> !Before(es[k], e))
    ensures Fits(es, k, e)
  {
    hide Before;
    forall i | k <= i < |es|
      ensures Before(e, es[i])
    {
      BeforeTotal(e, es[k]);
      if k < i {
        BeforeTransitive(e, es[k], es[i]);
      }
    }
  }

  // ---------- as a map ----------

  lemma KeysDistinct(es: seq<Entry>)
    requires Ordered(es)
    ensures forall i, j | 0 <= i < |es| && 0 <= j < |es| && Key(es[i]) == Key(es[j]) :: i == j
  {
    hide Before, Key;
    forall i, j | 0 <= i < j < |es|
      ensures Key(es[i]) != Key(es[j])
    {
      BeforeTotal(es[i], es[j]);
    }
  }

  ghost function View(es: seq<Entry>): (m: map<(Int, string), Entry>)
    requires Ordered(es)
    ensures forall i | 0 <= i < |es| :: Key(es[i]) in m && m[Key(es[i])] == es[i]
    ensures forall k | k in m :: m[k] in es && Key(m[k]) == k
  {
    KeysDistinct(es);
    map i | 0 <= i < |es| :: Key(es[i]) := es[i]
  }

  lemma ViewUnique(es: seq<Entry>, m: map<(Int, string), Entry>)
    requires Ordered(es)
    requires forall i | 0 <= i < |es| :: Key(es[i]) in m && m[Key(es[i])] == es[i]
    requires forall k | k in m :: m[k] in es && Key(m[k]) == k
    ensures m == View(es)
  {
    hide Ordered, Key;
  }

  lemma ViewInserted(es: seq<Entry>, k: nat, e: Entry)
    requires Ordered(es) && Fits(es, k, e)
    ensures Ordered(InsertAt(es, k, e)) && View(InsertAt(es, k, e)) == View(es)[Key(e) := e] && Key(e) !in View(es)
  {
    hide View, Key, Before;
    InsertOrdered(es, k, e);
    forall i | 0 <= i < |es|
      ensures Key(es[i]) != Key(e)
    {
      if i < k {
        BeforeTotal(es[i], e);
      } else {
        BeforeTotal(e, es[i]);
      }
    }
    InsertedAt(es, k, e);
    hide Fits, Ordered, InsertAt;
    ViewUnique(InsertAt(es, k, e), View(es)[Key(e) := e]);
  }

  lemma ViewRemoved(es: seq<Entry>, k: nat)
    requires Ordered(es) && k < |es|
    ensures Ordered(RemoveAt(es, k)) && View(RemoveAt(es, k)) == View(es) - {Key(es[k])}
  {
    hide View, Key, Before;
    RemoveOrdered(es, k);
    KeysDistinct(es);
    RemovedAt(es, k);
    hide Ordered, RemoveAt;
    ViewUnique(RemoveAt(es, k), View(es) - {Key(es[k])});
  }

  // ---------- what a walk selects ----------

  /** Among the first `k` entries, entry `i` is the first of its serial number with the greatest score, and
      that is above zero. */
  ghost predicate Best(es: seq<Entry>, k: nat, score: Entry -> int, i: int)
    requires k <= |es|
  {
    && 0 <= i < k && score(es[i]) > 0
    && forall j | 0 <= j < k && es[j].sernum == es[i].sernum ::
         score(es[j]) <= score(es[i]) && (j < i ==> score(es[j]) < score(es[i]))
  }

  /** A serial number has one exactly if any of its entries scores. */
  lemma {:induction false} BestExists(es: seq<Entry>, k: nat, score: Entry -> int, i: nat)
    requires k <= |es| && i < k && score(es[i]) > 0
    ensures exists b :: Best(es, k, score, b) && es[b].sernum == es[i].sernum
    decreases k
  {
    if forall j | 0 <= j < k - 1 && es[j].sernum == es[i].sernum :: score(es[j]) <= 0 {
      assert Best(es, k, score, k - 1);
    } else {
      hide Best;
      var j :| 0 <= j < k - 1 && es[j].sernum == es[i].sernum && score(es[j]) > 0;
      BestExists(es, k - 1, score, j);
      var b :| Best(es, k - 1, score, b) && es[b].sernum == es[j].sernum;
      BestOvertaken(es, k - 1, score, b);
      assert Best(es, k, score, b) || Best(es, k, score, k - 1);
    }
  }

  /** One more entry either overtakes the best of its serial number or leaves it. */
  lemma BestOvertaken(es: seq<Entry>, k: nat, score: Entry -> int, b: int)
    requires k < |es| && Best(es, k, score, b)
    ensures 0 <= b < k
    ensures if es[k].sernum == es[b].sernum && score(es[k]) > score(es[b]) then Best(es, k + 1, score, k)
            else Best(es, k + 1, score, b)
  {
  }

  /** The serial numbers that any entry scores under. */
  function Levels(es: seq<Entry>, score: Entry -> int): set<Int> {
    set i | 0 <= i < |es| && score(es[i]) > 0 :: es[i].sernum
  }

  function Sernums(es: seq<Entry>, all: seq<nat>): (r: seq<Int>)
    requires forall m | 0 <= m < |all| :: all[m] < |es|
    ensures |r| == |all|
  {
    seq(|all|, m requires 0 <= m < |all| => es[all[m]].sernum)
  }

  ghost predicate Ascending(xs: seq<Int>) {
    forall m, n | 0 <= m < n < |xs| :: xs[m] < xs[n]
  }

  function Elements(xs: seq<Int>): (s: set<Int>)
    ensures forall x :: x in s <==> x in xs
  {
    set x | x in xs
  }

  lemma {:induction false} AscendingCount(xs: seq<Int>)
    requires Ascending(xs)
    ensures |Elements(xs)| == |xs|
  {
    if xs == [] {
      assert Elements(xs) == {};
    } else {
      var init, last := xs[..|xs| - 1], xs[|xs| - 1];
      assert last !in init && Ascending(init);
      hide Ascending;
      AscendingCount(init);
      assert xs == init + [last];
      assert Elements(xs) == Elements(init) + {last};
    }
  }

  /** The best entries in ascending order are as many as the serial numbers scored under. */
  lemma OnePerLevel(es: seq<Entry>, score: Entry -> int, all: seq<nat>)
    requires forall m | 0 <= m < |all| :: all[m] < |es|
    requires forall i | 0 <= i < |es| :: i in all <==> Best(es, |es|, score, i)
    requires forall m, n | 0 <= m < n < |all| :: es[all[m]].sernum < es[all[n]].sernum
    ensures |all| == |Levels(es, score)|
  {
    var xs := Sernums(es, all);
    AscendingCount(xs);
    forall x | x in xs
      ensures x in Levels(es, score)
    {
      var m :| 0 <= m < |xs| && xs[m] == x;
      assert all[m] in all && Best(es, |es|, score, all[m]);
    }
    hide Best;
    forall x | x in Levels(es, score)
      ensures x in xs
    {
      var i :| 0 <= i < |es| && score(es[i]) > 0 && es[i].sernum == x;
      BestExists(es, |es|, score, i);
      var b :| Best(es, |es|, score, b) && es[b].sernum == x;
      BestInside(es, score, b);
      var m :| 0 <= m < |all| && all[m] == b;
      assert xs[m] == x;
    }
    assert Elements(xs) == Levels(es, score);
  }

  lemma BestInside(es: seq<Entry>, score: Entry -> int, b: int)
    requires Best(es, |es|, score, b)
    ensures 0 <= b < |es|
  {
  }

  /** Where the walk of do_hook stands before entry `k`: `picked` has been collected, `b` is the best so far
      under serial number `oldser` (-1 if there is none), with a score of `oldmatch`. */
  ghost predicate Walked(es: seq<Entry>, k: nat, score: Entry -> int, picked: seq<nat>, b: int, oldser: Int,
      oldmatch: int) {
    && k <= |es| && -1 <= b < k && oldmatch >= 0
    && (forall i | 0 <= i < k :: es[i].sernum <= oldser)
    && (forall i | 0 <= i < k :: Best(es, k, score, i) <==> i in picked || i == b)
    && (forall m | 0 <= m < |picked| :: picked[m] < k && es[picked[m]].sernum < oldser)
    && (forall m, n | 0 <= m < n < |picked| :: es[picked[m]].sernum < es[picked[n]].sernum)
    && (b < 0 ==> oldmatch == 0)
    && (b >= 0 ==> es[b].sernum == oldser && score(es[b]) == oldmatch && oldmatch > 0)
    && (forall j | 0 <= j < k && es[j].sernum == oldser ::
         score(es[j]) <= oldmatch && (j < b ==> score(es[j]) < oldmatch))
  }

  function Collected(picked: seq<nat>, b: int): seq<nat> {
    if b < 0 then picked else picked + [b as nat]
  }

  lemma NotWalked(es: seq<Entry>, score: Entry -> int)
    ensures Walked(es, 0, score, [], -1, INT_MIN, 0)
  {
  }

  lemma NeverBack(es: seq<Entry>, k: nat)
    requires Ordered(es) && k < |es|
    ensures k > 0 ==> es[k - 1].sernum <= es[k].sernum
  {
    if k > 0 {
      assert Before(es[k - 1], es[k]);
    }
  }

  lemma CollectedIn(picked: seq<nat>, b: int, i: nat)
    ensures i in Collected(picked, b) <==> i in picked || i == b
  {
  }

  /** A new serial number: the best of the last one is collected. */
  lemma NextLevel(es: seq<Entry>, k: nat, score: Entry -> int, picked: seq<nat>, b: int, oldser: Int, oldmatch: int)
    requires k < |es| && Walked(es, k, score, picked, b, oldser, oldmatch) && es[k].sernum > oldser
    ensures Walked(es, k, score, Collected(picked, b), -1, es[k].sernum, 0)
  {
    hide Best;
    forall i | 0 <= i < k
      ensures Best(es, k, score, i) <==> i in Collected(picked, b)
    {
      CollectedIn(picked, b, i);
    }
  }

  /** One more entry under the same serial number. */
  lemma OneMore(es: seq<Entry>, k: nat, score: Entry -> int, picked: seq<nat>, b: int, oldser: Int, oldmatch: int)
    requires k < |es| && Walked(es, k, score, picked, b, oldser, oldmatch) && es[k].sernum == oldser
    ensures if score(es[k]) > oldmatch then Walked(es, k + 1, score, picked, k, oldser, score(es[k]))
            else Walked(es, k + 1, score, picked, b, oldser, oldmatch)
  {
    var b2 := if score(es[k]) > oldmatch then k else b;
    forall i | 0 <= i < k + 1
      ensures Best(es, k + 1, score, i) <==> i in picked || i == b2
    {
      BestStep(es, k, score, i);
      if i in picked {
        var m :| 0 <= m < |picked| && picked[m] == i;
      }
      if i == k && score(es[k]) > oldmatch {
        assert Best(es, k + 1, score, k);
      }
    }
  }

  lemma BestStep(es: seq<Entry>, k: nat, score: Entry -> int, i: nat)
    requires k < |es| && i <= k
    ensures i < k ==> (Best(es, k + 1, score, i)
                       <==> Best(es, k, score, i) && (es[k].sernum == es[i].sernum ==> score(es[k]) <= score(es[i])))
  {
  }

  lemma Finished(es: seq<Entry>, score: Entry -> int, picked: seq<nat>, b: int, oldser: Int, oldmatch: int)
    requires Walked(es, |es|, score, picked, b, oldser, oldmatch)
    ensures var all := Collected(picked, b);
            && (forall i | 0 <= i < |es| :: i in all <==> Best(es, |es|, score, i))
            && (forall m | 0 <= m < |all| :: all[m] < |es|)
            && (forall m, n | 0 <= m < n < |all| :: es[all[m]].sernum < es[all[n]].sernum)
  {
    hide Best;
    forall i | 0 <= i < |es|
      ensures i in Collected(picked, b) <==> Best(es, |es|, score, i)
    {
      CollectedIn(picked, b, i);
    }
  }
}
