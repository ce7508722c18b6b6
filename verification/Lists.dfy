/** Taking an element out of a list and putting one in. */
module Lists {

  function RemoveAt<T>(s: seq<T>, k: nat): (r: seq<T>)
    requires k < |s|
    ensures |r| == |s| - 1
  {
    s[..k] + s[k + 1..]
  }

  function InsertAt<T>(s: seq<T>, k: nat, x: T): (r: seq<T>)
    requires k <= |s|
    ensures |r| == |s| + 1
  {
    s[..k] + [x] + s[k..]
  }

  lemma InsertedAt<T>(s: seq<T>, k: nat, x: T)
    requires k <= |s|
    ensures forall i | 0 <= i < |s| + 1 ::
              InsertAt(s, k, x)[i] == if i < k then s[i] else if i == k then x else s[i - 1]
    ensures x in InsertAt(s, k, x) && forall y | y in s :: y in InsertAt(s, k, x)
  {
    var r := InsertAt(s, k, x);
    assert r[k] == x;
    forall y | y in s
      ensures y in r
    {
      var i :| 0 <= i < |s| && s[i] == y;
      assert r[if i < k then i else i + 1] == y;
    }
  }

  lemma RemovedAt<T>(s: seq<T>, k: nat)
    requires k < |s|
    ensures forall i | 0 <= i < |s| - 1 :: RemoveAt(s, k)[i] == if i < k then s[i] else s[i + 1]
    ensures forall y | y in s && y != s[k] :: y in RemoveAt(s, k)
  {
    var r := RemoveAt(s, k);
    forall y | y in s && y != s[k]
      ensures y in r
    {
      var i :| 0 <= i < |s| && s[i] == y;
      assert r[if i < k then i else i - 1] == y;
    }
  }

  lemma Regroup<T>(a: seq<T>, b: seq<T>, c: seq<T>)
    ensures a + (b + c) == a + b + c
  {
  }
}
