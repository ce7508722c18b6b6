/** Names, their order, and the hash the name tables search by (include/alist.h). */
module Names {

  /** A non-empty string of 7-bit characters, without the terminating zero. */
  type Name = s: string | s != "" && (forall i | 0 <= i < |s| :: 0 < s[i] as int < 128) witness "a"

  /** The character at `i`, or the terminating zero. */
  function At(s: string, i: nat): (b: int)
    ensures b >= 0
  {
    if i < |s| then s[i] as int else 0
  }

  /** strncmp: the difference of the first characters that differ among the first `n`. */
  function Compare(a: string, b: string, n: nat): int {
    if n == 0 then 0
    else if At(a, 0) != At(b, 0) then At(a, 0) - At(b, 0)
    else if a == "" || b == "" then 0
    else Compare(a[1..], b[1..], n - 1)
  }

  /** Strict dictionary order. */
  predicate Less(a: string, b: string) {
    b != "" && (a == "" || a[0] < b[0] || (a[0] == b[0] && Less(a[1..], b[1..])))
  }

  /** The strings agree before `k`, where the first has ended or has the smaller character. */
  ghost predicate DiffersAt(a: string, b: string, k: int) {
    0 <= k <= |a| && k < |b| && a[..k] == b[..k] && (k == |a| || a[k] as int < b[k] as int)
  }

  lemma {:induction false} LessMeans(a: string, b: string)
    ensures Less(a, b) <==> exists k :: DiffersAt(a, b, k)
  {
    if a != "" && b != "" && a[0] == b[0] {
      LessMeans(a[1..], b[1..]);
      if k :| DiffersAt(a[1..], b[1..], k) {
        assert a[..k + 1] == [a[0]] + a[1..][..k] && b[..k + 1] == [b[0]] + b[1..][..k];
        assert DiffersAt(a, b, k + 1);
      }
      if k :| DiffersAt(a, b, k) {
        assert k > 0 && a[1..][..k - 1] == a[..k][1..] && b[1..][..k - 1] == b[..k][1..];
        assert DiffersAt(a[1..], b[1..], k - 1);
      }
    } else if b != "" && (a == "" || a[0] < b[0]) {
      assert DiffersAt(a, b, 0);
    } else if k :| DiffersAt(a, b, k) && k > 0 {
      DiffersLater(a, b, k);
    }
  }

  lemma DiffersLater(a: string, b: string, k: int)
    requires DiffersAt(a, b, k) && k > 0
    ensures a != "" && b != "" && a[0] == b[0]
  {
    assert a[..k][0] == b[..k][0];
  }

  /** strcmp, by sign. */
  function Order(a: string, b: string): int {
    if a == b then 0 else if Less(a, b) then -1 else 1
  }

  lemma {:induction false} LessTransitive(a: string, b: string, c: string)
    requires Less(a, b) && Less(b, c)
    ensures Less(a, c)
  {
    if a != "" && a[0] == b[0] == c[0] {
      LessTransitive(a[1..], b[1..], c[1..]);
    }
  }

  lemma {:induction false} LessTotal(a: string, b: string)
    ensures Less(a, b) || Less(b, a) || a == b
  {
    if a != "" && b != "" && a[0] == b[0] {
      LessTotal(a[1..], b[1..]);
      assert a == [a[0]] + a[1..] && b == [b[0]] + b[1..];
    }
  }

  lemma {:induction false} LessIrreflexive(a: string)
    ensures !Less(a, a)
  {
    if a != "" {
      LessIrreflexive(a[1..]);
    }
  }

  function UpperChar(c: char): char {
    if 'a' <= c <= 'z' then (c as int - 32) as char else c
  }

  /** upper, for letters of the C locale. */
  function Upper(s: string): (r: string)
    ensures |r| == |s|
  {
    seq(|s|, i requires 0 <= i < |s| => UpperChar(s[i]))
  }

  /** On character codes: the 26 small letters come down by 32, nothing else changes. */
  lemma UpperMeans(s: string, i: nat)
    requires i < |s|
    ensures Upper(s)[i] as int == if 97 <= s[i] as int <= 122 then s[i] as int - 32 else s[i] as int
  {
  }

  predicate NoZero(s: string) {
    forall i | 0 <= i < |s| :: s[i] as int > 0
  }

  /** Comparing as many characters as `a` has: zero exactly if `b` starts with `a`, positive exactly if
      `b` comes before `a`. */
  lemma {:induction false} CompareMeans(a: string, b: string)
    requires NoZero(a) && NoZero(b)
    ensures Compare(a, b, |a|) == 0 <==> a <= b
    ensures Compare(a, b, |a|) > 0 <==> Less(b, a)
  {
    if a != "" && b != "" && a[0] == b[0] {
      CompareMeans(a[1..], b[1..]);
      assert a == [a[0]] + a[1..] && b == [b[0]] + b[1..];
      assert a <= b <==> a[1..] <= b[1..];
    }
  }

  /** Nothing comes between a name and its extensions but extensions. */
  lemma {:induction false} PrefixBetween(a: string, b: string, c: string)
    requires a <= c && Less(b, c) && !Less(b, a)
    ensures a <= b
  {
    if a != "" {
      assert a[0] == c[0];
      assert b != "" && b[0] == a[0];
      assert a[1..] <= c[1..];
      PrefixBetween(a[1..], b[1..], c[1..]);
      assert a == [a[0]] + a[1..] && b == [b[0]] + b[1..];
    }
  }

  // ---------- the hash ----------

  const U32 := 0x1_0000_0000

  /** cs_alist_hash: the first four characters as a big-endian word, and a mask over as many of them as
      the name has. */
  function Hash(s: Name): (r: (int, int))
    ensures r.1 < U32
  {
    if |s| == 1 then (s[0] as int * 0x100_0000, 0xff00_0000)
    else if |s| == 2 then (s[0] as int * 0x100_0000 + s[1] as int * 0x1_0000, 0xffff_0000)
    else
      (s[0] as int * 0x100_0000 + s[1] as int * 0x1_0000 + s[2] as int * 0x100 + At(s, 3),
       if |s| == 3 then 0xffff_ff00 else 0xffff_ffff)
  }

  /** `x & mask`, for a mask that is a run of leading ones. */
  function And(x: int, mask: int): int
    requires mask < U32
  {
    x - x % (U32 - mask)
  }

  /** An unsigned 32-bit difference stored in a signed int. */
  function Signed(x: int): int {
    if x % U32 >= 0x8000_0000 then x % U32 - U32 else x % U32
  }

  /** What the table search computes for a hash and an entry's hash: positive to look right. */
  function Probe(hash: int, mask: int, entry: int): int
    requires mask < U32
  {
    Signed(And(hash, mask) - And(entry, mask))
  }

  /** A signed 32-bit difference of unsigned words has the right sign exactly when it fits. */
  lemma SignedRight(a: int, b: int)
    requires 0 <= a < U32 && 0 <= b < U32
    ensures (Signed(a - b) > 0 <==> a > b) && (Signed(a - b) < 0 <==> a < b) <==> -0x8000_0000 <= a - b < 0x8000_0000
  {
  }

  /** The first `k` characters as a big-endian number. */
  function Code(s: string, k: nat): int
    requires k <= 4
  {
    match k
    case 0 => 0
    case 1 => At(s, 0) * 0x100_0000
    case 2 => At(s, 0) * 0x100_0000 + At(s, 1) * 0x1_0000
    case 3 => At(s, 0) * 0x100_0000 + At(s, 1) * 0x1_0000 + At(s, 2) * 0x100
    case 4 => At(s, 0) * 0x100_0000 + At(s, 1) * 0x1_0000 + At(s, 2) * 0x100 + At(s, 3)
  }

  function Significant(s: Name): nat {
    if |s| < 4 then |s| else 4
  }

  lemma MaskedHash(s: Name, t: Name)
    ensures And(Hash(t).0, Hash(s).1) == Code(t, Significant(s))
  {
  }

  /** With 7-bit characters the difference of two codes fits a signed int. */
  lemma CodeFits(s: Name, k: nat)
    requires k <= 4
    ensures 0 <= Code(s, k) < 0x8000_0000
  {
  }

  /** Masked hashes agree with the order of names as far as they go. */
  lemma ProbeRight(s: Name, t: Name)
    ensures var p := Probe(Hash(s).0, Hash(s).1, Hash(t).0);
            (p > 0 ==> Compare(s, t, |s|) > 0) && (p < 0 ==> Compare(s, t, |s|) < 0)
  {
    hide Hash, And, Code, Compare;
    MaskedHash(s, s);
    MaskedHash(s, t);
    CodeFits(s, Significant(s));
    CodeFits(t, Significant(s));
    CompareFirst(s, t);
  }

  /** Compare, as far as the characters agree. */
  lemma {:induction false} CompareDigit(s: string, t: string, n: nat, k: nat)
    requires k < n && NoZero(s) && NoZero(t) && forall i | 0 <= i < k :: At(s, i) == At(t, i)
    ensures At(s, k) != At(t, k) ==> Compare(s, t, n) == At(s, k) - At(t, k)
    decreases k
  {
    if k > 0 && s != "" && t != "" {
      assert At(s, 0) == At(t, 0);
      assert forall i | 0 <= i < k - 1 :: At(s[1..], i) == At(s, i + 1) == At(t, i + 1) == At(t[1..], i);
      CompareDigit(s[1..], t[1..], n - 1, k - 1);
    } else if k > 0 {
      assert At(s, 0) == At(t, 0);
    }
  }

  /** Names differ in the direction in which their codes do. */
  lemma CompareFirst(s: Name, t: Name)
    ensures Code(s, Significant(s)) > Code(t, Significant(s)) ==> Compare(s, t, |s|) > 0
    ensures Code(s, Significant(s)) < Code(t, Significant(s)) ==> Compare(s, t, |s|) < 0
  {
    hide Compare;
    var k := Significant(s);
    if At(s, 0) != At(t, 0) {
      CompareDigit(s, t, |s|, 0);
    } else if k > 1 && At(s, 1) != At(t, 1) {
      CompareDigit(s, t, |s|, 1);
    } else if k > 2 && At(s, 2) != At(t, 2) {
      CompareDigit(s, t, |s|, 2);
    } else if k > 3 && At(s, 3) != At(t, 3) {
      CompareDigit(s, t, |s|, 3);
    }
  }
}
