/**
 The one's-complement sum of section 1 of RFC 1071, as a number and as the
 32-bit accumulate-and-fold loop that computes it.
 */
module Checksum {
  import opened Bytes

  /** Sum of the big-endian 16-bit words of `s`; an odd last byte is the high half of a word. */
  function WordSum(s: seq<byte>): nat {
    if |s| == 0 then 0
    else if |s| == 1 then s[0] * 0x100
    else s[0] * 0x100 + s[1] + WordSum(s[2..])
  }

  /**
   The end-around-carry value of a sum: the representative modulo 65535 in
   1..65535, and 0 only for an empty sum.
   */
  function Canon(n: nat): (c: uint16)
    ensures c == 0 <==> n == 0
    ensures c % 0xffff == n % 0xffff
  {
    if n == 0 then 0 else (n - 1) % 0xffff + 1
  }

  /** `Canon` is the only 16-bit value with these two properties. */
  lemma CanonUnique(n: nat, c: uint16)
    requires c % 0xffff == n % 0xffff
    requires c == 0 <==> n == 0
    ensures c == Canon(n)
  {
  }

  lemma CanonFixed(n: uint16)
    ensures Canon(n) == n
  {
  }

  /** One carry fold keeps the residue modulo 65535 and shrinks the sum. */
  lemma FoldStep(n: nat)
    requires n > 0xffff
    ensures 0 < n / 0x1_0000 + n % 0x1_0000 < n
    ensures Canon(n / 0x1_0000 + n % 0x1_0000) == Canon(n)
  {
    var q := n / 0x1_0000;
    assert n == q * 0xffff + (q + n % 0x1_0000);
    ModAddMultiple(q + n % 0x1_0000 - 1, q);
  }

  lemma ModAddMultiple(a: nat, q: nat)
    ensures (a + q * 0xffff) % 0xffff == a % 0xffff
  {
  }

  /** A folded value may stand for the sum it came from in any longer sum. */
  lemma CanonAbsorbs(a: nat, b: nat)
    ensures Canon(Canon(a) + b) == Canon(a + b)
  {
    if a > 0 {
      var q := (a - 1) / 0xffff;
      assert a == Canon(a) + q * 0xffff;
      ModAddMultiple(Canon(a) + b - 1, q);
    }
  }

  /** Pieces may be summed separately when every piece but the last has even length. */
  lemma {:induction false} WordSumConcat(a: seq<byte>, b: seq<byte>)
    requires |a| % 2 == 0
    ensures WordSum(a + b) == WordSum(a) + WordSum(b)
  {
    if |a| == 0 {
      assert a + b == b;
    } else {
      assert (a + b)[2..] == a[2..] + b;
      WordSumConcat(a[2..], b);
    }
  }

  /** For an odd first piece the law fails: the bytes of the second piece change place. */
  lemma WordSumConcatOdd()
    ensures WordSum([0] + [1]) != WordSum([0]) + WordSum([1])
  {
  }

  lemma WordSumUnfold(s: seq<byte>)
    ensures |s| == 0 ==> WordSum(s) == 0
    ensures |s| == 1 ==> WordSum(s) == s[0] as int * 0x100
    ensures |s| >= 2 ==> WordSum(s) == s[0] as int * 0x100 + s[1] as int + WordSum(s[2..])
  {
  }

  lemma {:induction false} WordSumBound(s: seq<byte>)
    ensures WordSum(s) <= (|s| + 1) / 2 * 0xffff
  {
    if |s| >= 2 {
      WordSumBound(s[2..]);
    }
  }

  lemma {:induction false} WordSumPositive(s: seq<byte>, k: nat)
    requires k < |s| && s[k] > 0
    ensures WordSum(s) > 0
  {
    if k >= 2 {
      WordSumPositive(s[2..], k - 2);
    }
  }

  /** Writing a word at an even place moves the sum by exactly the change of that word. */
  lemma {:induction false} WordSumPut(s: seq<byte>, i: nat, v: uint16)
    requires i % 2 == 0 && i + 2 <= |s|
    ensures WordSum(Put16(s, i, v)) + Get16(s, i) == WordSum(s) + v
  {
    var r := Put16(s, i, v);
    if i == 0 {
      assert r[2..] == s[2..];
    } else {
      assert r[2..] == Put16(s[2..], i - 2, v);
      WordSumPut(s[2..], i - 2, v);
    }
  }

  /** Adding the complement of a sum gives 0xffff: the packet verifies. */
  lemma ComplementVerifies(n: nat)
    ensures Canon(n + (0xffff - Canon(n))) == 0xffff
  {
  }

  /** The only other field value that verifies is the alternative zero 0xffff. */
  lemma VerifyingField(n: nat, c: uint16)
    requires n > 0
    ensures Canon(n + c) == 0xffff && c != 0xffff <==> c == 0xffff - Canon(n)
  {
  }

  /** The largest sum of `count` bytes after `initial` fits the accumulator, as it does for IP lengths and a folded start. */
  predicate SumFits(count: nat, initial: nat) {
    initial + (count + 1) / 2 * 0xffff < 0x1_0000_0000
  }

  lemma SmallSumFits(count: uint16, initial: uint16)
    ensures SumFits(count, initial)
  {
  }

  /** Addition in the 32-bit accumulator. */
  function Add32(a: uint32, b: uint32): (r: uint32)
    ensures a + b < 0x1_0000_0000 ==> r == a + b
  {
    (a as int + b as int) % 0x1_0000_0000
  }

  /** The carry loop: it ends because every fold makes the sum smaller. */
  method FoldCarries(total: uint32) returns (r: uint16)
    ensures r == Canon(total)
  {
    hide Canon;
    var sum: uint32 := total;
    while sum > 0xffff
      invariant Canon(sum) == Canon(total)
      decreases sum
    {
      FoldStep(sum);
      sum := sum / 0x1_0000 + sum % 0x1_0000;
    }
    CanonFixed(sum);
    r := sum;
  }

  /**
   The accumulation loop. The additions wrap modulo 2^32 as in the source; the
   invariant shows that they never do when the largest possible sum fits, as it
   does for up to 65535 bytes and a starting sum of 16 bits.
   */
  method Summing(buffer: array<byte>, start: nat, count: nat, initial: uint32) returns (r: uint16)
    requires start + count <= buffer.Length
    requires SumFits(count, initial)
    ensures r == Canon(initial + WordSum(buffer[start..start + count]))
  {
    hide WordSum, Canon, Add32;
    var sum: uint32 := initial;
    var i := start;
    var bytes := count;
    ghost var total := initial + WordSum(buffer[start..start + count]);
    WordSumBound(buffer[start..start + count]);
    while bytes > 1
      invariant 0 <= bytes && i + bytes == start + count
      invariant sum + WordSum(buffer[i..start + count]) == total
    {
      WordSumUnfold(buffer[i..start + count]);
      assert buffer[i..start + count][2..] == buffer[i + 2..start + count];
      sum := Add32(sum, buffer[i] as int * 0x100);
      sum := Add32(sum, buffer[i + 1] as int);
      i := i + 2;
      bytes := bytes - 2;
    }
    WordSumUnfold(buffer[i..start + count]);
    if bytes == 1 {
      sum := Add32(sum, buffer[i] as int * 0x100);
    }
    r := FoldCarries(sum);
  }
}
