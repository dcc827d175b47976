/** The Internet checksum of section 3.1 of RFC 791 as the Android service computes it. */
module InternetChecksum {
  import opened ByteStrings

  function Word(hi: Byte, lo: Byte): (w: nat)
    ensures w < 0x10000
  {
    var h: int, l: int := hi, lo;
    h * 256 + l
  }

  /** The sum of the 16-bit words of the string; an odd last byte counts as a high byte. */
  function WordSum(s: Bytes): (sum: nat)
    ensures 2 * sum <= 0xFFFF * (|s| + 1)
  {
    if |s| == 0 then 0
    else if |s| == 1 then Word(s[0], 0)
    else Word(s[0], s[1]) + WordSum(s[2..])
  }

  /** End-around carry in one go: the sum modulo 65535, with 65535 for its positive multiples. */
  function Folded(sum: nat): (f: nat)
    ensures f <= 0xFFFF
  {
    if sum == 0 then 0 else (sum - 1) % 0xFFFF + 1
  }

  function Checksum(s: Bytes): (c: nat)
    ensures c <= 0xFFFF
  {
    0xFFFF - Folded(WordSum(s))
  }

  /** One round of the fold keeps the folded value and makes a sum that overflows smaller. */
  lemma FoldRound(sum: nat)
    ensures Folded(sum % 0x10000 + sum / 0x10000) == Folded(sum)
    ensures sum / 0x10000 != 0 ==> sum % 0x10000 + sum / 0x10000 < sum
  {
    var h, l := sum / 0x10000, sum % 0x10000;
    assert sum == 0xFFFF * h + (l + h);
    if sum > 0 {
      assert l + h > 0;
      ModShift(l + h - 1, h);
      assert sum - 1 == (l + h - 1) + 0xFFFF * h;
    }
  }

  lemma {:induction false} ModShift(a: nat, k: nat)
    ensures (a + 0xFFFF * k) % 0xFFFF == a % 0xFFFF
    decreases k
  {
    if k > 0 {
      ModShift(a, k - 1);
      assert a + 0xFFFF * k == (a + 0xFFFF * (k - 1)) + 0xFFFF;
    }
  }

  /** Add up the words of a region of the buffer. */
  method SumWords(buf: array<Byte>, offset: nat, length: nat) returns (sum: nat)
    requires offset + length <= buf.Length
    ensures sum == WordSum(buf[offset..offset + length])
  {
    sum := 0;
    var i := offset;
    ghost var n: nat := 0;
    ghost var rest := buf[offset..offset + length];
    while i < offset + length - 1
      invariant i == offset + 2 * n && |rest| == length - 2 * n
      invariant forall k :: 0 <= k < |rest| ==> rest[k] == buf[i + k]
      invariant sum + WordSum(rest) == WordSum(buf[offset..offset + length])
    {
      sum := sum + Word(buf[i], buf[i + 1]);
      i := i + 2;
      rest := rest[2..];
      n := n + 1;
    }
    if length % 2 != 0 {
      sum := sum + Word(buf[offset + length - 1], 0);
    }
  }

  /** Carry the high half into the low half until nothing is left of it. */
  method FoldCarries(total: nat) returns (sum: nat)
    requires total < 0x8000_0000
    ensures sum == Folded(total)
  {
    sum := total;
    while sum / 0x10000 != 0
      invariant Folded(sum) == Folded(total) && sum < 0x8000_0000
      decreases sum
    {
      FoldRound(sum);
      sum := sum % 0x10000 + sum / 0x10000;
    }
  }

  /** For a region that fits an IPv4 packet the sum stays within 31 bits. */
  method IpChecksum(buf: array<Byte>, offset: nat, length: nat) returns (c: nat)
    requires offset + length <= buf.Length && length < 0x10000
    ensures c == Checksum(buf[offset..offset + length])
  {
    var sum := SumWords(buf, offset, length);
    sum := FoldCarries(sum);
    c := 0xFFFF - sum;
  }

  // ----- What the checksum is for

  /** The string with the 16-bit word w stored at offset i. */
  function Store(s: Bytes, i: nat, w: nat): (r: Bytes)
    requires i + 2 <= |s| && w < 0x10000
    ensures |r| == |s|
  {
    s[i := w / 256][i + 1 := w % 256]
  }

  lemma {:induction false} WordSumStore(s: Bytes, i: nat, w: nat)
    requires i + 2 <= |s| && i % 2 == 0 && w < 0x10000
    ensures WordSum(Store(s, i, w)) + Word(s[i], s[i + 1]) == WordSum(s) + w
    decreases i
  {
    var t := Store(s, i, w);
    if i == 0 {
      assert t[2..] == s[2..];
    } else {
      assert t[2..] == Store(s[2..], i - 2, w);
      WordSumStore(s[2..], i - 2, w);
    }
  }

  /** Storing the checksum in its zeroed field makes the word sum fold to 0xFFFF, so
      computing the checksum again gives 0, unless everything is zero. */
  lemma ChecksumVerifies(s: Bytes, i: nat)
    requires i + 2 <= |s| && i % 2 == 0 && s[i] == 0 && s[i + 1] == 0
    ensures Folded(WordSum(Store(s, i, Checksum(s)))) == 0xFFFF
    ensures Checksum(Store(s, i, Checksum(s))) == 0
  {
    var sum := WordSum(s);
    WordSumStore(s, i, Checksum(s));
    var total := sum + Checksum(s);
    if sum == 0 {
      assert total == 0xFFFF;
    } else {
      var k := (sum - 1) / 0xFFFF;
      assert total == 0xFFFF * (k + 1);
      ModShift(0xFFFE, k);
    }
  }

  lemma {:induction false} MultipleSum(a: nat, k: nat)
    requires a % 0xFFFF == 0
    ensures (a + k) % 0xFFFF == k % 0xFFFF
  {
    ModShift(k, a / 0xFFFF);
    assert k + 0xFFFF * (a / 0xFFFF) == a + k;
  }

  /** A string verifies when its word sum is a positive multiple of 65535. */
  lemma VerifiesIff(s: Bytes)
    ensures Checksum(s) == 0 <==> WordSum(s) > 0 && WordSum(s) % 0xFFFF == 0
  {
    FoldedFull(WordSum(s));
  }

  lemma FoldedFull(sum: nat)
    ensures Folded(sum) == 0xFFFF <==> sum > 0 && sum % 0xFFFF == 0
  {
    var q, r := sum / 0xFFFF, sum % 0xFFFF;
    assert r > 0 ==> (sum - 1) / 0xFFFF == q && (sum - 1) % 0xFFFF == r - 1;
    assert sum > 0 && r == 0 ==> (sum - 1) / 0xFFFF == q - 1;
  }

  /** Two words are equal modulo 65535 exactly when they are equal, or one is 0 and the other 0xFFFF. */
  predicate Confused(v: nat, w: nat) {
    v == w || (v == 0 && w == 0xFFFF) || (v == 0xFFFF && w == 0)
  }

  lemma DifferenceOfWords(v: nat, w: nat)
    requires w <= v < 0x10000
    ensures (v - w) % 0xFFFF == 0 <==> Confused(v, w)
  {
  }

  /** A header whose checksum verifies still does after one of its words is replaced
      exactly when the two words are confused (and not all of it is zero). */
  lemma WordChangeDetected(s: Bytes, i: nat, w: nat)
    requires i + 2 <= |s| && i % 2 == 0 && w < 0x10000
    requires Checksum(s) == 0
    ensures Checksum(Store(s, i, w)) == 0 <==> WordSum(Store(s, i, w)) > 0 && Confused(Word(s[i], s[i + 1]), w)
  {
    var was := Word(s[i], s[i + 1]);
    WordSumStore(s, i, w);
    VerifiesIff(s);
    VerifiesIff(Store(s, i, w));
    if w >= was {
      MultipleSum(WordSum(s), w - was);
      DifferenceOfWords(w, was);
    } else {
      DifferenceOfWords(was, w);
      SumDifference(WordSum(s), WordSum(Store(s, i, w)), was - w);
    }
  }

  lemma SumDifference(a: nat, b: nat, d: nat)
    requires a == b + d && a % 0xFFFF == 0
    ensures b % 0xFFFF == 0 <==> d % 0xFFFF == 0
  {
    if b % 0xFFFF == 0 {
      MultipleSum(b, d);
    }
    if d % 0xFFFF == 0 {
      MultipleSum(d, b);
    }
  }

  // ----- What is added up

  /** The words as they are sent, high byte first. */
  function Sent(words: seq<nat>): Bytes {
    if words == [] then [] else U16(words[0]) + Sent(words[1..])
  }

  function Sum(words: seq<nat>): nat {
    if words == [] then 0 else words[0] + Sum(words[1..])
  }

  /** The sum over a string is the sum of the 16-bit words that it sends. */
  lemma {:induction false} SumOfSent(words: seq<nat>)
    requires forall i :: 0 <= i < |words| ==> words[i] < 0x10000
    ensures WordSum(Sent(words)) == Sum(words)
    decreases |words|
  {
    if words != [] {
      var w, rest := words[0], Sent(words[1..]);
      SumOfSent(words[1..]);
      FirstWord(w, rest);
      assert Sent(words) == U16(w) + rest;
    }
  }

  lemma FirstWord(w: nat, rest: Bytes)
    requires w < 0x10000
    ensures WordSum(U16(w) + rest) == w + WordSum(rest)
  {
    var s := U16(w) + rest;
    assert s[0] == w / 256 % 256 && s[1] == w % 256 && s[2..] == rest;
  }

  /** The numerical example in section 3 of RFC 1071. */
  lemma ExampleOfRfc1071()
    ensures Checksum([0, 1, 0xF2, 3, 0xF4, 0xF5, 0xF6, 0xF7]) == 0x220D
  {
    var s3: Bytes, s2: Bytes, s1: Bytes := [0xF6, 0xF7], [0xF4, 0xF5, 0xF6, 0xF7], [0xF2, 3, 0xF4, 0xF5, 0xF6, 0xF7];
    ExampleWord(0xF6F7, [], s3, 0);
    ExampleWord(0xF4F5, s3, s2, 0xF6F7);
    ExampleWord(0xF203, s2, s1, 0x1EBEC);
    ExampleWord(1, s1, [0, 1, 0xF2, 3, 0xF4, 0xF5, 0xF6, 0xF7], 0x2DDEF);
  }

  lemma ExampleWord(w: nat, rest: Bytes, s: Bytes, sum: nat)
    requires w < 0x10000 && s == U16(w) + rest && WordSum(rest) == sum
    ensures WordSum(s) == w + sum
  {
    FirstWord(w, rest);
  }
}
