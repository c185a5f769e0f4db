/** The one's-complement checksum of app/transport/dccp/packet.go (section 1 of RFC 1071),
    accumulated in 32 bits. */
module DccpChecksum {
  import opened Bytes

  const LIMIT: nat := 131074

  /** The sum of the big-endian words; an odd last byte is a word's upper half. */
  function WordSum(b: seq<Byte>): nat
  {
    if |b| == 0 then 0
    else if |b| == 1 then (b[0] as int) * 0x100
    else GetBe16(b, 0) + WordSum(b[2..])
  }

  /** Adding the carries back in until 16 bits are left. */
  function Fold(sum: nat): U16
  {
    if sum < 0x1_0000 then sum else Fold(sum % 0x1_0000 + sum / 0x1_0000)
  }

  function Checksum(b: seq<Byte>): U16
  {
    0xFFFF - Fold(Wrap32(WordSum(b)))
  }

  lemma {:induction false} WordSumConcat(a: seq<Byte>, b: seq<Byte>)
    requires |a| % 2 == 0
    ensures WordSum(a + b) == WordSum(a) + WordSum(b)
  {
    if a == [] {
      assert a + b == b;
    } else {
      WordSumConcat(a[2..], b);
      assert (a + b)[2..] == a[2..] + b;
    }
  }

  lemma AddLast(a: seq<Byte>, last: Byte)
    requires |a| % 2 == 0
    ensures WordSum(a + [last]) == WordSum(a) + (last as int) * 0x100
  {
    WordSumConcat(a, [last]);
  }

  lemma AddWord(a: seq<Byte>, w: seq<Byte>)
    requires |a| % 2 == 0 && |w| == 2
    ensures WordSum(a + w) == WordSum(a) + GetBe16(w, 0)
  {
    WordSumConcat(a, w);
    assert WordSum(w[2..]) == 0;
  }

  lemma NoWords()
    ensures WordSum([]) == 0 && Wrap32(0) == 0
  {
  }

  /** The accumulation, in a uint32. */
  method SumWords(data: array<Byte>) returns (sum: U32)
    ensures sum == Wrap32(WordSum(data[..]))
  {
    hide WordSum, GetBe16, Wrap32;
    NoWords();
    var length := data.Length;
    if length % 2 != 0 {
      length := length - 1;
    }
    sum := 0;
    var i := 0;
    while i < length
      invariant 0 <= i <= length && i % 2 == 0
      invariant sum == Wrap32(WordSum(data[..i]))
    {
      var w := GetBe16(data[i..i + 2], 0);
      AddWord(data[..i], data[i..i + 2]);
      assert data[..i] + data[i..i + 2] == data[..i + 2];
      Wrap32Add(WordSum(data[..i]), w);
      sum := Wrap32(sum as int + w);
      i := i + 2;
    }
    if data.Length % 2 != 0 {
      var last: int := data[data.Length - 1];
      AddLast(data[..i], last);
      assert data[..i] + [last] == data[..];
      Wrap32Add(WordSum(data[..i]), last * 0x100);
      sum := Wrap32(sum as int + last * 0x100);
    } else {
      assert data[..i] == data[..];
    }
  }

  method ComputeChecksum(data: array<Byte>) returns (c: U16)
    ensures c == Checksum(data[..])
  {
    hide WordSum, Wrap32;
    var sum := SumWords(data);
    while sum >= 0x1_0000
      invariant Fold(sum) == Fold(Wrap32(WordSum(data[..])))
      decreases sum
    {
      sum := sum % 0x1_0000 + sum / 0x1_0000;
    }
    c := 0xFFFF - sum;
  }

  // ---------- the accumulator does not overflow up to the limit, and only up to it ----------

  lemma {:induction false} WordSumBound(b: seq<Byte>)
    ensures WordSum(b) <= 0xFFFF * (|b| / 2) + 0xFF00 * (|b| % 2)
    decreases |b|
  {
    if |b| >= 2 {
      WordSumBound(b[2..]);
    }
  }

  lemma {:induction false} FullWordSum(n: nat)
    ensures WordSum(seq(n, i => 0xFF)) == 0xFFFF * (n / 2) + 0xFF00 * (n % 2)
  {
    if n >= 2 {
      FullWordSum(n - 2);
      assert seq<Byte>(n, i => 0xFF)[2..] == seq<Byte>(n - 2, i => 0xFF);
    }
  }

  lemma NoOverflowBound(n: nat)
    ensures (forall b: seq<Byte> | |b| == n :: WordSum(b) < 0x1_0000_0000) <==> n <= LIMIT
  {
    if n <= LIMIT {
      forall b: seq<Byte> | |b| == n ensures WordSum(b) < 0x1_0000_0000 {
        WordSumBound(b);
      }
    } else {
      var b: seq<Byte> := seq(n, i => 0xFF);
      FullWordSum(n);
      assert |b| == n && WordSum(b) >= 0x1_0000_0000;
    }
  }

  // ---------- folding is arithmetic modulo 65535 ----------

  lemma ModShift(x: nat, k: nat)
    ensures (x + 0xFFFF * k) % 0xFFFF == x % 0xFFFF
  {
  }

  lemma {:induction false} FoldIsMod(sum: nat)
    ensures Fold(sum) % 0xFFFF == sum % 0xFFFF
    ensures Fold(sum) == 0 <==> sum == 0
    decreases sum
  {
    if sum >= 0x1_0000 {
      var next := sum % 0x1_0000 + sum / 0x1_0000;
      FoldIsMod(next);
      assert sum == next + 0xFFFF * (sum / 0x1_0000);
      ModShift(next, sum / 0x1_0000);
    }
  }

  /** Two sums fold to the same value exactly when they agree modulo 65535 and on being zero. */
  lemma FoldEqual(a: nat, b: nat)
    ensures Fold(a) == Fold(b) <==> (a % 0xFFFF == b % 0xFFFF && (a == 0 <==> b == 0))
  {
    FoldIsMod(a);
    FoldIsMod(b);
  }

  // ---------- what the receiver can rely on ----------

  /** b with the word at the even offset i replaced. */
  function PutWord(b: seq<Byte>, i: nat, w: U16): (r: seq<Byte>)
    requires i + 2 <= |b|
    ensures |r| == |b|
  {
    b[..i] + Be16(w) + b[i + 2..]
  }

  /** The sum of all words but the one at i. */
  function OtherWords(b: seq<Byte>, i: nat): nat
    requires i + 2 <= |b|
  {
    WordSum(b[..i]) + WordSum(b[i + 2..])
  }

  lemma PutWordSum(b: seq<Byte>, i: nat, w: U16)
    requires i % 2 == 0 && i + 2 <= |b|
    ensures WordSum(PutWord(b, i, w)) == OtherWords(b, i) + w
  {
    WordSumConcat(b[..i] + Be16(w), b[i + 2..]);
    AddWord(b[..i], Be16(w));
  }

  lemma PutSame(b: seq<Byte>, i: nat, w: U16)
    requires i + 2 <= |b| && Be16(w) == b[i..i + 2]
    ensures PutWord(b, i, w) == b
  {
    hide Be16;
    assert b == b[..i] + b[i..i + 2] + b[i + 2..];
  }

  lemma WordSplit(b: seq<Byte>, i: nat)
    requires i % 2 == 0 && i + 2 <= |b|
    ensures PutWord(b, i, GetBe16(b, i)) == b
    ensures WordSum(b) == OtherWords(b, i) + GetBe16(b, i)
  {
    hide WordSum, OtherWords, Be16, GetBe16;
    var w := GetBe16(b, i);
    Be16Inverse(b, i);
    PutSame(b, i, w);
    hide PutWord;
    PutWordSum(b, i, w);
  }

  /** Values equal modulo 65535 differ by a multiple of it. */
  lemma Multiple(a: nat, b: nat) returns (k: int)
    requires a % 0xFFFF == b % 0xFFFF
    ensures a == b + 0xFFFF * k
  {
    k := a / 0xFFFF - b / 0xFFFF;
  }

  lemma {:induction false} FoldShrinks(sum: nat)
    ensures Fold(sum) <= sum
    decreases sum
  {
    if sum >= 0x1_0000 {
      FoldShrinks(sum % 0x1_0000 + sum / 0x1_0000);
    }
  }

  /** Adding the complement of the folded sum in place of the field leaves only the field. */
  lemma ComplementLeavesField(others: nat, field: U16)
    ensures var total := others + (0xFFFF - Fold(others + field));
      Fold(total) == 0xFFFF <==> field == 0 || (field == 0xFFFF && others != 0)
  {
    hide Fold;
    var folded := Fold(others + field);
    var total := others + (0xFFFF - folded);
    FoldIsMod(others + field);
    FoldShrinks(others + field);
    FoldShrinks(others);
    var k := Multiple(others + field, folded);
    assert total == 0xFFFF * (k + 1) - field;
    FoldEqual(total, 0xFFFF);
    FullFold();
    if field == 0xFFFF {
      assert total == 0xFFFF * k;
      ModShift(0, k);
    } else if field == 0 {
      ModShift(0, k + 1);
    } else {
      ModShift(0xFFFF - field, k);
    }
  }

  lemma FullFold()
    ensures Fold(0xFFFF) == 0xFFFF
  {
  }

  /** Storing the checksum computed over a field that held c makes the whole checksum 0 exactly
      when c is one of the two zeros of one's complement and, for 0xFFFF, something else is set. */
  lemma StoredChecksum(b: seq<Byte>, i: nat)
    requires |b| <= LIMIT && i % 2 == 0 && i + 2 <= |b|
    ensures Checksum(PutWord(b, i, Checksum(b))) == 0 <==>
      GetBe16(b, i) == 0 || (GetBe16(b, i) == 0xFFFF && OtherWords(b, i) != 0)
  {
    hide WordSum, OtherWords, GetBe16, Fold, PutWord;
    NoOverflowBound(|b|);
    WordSplit(b, i);
    PutWordSum(b, i, Checksum(b));
    ComplementLeavesField(OtherWords(b, i), GetBe16(b, i));
  }

  lemma EqualSums(others: nat, v: U16, w: U16)
    requires v != w
    ensures Fold(others + v) == Fold(others + w) <==>
      ((v == 0 && w == 0xFFFF) || (v == 0xFFFF && w == 0)) && others != 0
  {
    hide Fold;
    FoldEqual(others + v, others + w);
    if (others + v) % 0xFFFF == (others + w) % 0xFFFF {
      var k := Multiple(others + v, others + w);
      assert v - w == 0xFFFF * k;
    }
    ModShift(others, 1);
  }

  /** Changing one word changes the checksum, except between the two zeros of one's
      complement in data that is not otherwise zero. */
  lemma WordChangeDetected(b: seq<Byte>, i: nat, w: U16)
    requires |b| <= LIMIT && i % 2 == 0 && i + 2 <= |b| && w != GetBe16(b, i)
    ensures var v := GetBe16(b, i);
      Checksum(PutWord(b, i, w)) == Checksum(b) <==>
      ((v == 0 && w == 0xFFFF) || (v == 0xFFFF && w == 0)) && OtherWords(b, i) != 0
  {
    hide WordSum, OtherWords, GetBe16, Fold, PutWord;
    NoOverflowBound(|b|);
    WordSplit(b, i);
    PutWordSum(b, i, w);
    EqualSums(OtherWords(b, i), GetBe16(b, i), w);
  }

  // ---------- worked examples ----------

  lemma FirstWord(x: Byte, y: Byte, b: seq<Byte>)
    ensures WordSum([x, y] + b) == (x as int) * 0x100 + y + WordSum(b)
  {
    assert ([x, y] + b)[2..] == b;
  }

  lemma FoldExample()
    ensures Fold(Wrap32(0x2_DDF0)) == 0xDDF2
  {
    assert Fold(0xDDF2) == 0xDDF2;
  }

  lemma SumExample(b: seq<Byte>)
    requires b == [0x00, 0x01] + ([0xF2, 0x03] + ([0xF4, 0xF5] + ([0xF6, 0xF7] + [])))
    ensures WordSum(b) == 0x2_DDF0
  {
    NoWords();
    hide WordSum;
    FirstWord(0xF6, 0xF7, []);
    FirstWord(0xF4, 0xF5, [0xF6, 0xF7] + []);
    FirstWord(0xF2, 0x03, [0xF4, 0xF5] + ([0xF6, 0xF7] + []));
    FirstWord(0x00, 0x01, [0xF2, 0x03] + ([0xF4, 0xF5] + ([0xF6, 0xF7] + [])));
  }

  /** The numerical example of section 3 of RFC 1071: its sum is 0xDDF2. */
  lemma RfcExample()
    ensures Checksum([0x00, 0x01, 0xF2, 0x03, 0xF4, 0xF5, 0xF6, 0xF7]) == 0xFFFF - 0xDDF2
  {
    FoldExample();
    hide WordSum, Fold;
    SumExample([0x00, 0x01, 0xF2, 0x03, 0xF4, 0xF5, 0xF6, 0xF7]);
  }

  /** A last byte without a partner counts as if a zero byte followed it. */
  lemma OddByte(b: seq<Byte>)
    requires |b| % 2 == 1
    ensures Checksum(b) == Checksum(b + [0])
  {
    hide Fold;
    var n := |b| - 1;
    assert b == b[..n] + [b[n]] && b + [0] == b[..n] + [b[n], 0];
    AddLast(b[..n], b[n]);
    AddWord(b[..n], [b[n], 0]);
  }
}
