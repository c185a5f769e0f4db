/** Bytes, the fixed-width integers of the source, and their wire encodings.
    Shifts and masks of the source are written as division and remainder. */
module Bytes {

  type Byte = x: int | 0 <= x < 0x100
  type U16 = x: int | 0 <= x < 0x1_0000
  type U32 = x: int | 0 <= x < 0x1_0000_0000
  type U64 = x: int | 0 <= x < 0x1_0000_0000_0000_0000

  function Wrap32(n: nat): U32 {
    n % 0x1_0000_0000
  }

  lemma Wrap32Add(m: nat, n: nat)
    ensures Wrap32(Wrap32(m) + n) == Wrap32(m + n)
  {
  }

  datatype Option<+T> = None | Some(value: T)

  /** The low 16 bits of n, most significant byte first. */
  function Be16(n: nat): (b: seq<Byte>)
    ensures |b| == 2
  {
    [n / 0x100 % 0x100, n % 0x100]
  }

  function Be32(n: nat): (b: seq<Byte>)
    ensures |b| == 4
  {
    Be16(n / 0x1_0000) + Be16(n)
  }

  function Be64(n: nat): (b: seq<Byte>)
    ensures |b| == 8
  {
    Be32(n / 0x1_0000_0000) + Be32(n)
  }

  function GetBe16(b: seq<Byte>, i: nat): U16
    requires i + 2 <= |b|
  {
    var hi: int, lo: int := b[i], b[i + 1];
    hi * 0x100 + lo
  }

  function GetBe32(b: seq<Byte>, i: nat): U32
    requires i + 4 <= |b|
  {
    var hi: int, lo: int := GetBe16(b, i), GetBe16(b, i + 2);
    hi * 0x1_0000 + lo
  }

  function GetBe64(b: seq<Byte>, i: nat): U64
    requires i + 8 <= |b|
  {
    var hi: int, lo: int := GetBe32(b, i), GetBe32(b, i + 4);
    hi * 0x1_0000_0000 + lo
  }

  /** The low 16 bits of n, least significant byte first. */
  function Le16(n: nat): (b: seq<Byte>)
    ensures |b| == 2
  {
    [n % 0x100, n / 0x100 % 0x100]
  }

  function Le32(n: nat): (b: seq<Byte>)
    ensures |b| == 4
  {
    Le16(n) + Le16(n / 0x1_0000)
  }

  function GetLe16(b: seq<Byte>, i: nat): U16
    requires i + 2 <= |b|
  {
    var lo: int, hi: int := b[i], b[i + 1];
    hi * 0x100 + lo
  }

  function GetLe32(b: seq<Byte>, i: nat): U32
    requires i + 4 <= |b|
  {
    var lo: int, hi: int := GetLe16(b, i), GetLe16(b, i + 2);
    hi * 0x1_0000 + lo
  }

  lemma Halves16(n: nat)
    ensures n % 0x1_0000 == n / 0x100 % 0x100 * 0x100 + n % 0x100
  {
    var q := n / 0x100;
    assert n == q * 0x100 + n % 0x100 && q == q / 0x100 * 0x100 + q % 0x100;
    var rest := q % 0x100 * 0x100 + n % 0x100;
    assert n == 0x1_0000 * (q / 0x100) + rest && 0 <= rest < 0x1_0000;
  }

  lemma Halves32(n: nat)
    ensures n % 0x1_0000_0000 == n / 0x1_0000 % 0x1_0000 * 0x1_0000 + n % 0x1_0000
  {
  }

  lemma Be16RoundTrip(b: seq<Byte>, i: nat, n: nat)
    requires i + 2 <= |b| && b[i..i + 2] == Be16(n)
    ensures GetBe16(b, i) == n % 0x1_0000
  {
    assert b[i] == b[i..i + 2][0] && b[i + 1] == b[i..i + 2][1];
    Halves16(n);
  }

  /** The number that bytes spell, most significant first. */
  function Number(b: seq<Byte>): nat
  {
    if b == [] then 0 else Number(b[..|b| - 1]) * 0x100 + b[|b| - 1]
  }

  function Reversed(b: seq<Byte>): seq<Byte>
  {
    if b == [] then [] else Reversed(b[1..]) + [b[0]]
  }

  lemma NumberTwo(x: Byte, y: Byte)
    ensures Number([x, y]) == (x as int) * 0x100 + y
  {
    assert [x, y][..1] == [x] && [x][..0] == [];
    assert Number([x]) == x;
  }

  lemma NumberFour(w: Byte, x: Byte, y: Byte, z: Byte)
    ensures Number([w, x, y, z]) == ((w as int) * 0x100 + x) * 0x1_0000 + ((y as int) * 0x100 + z)
  {
    assert [w, x, y, z][..3] == [w, x, y] && [w, x, y][..2] == [w, x];
    NumberTwo(w, x);
  }

  lemma Be16Spells(n: nat)
    ensures Number(Be16(n)) == n % 0x1_0000
  {
    NumberTwo(n / 0x100 % 0x100, n % 0x100);
    Halves16(n);
  }

  lemma Be32Spells(n: nat)
    ensures Number(Be32(n)) == n % 0x1_0000_0000
  {
    var hi, lo := Be16(n / 0x1_0000), Be16(n);
    assert Be32(n) == [hi[0], hi[1], lo[0], lo[1]] && hi == [hi[0], hi[1]] && lo == [lo[0], lo[1]];
    hide Be16, Be32, Number;
    NumberFour(hi[0], hi[1], lo[0], lo[1]);
    NumberTwo(hi[0], hi[1]);
    NumberTwo(lo[0], lo[1]);
    Be16Spells(n / 0x1_0000);
    Be16Spells(n);
    Halves32(n);
  }

  lemma Le16Spells(n: nat)
    ensures Number(Reversed(Le16(n))) == n % 0x1_0000
  {
    var b := Le16(n);
    assert b[1..][1..] == [] && Reversed(b[1..]) == [b[1]];
    assert Reversed(b) == Be16(n);
    Be16Spells(n);
  }

  lemma ReversedFour(w: Byte, x: Byte, y: Byte, z: Byte)
    ensures Reversed([w, x, y, z]) == [z, y, x, w]
  {
    var b := [w, x, y, z];
    assert b[1..] == [x, y, z] && [x, y, z][1..] == [y, z] && [y, z][1..] == [z] && [z][1..] == [];
    assert Reversed([]) == [];
    assert Reversed([z]) == [z] && Reversed([y, z]) == [z, y] && Reversed([x, y, z]) == [z, y, x];
  }

  lemma Le16Bytes(n: nat)
    ensures Le16(n) == [Be16(n)[1], Be16(n)[0]]
  {
  }

  lemma Le32Spells(n: nat)
    ensures Number(Reversed(Le32(n))) == n % 0x1_0000_0000
  {
    var hi, lo := Be16(n / 0x1_0000), Be16(n);
    Le16Bytes(n);
    Le16Bytes(n / 0x1_0000);
    assert Le32(n) == [lo[1], lo[0], hi[1], hi[0]];
    assert Be32(n) == [hi[0], hi[1], lo[0], lo[1]];
    hide Reversed, Number, Be16, Le16, Be32, Le32;
    ReversedFour(lo[1], lo[0], hi[1], hi[0]);
    Be32Spells(n);
  }

  lemma Be16Inverse(b: seq<Byte>, i: nat)
    requires i + 2 <= |b|
    ensures Be16(GetBe16(b, i)) == b[i..i + 2]
  {
  }

  lemma Be32RoundTrip(b: seq<Byte>, i: nat, n: nat)
    requires i + 4 <= |b| && b[i..i + 4] == Be32(n)
    ensures GetBe32(b, i) == n % 0x1_0000_0000
  {
    hide Be16, GetBe16;
    assert b[i..i + 2] == b[i..i + 4][..2] == Be16(n / 0x1_0000);
    assert b[i + 2..i + 4] == b[i..i + 4][2..] == Be16(n);
    Be16RoundTrip(b, i, n / 0x1_0000);
    Be16RoundTrip(b, i + 2, n);
    Halves32(n);
  }

  lemma Le16RoundTrip(b: seq<Byte>, i: nat, n: nat)
    requires i + 2 <= |b| && b[i..i + 2] == Le16(n)
    ensures GetLe16(b, i) == n % 0x1_0000
  {
    assert b[i] == b[i..i + 2][0] && b[i + 1] == b[i..i + 2][1];
    Halves16(n);
  }

  lemma Le32RoundTrip(b: seq<Byte>, i: nat, n: nat)
    requires i + 4 <= |b| && b[i..i + 4] == Le32(n)
    ensures GetLe32(b, i) == n % 0x1_0000_0000
  {
    hide Le16, GetLe16;
    assert b[i..i + 2] == b[i..i + 4][..2] == Le16(n);
    assert b[i + 2..i + 4] == b[i..i + 4][2..] == Le16(n / 0x1_0000);
    Le16RoundTrip(b, i, n);
    Le16RoundTrip(b, i + 2, n / 0x1_0000);
    Halves32(n);
  }

  /** The first n elements of s, or all of s when it is shorter. */
  function Take<T>(s: seq<T>, n: nat): (r: seq<T>)
    ensures |r| == if |s| <= n then |s| else n
    ensures r <= s
  {
    if |s| <= n then s else s[..n]
  }

  /** Bounding a stream twice is bounding it once. */
  lemma TakeAppend<T>(a: seq<T>, b: seq<T>, n: nat)
    ensures Take(Take(a, n) + b, n) == Take(a + b, n)
  {
  }
}
