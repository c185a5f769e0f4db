/** The byte buffer of app/common/buf/buffer.go, as the multiplexer uses it. */
module Buf {
  import opened Bytes

  const SIZE: nat := 32 * 1024

  class Buffer {
    const buf: array<Byte>
    var start: nat
    var end: nat

    ghost predicate Valid()
      reads this
    {
      start <= end <= buf.Length
    }

    /** Every byte the buffer ever took: nothing is compacted or overwritten. */
    ghost function Accepted(): seq<Byte>
      requires Valid()
      reads this, buf
    {
      buf[..end]
    }

    ghost function Contents(): seq<Byte>
      requires Valid()
      reads this, buf
    {
      buf[start..end]
    }

    constructor New()
      ensures Valid() && fresh(buf) && buf.Length == SIZE
      ensures start == 0 && end == 0
    {
      buf := new Byte[SIZE];
      start, end := 0, 0;
    }

    method IsEmpty() returns (empty: bool)
      requires Valid()
      ensures empty <==> Contents() == []
    {
      empty := start == end;
    }

    /** Appends data[..n]; what does not fit before the end of the array is dropped. */
    method Write(data: array<Byte>, n: nat) returns (taken: nat, short: bool)
      requires Valid() && n <= data.Length && data != buf
      modifies this`end, buf
      ensures Valid() && start == old(start)
      ensures buf[..start] == old(buf[..start])
      ensures Accepted() == Take(old(Accepted()) + data[..n], buf.Length)
      ensures taken <= n && (short <==> taken < n)
      ensures Contents() == old(Contents()) + data[..taken]
      ensures short ==> end == buf.Length
    {
      taken := if n <= buf.Length - end then n else buf.Length - end;
      short := taken < n;
      forall i | 0 <= i < taken {
        buf[end + i] := data[i];
      }
      end := end + taken;
      assert buf[..old(end)] == old(buf[..end]);
      assert buf[old(end)..end] == data[..taken];
      assert buf[..end] == buf[..old(end)] + buf[old(end)..end];
      assert buf[start..end] == buf[start..old(end)] + buf[old(end)..end];
      assert data[..taken] <= data[..n];
    }

    /** Moves the oldest bytes into dst, as many as fit. */
    method Read(dst: array<Byte>) returns (n: nat, eof: bool)
      requires Valid() && dst != buf
      modifies this`start, dst
      ensures Valid()
      ensures eof <==> old(Contents()) == []
      ensures eof ==> n == 0
      ensures n == |Take(old(Contents()), dst.Length)| && start == old(start) + n
      ensures dst[..n] + Contents() == old(Contents())
      ensures dst[n..] == old(dst[n..])
    {
      if start == end {
        return 0, true;
      }
      n := if end - start <= dst.Length then end - start else dst.Length;
      eof := false;
      forall i | 0 <= i < n {
        dst[i] := buf[start + i];
      }
      start := start + n;
      assert dst[..n] == old(buf[start..end])[..n];
    }
  }
}
