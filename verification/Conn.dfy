/** A byte connection seen from one end: the bytes still to be read, ending in EOF,
    and the bytes written so far. */
module Conn {
  import opened Bytes

  class Conn {
    var inbound: seq<Byte>
    var outbound: seq<Byte>

    constructor (inbound: seq<Byte>)
      ensures this.inbound == inbound && outbound == []
    {
      this.inbound, outbound := inbound, [];
    }

    /** io.ReadFull into dst[..n]: all n bytes or an error that leaves EOF behind. */
    method ReadFull(dst: array<Byte>, n: nat) returns (ok: bool)
      requires n <= dst.Length
      modifies this`inbound, dst
      ensures ok <==> n <= |old(inbound)|
      ensures ok ==> dst[..n] == old(inbound)[..n] && inbound == old(inbound)[n..]
      ensures ok ==> dst[n..] == old(dst[n..])
      ensures !ok ==> inbound == []
    {
      var got := if n <= |inbound| then n else |inbound|;
      forall i | 0 <= i < got {
        dst[i] := inbound[i];
      }
      ok := got == n;
      inbound := inbound[got..];
    }

    /** Writes src[..n]. */
    method Write(src: array<Byte>, n: nat)
      requires n <= src.Length
      modifies this`outbound
      ensures outbound == old(outbound) + src[..n]
    {
      outbound := outbound + src[..n];
    }
  }
}
