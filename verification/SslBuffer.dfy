/**
 * The buffer that sealed records wait in: an allocation, an offset into it, a
 * size and a capacity, all but the first in 16 bits.
 */
module SslBuffer {
  import opened Bytes

  /** SSL3_ALIGN_PAYLOAD - 1: room to place the payload at an aligned address. */
  const SLACK: nat := 7

  class Buffer {
    var data: array<byte>
    var offset: uint16
    var size: uint16
    var cap: uint16
    /** what is in the buffer */
    ghost var contents: seq<byte>

    ghost predicate Valid()
      reads this, data
    {
      && size <= cap && offset + cap <= data.Length
      && |contents| == size && forall i | 0 <= i < size :: contents[i] == data[offset + i]
    }

    /** No position in the buffer is beyond 16 bits. */
    predicate Snug()
      reads this
    {
      offset + cap <= 0xffff
    }

    constructor ()
      ensures Valid() && Snug() && fresh(data) && contents == [] && cap == 0
    {
      data := new byte[0];
      offset, size, cap := 0, 0, 0;
      contents := [];
    }

    /** Everything is dropped, the allocation too. */
    method Clear()
      modifies this
      ensures Valid() && Snug() && fresh(data) && contents == [] && cap == 0
    {
      data := new byte[0];
      offset, size, cap := 0, 0, 0;
      contents := [];
    }

    /**
     * Room for newCap bytes in all. A larger allocation takes the contents
     * over, behind an offset that depends on where it lies in memory.
     */
    method EnsureCap(headerLen: nat, newCap: nat, address: nat) returns (ok: bool)
      requires Valid()
      modifies this
      ensures Valid() && contents == old(contents) && (data == old(data) || fresh(data))
      ensures ok <==> newCap <= 0xffff
      ensures ok ==> cap >= newCap
      ensures old(Snug()) && (newCap <= 0xffff ==> newCap + SLACK <= 0xffff) ==> Snug()
      ensures !ok ==> data == old(data) && offset == old(offset) && size == old(size) && cap == old(cap)
      ensures ok && old(cap) < newCap ==>
        fresh(data) && offset == (8 - (headerLen + address) % 8) % 8 && (forall i | 0 <= i < offset :: data[i] == 0)
    {
      if newCap > 0xffff {
        return false;
      }
      if cap >= newCap {
        return true;
      }
      var larger := new byte[newCap + SLACK](_ => 0);
      var start := (8 - (headerLen + address) % 8) % 8;
      Place(larger, start, data[offset..offset + size]);
      data, offset, cap := larger, start, newCap;
      return true;
    }

    /** Bytes are written into an allocation; what lies before them stays. */
    static method Place(to: array<byte>, at: nat, bytes: seq<byte>)
      requires at + |bytes| <= to.Length
      modifies to
      ensures forall k | 0 <= k < |bytes| :: to[at + k] == bytes[k]
      ensures forall k | 0 <= k < at :: to[k] == old(to[k])
    {
      var i := 0;
      while i < |bytes|
        invariant i <= |bytes|
        invariant forall k | 0 <= k < i :: to[at + k] == bytes[k]
        invariant forall k | 0 <= k < at :: to[k] == old(to[k])
      {
        to[at + i] := bytes[i];
        i := i + 1;
      }
    }

    /** Bytes are placed behind the contents, and DidWrite takes them in. */
    method Append(bytes: seq<byte>)
      requires Valid() && size + |bytes| <= cap
      modifies this, data
      ensures Valid() && data == old(data) && contents == old(contents) + bytes && cap == old(cap) && offset == old(offset)
      ensures forall k | 0 <= k < offset :: data[k] == old(data[k])
    {
      Place(data, offset + size, bytes);
      size := size + |bytes|;
      contents := contents + bytes;
    }

    /**
     * The first n bytes are gone; the capacity they took is not given back.
     * The 16-bit offset still finds the rest if and only if it does not wrap,
     * or nothing is left to be found.
     */
    method Consume(n: nat)
      requires Valid() && n <= size
      modifies this
      ensures data == old(data) && contents == old(contents)[n..] && size == old(size) - n
      ensures old(offset) + n <= 0xffff || n == old(size) ==> Valid()
      ensures offset == old(offset) + n <==> old(offset) + n <= 0xffff
      ensures old(offset) + n > 0xffff ==> offset == old(offset) + n - 0x1_0000
      ensures old(Snug()) ==> Valid() && Snug()
    {
      offset := (offset + n) % 0x1_0000;
      size := size - n;
      cap := cap - n;
      contents := contents[n..];
    }

    /** The bytes waiting. */
    method Pending() returns (bytes: seq<byte>)
      requires offset + size <= data.Length
      ensures bytes == data[offset..offset + size] && (Valid() ==> bytes == contents)
    {
      bytes := data[offset..offset + size];
    }
  }

  /**
   * A capacity that leaves no room for the alignment within 16 bits: once the
   * offset has wrapped, what is read is not what was written.
   */
  method OffsetWraps() returns (wrong: seq<byte>, right: seq<byte>)
    ensures |wrong| == |right| == 6 && forall i | 0 <= i < 6 :: wrong[i] != right[i]
  {
    var b := new Buffer();
    var ok := b.EnsureCap(1, 0xffff, 0);
    var bytes := seq(0xffff, _ => 1);
    b.Append(bytes);
    b.Consume(0xfff9);
    wrong := b.Pending();
    right := bytes[0xfff9..];
  }
}
