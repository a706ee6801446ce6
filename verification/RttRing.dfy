/** One channel of the log: a byte ring whose offsets a host can leave at any value
    (firmware/src/rtt.c). */
module RttRing {

  type Byte = char

  // An offset outside the buffer counts as 0.
  function Clamp(offset: nat, size: nat): nat { if offset >= size then 0 else offset }

  // A position past the end of the buffer, brought back to its start.
  function Wrap(at: nat, size: nat): nat { if at < size then at else at - size }

  // onerom_rtt_pending
  function Pending(size: nat, writeOffset: nat, readOffset: nat): (pending: nat)
    requires writeOffset < size && readOffset < size
    ensures pending < size && writeOffset == Wrap(readOffset + pending, size)
  {
    if writeOffset >= readOffset then writeOffset - readOffset else size - readOffset + writeOffset
  }

  // onerom_rtt_avail, once read_offset is clamped.
  function Avail(size: nat, writeOffset: nat, readOffset: nat): (free: nat)
    requires writeOffset < size && readOffset < size
    ensures free + Pending(size, writeOffset, readOffset) + 1 == size
  {
    if readOffset <= writeOffset then size - 1 - writeOffset + readOffset else readOffset - writeOffset - 1
  }

  // The bytes between the offsets, across the wrap.
  function Unread(ring: seq<Byte>, writeOffset: nat, readOffset: nat): (unread: seq<Byte>)
    requires writeOffset < |ring| && readOffset < |ring|
    ensures |unread| == Pending(|ring|, writeOffset, readOffset)
  {
    if readOffset <= writeOffset then ring[readOffset..writeOffset] else ring[readOffset..] + ring[..writeOffset]
  }

  // The byte k places on from an offset.
  function Nth(ring: seq<Byte>, from: nat, k: nat): Byte
    requires from < |ring| && k < |ring|
  {
    ring[Wrap(from + k, |ring|)]
  }

  lemma UnreadAt(ring: seq<Byte>, writeOffset: nat, readOffset: nat, k: nat)
    requires writeOffset < |ring| && readOffset < |ring| && k < Pending(|ring|, writeOffset, readOffset)
    ensures Unread(ring, writeOffset, readOffset)[k] == Nth(ring, readOffset, k)
  {
  }

  // A ring in which data was copied in at an offset, and nothing else changed.
  predicate Filled(before: seq<Byte>, after: seq<Byte>, at: nat, data: seq<Byte>)
    requires |before| == |after| && at < |before| && |data| <= |before|
  {
    && (forall i :: 0 <= i < |data| ==> Nth(after, at, i) == data[i])
    && (forall i :: |data| <= i < |before| ==> Nth(after, at, i) == Nth(before, at, i))
  }

  // Appending in the free part of the ring.
  lemma Appended(before: seq<Byte>, after: seq<Byte>, writeOffset: nat, readOffset: nat, data: seq<Byte>)
    requires |before| == |after| && writeOffset < |before| && readOffset < |before|
    requires |data| <= Avail(|before|, writeOffset, readOffset)
    requires Filled(before, after, writeOffset, data)
    ensures Unread(after, Wrap(writeOffset + |data|, |before|), readOffset)
         == Unread(before, writeOffset, readOffset) + data
  {
    var size, pending := |before|, Pending(|before|, writeOffset, readOffset);
    var whole := Unread(after, Wrap(writeOffset + |data|, size), readOffset);
    assert |whole| == pending + |data|;
    forall k | 0 <= k < |whole|
      ensures whole[k] == (Unread(before, writeOffset, readOffset) + data)[k]
    {
      UnreadAt(after, Wrap(writeOffset + |data|, size), readOffset, k);
      if k < pending {
        UnreadAt(before, writeOffset, readOffset, k);
        assert Nth(after, writeOffset, size - pending + k) == Nth(before, writeOffset, size - pending + k);
      } else {
        assert Nth(after, readOffset, k) == Nth(after, writeOffset, k - pending);
      }
    }
  }

  // Taking from the front.
  lemma Taken(ring: seq<Byte>, writeOffset: nat, readOffset: nat, n: nat)
    requires writeOffset < |ring| && readOffset < |ring| && n <= Pending(|ring|, writeOffset, readOffset)
    ensures Unread(ring, writeOffset, Wrap(readOffset + n, |ring|)) == Unread(ring, writeOffset, readOffset)[n..]
  {
    var rest := Unread(ring, writeOffset, Wrap(readOffset + n, |ring|));
    forall k | 0 <= k < |rest|
      ensures rest[k] == Unread(ring, writeOffset, readOffset)[n..][k]
    {
      UnreadAt(ring, writeOffset, Wrap(readOffset + n, |ring|), k);
      UnreadAt(ring, writeOffset, readOffset, n + k);
    }
  }

  class Ring {
    var buffer: array?<Byte>
    var size: nat
    var writeOffset: nat
    var readOffset: nat

    // The offsets can be anything: a host writes one of them.
    ghost predicate Valid() reads this { buffer != null ==> size == buffer.Length }

    // onerom_rtt_ring's test.
    predicate Present() reads this { buffer != null && size > 0 }

    // The bytes waiting to be read.
    ghost function Contents(): (contents: seq<Byte>)
      requires Valid()
      reads this, buffer
      ensures Present() ==> |contents| < size
    {
      if !Present() then []
      else Unread(buffer[..], Clamp(writeOffset, size), Clamp(readOffset, size))
    }

    // memcpy into the ring.
    method CopyIn(at: nat, data: array<Byte>, from: nat, n: nat)
      requires buffer != null && data != buffer
      requires at + n <= buffer.Length && from + n <= data.Length
      modifies buffer
      ensures forall i :: 0 <= i < buffer.Length ==>
        buffer[i] == if at <= i < at + n then data[from + (i - at)] else old(buffer[i])
    {
      forall i | 0 <= i < n { buffer[at + i] := data[from + i]; }
    }

    // Copies a record in across the wrap, and says where the next goes.
    method Fill(at: nat, data: array<Byte>, len: nat) returns (next: nat)
      requires buffer != null && data != buffer && size == buffer.Length
      requires at < size && len <= size && len <= data.Length
      modifies buffer
      ensures Filled(old(buffer[..]), buffer[..], at, data[..len]) && next == Wrap(at + len, size)
    {
      var toEnd := size - at;
      if toEnd > len {
        CopyIn(at, data, 0, len);
        next := at + len;
      } else {
        CopyIn(at, data, 0, toEnd);
        CopyIn(0, data, toEnd, len - toEnd);
        next := len - toEnd;
      }
    }

    // A record is appended whole, or not at all and nothing read or unread changes.
    method Write(data: array<Byte>, len: nat) returns (written: nat)
      requires Valid() && data != buffer && len <= data.Length
      modifies this`writeOffset, buffer
      ensures Valid() && data[..] == old(data[..])
      ensures written == if Present() && |old(Contents())| + len < size then len else 0
      ensures Contents() == old(Contents()) + data[..written]
      ensures written < len ==> buffer == null || buffer[..] == old(buffer[..])
    {
      if !Present() { return 0; }
      ghost var before := buffer[..];
      var w, r := writeOffset, Clamp(readOffset, size);
      if w >= size {
        w := 0;
        writeOffset := 0;
      }
      if Avail(size, w, r) < len {
        return 0;
      }
      var next := Fill(w, data, len);
      writeOffset := next;
      Appended(before, buffer[..], w, r, data[..len]);
      return len;
    }

    // memcpy out of the ring.
    method CopyOut(dest: array<Byte>, to: nat, at: nat, n: nat)
      requires buffer != null && dest != buffer
      requires at + n <= buffer.Length && to + n <= dest.Length
      modifies dest
      ensures forall i :: 0 <= i < dest.Length ==>
        dest[i] == if to <= i < to + n then buffer[at + (i - to)] else old(dest[i])
    {
      forall i | 0 <= i < n { dest[to + i] := buffer[at + i]; }
    }

    // Copies bytes out across the wrap, and says where the next are.
    method Drain(dest: array<Byte>, at: nat, n: nat) returns (next: nat)
      requires buffer != null && dest != buffer && size == buffer.Length
      requires at < size && n < size && n <= dest.Length
      modifies dest
      ensures next == Wrap(at + n, size)
      ensures forall k :: 0 <= k < n ==> dest[k] == Nth(buffer[..], at, k)
      ensures dest[n..] == old(dest[n..])
    {
      var toEnd := size - at;
      if toEnd > n {
        CopyOut(dest, 0, at, n);
        next := at + n;
      } else {
        CopyOut(dest, 0, at, toEnd);
        CopyOut(dest, toEnd, 0, n - toEnd);
        next := n - toEnd;
      }
    }

    // The bytes at the front are taken, as many as there are up to maxLen.
    method Read(dest: array?<Byte>, maxLen: nat) returns (n: nat)
      requires Valid() && (dest != null ==> dest != buffer && maxLen <= dest.Length)
      modifies this`readOffset, dest
      ensures Valid()
      ensures n == if dest == null then 0
                   else if |old(Contents())| < maxLen then |old(Contents())| else maxLen
      ensures Contents() == old(Contents())[n..]
      ensures dest != null ==> dest[..n] == old(Contents())[..n] && dest[n..] == old(dest[n..])
    {
      if !Present() || dest == null { return 0; }
      var w, r := Clamp(writeOffset, size), Clamp(readOffset, size);
      var pending := Pending(size, w, r);
      if pending > maxLen {
        pending := maxLen;
      }
      if pending == 0 { return 0; }
      var next := Drain(dest, r, pending);
      readOffset := next;
      forall k | 0 <= k < pending
        ensures dest[k] == Unread(buffer[..], w, r)[k]
      {
        UnreadAt(buffer[..], w, r, k);
      }
      Taken(buffer[..], w, r, pending);
      return pending;
    }

    // How much there is to read and how much a write can add: what Read would take, and the longest
    // record that Write would not drop.
    method Query() returns (bytes: nat, free: nat, pending: nat)
      requires Valid()
      ensures pending == |Contents()|
      ensures if Present() then bytes == size && free + pending + 1 == size else bytes == free == 0
      ensures Present() ==> free == Avail(size, Clamp(writeOffset, size), Clamp(readOffset, size))
    {
      bytes, free, pending := 0, 0, 0;
      if Present() {
        bytes := size;
        pending := Pending(size, Clamp(writeOffset, size), Clamp(readOffset, size));
        free := size - 1 - pending;
      }
    }
  }
}
