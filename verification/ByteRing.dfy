// The byte ring of a one-to-one channel with memory copy (mc121).
module ByteRing {

  newtype byte = x: int | 0 <= x < 256

  // One direction of a socket: everything written to it, in order.
  class Socket {
    var sent: seq<byte>

    constructor ()
      ensures sent == []
    {
      sent := [];
    }

    method Write(data: seq<byte>)
      modifies this
      ensures sent == old(sent) + data
    {
      sent := sent + data;
    }
  }

  // The four bytes of the availability flag that answers a conditional get.
  function Flag(available: bool): (f: seq<byte>)
    ensures |f| == 4
  {
    [if available then 1 else 0, 0, 0, 0]
  }

  // The offset `len` bytes behind offset `start` of a circular buffer.
  function After(size: nat, start: nat, len: nat): nat
    requires start <= size && len <= size
  {
    if start + len < size then start + len else start + len - size
  }

  // The `len` bytes that start there.
  function Live(s: seq<byte>, start: nat, len: nat): (c: seq<byte>)
    requires start <= |s| && len <= |s|
    ensures |c| == len
  {
    seq(len, i requires 0 <= i < len => s[After(|s|, start, i)])
  }

  // How far offset k lies behind `start`.
  function Distance(size: nat, start: nat, k: nat): nat
    requires k < size && start <= size
  {
    if k >= start then k - start else k - start + size
  }

  // New bytes behind the live ones, none of the live ones touched.
  lemma Appended(s: seq<byte>, s': seq<byte>, start: nat, len: nat, data: seq<byte>)
    requires |s'| == |s| && start <= |s| && len + |data| <= |s| && (start == |s| ==> |s| == 0)
    requires forall k :: 0 <= k < |s| ==>
      var d := Distance(|s|, start, k);
      if d < len then s'[k] == s[k] else d < len + |data| ==> s'[k] == data[d - len]
    ensures Live(s', start, len + |data|) == Live(s, start, len) + data
  {
    var old', new' := Live(s, start, len), Live(s', start, len + |data|);
    forall i: nat | i < len + |data| ensures new'[i] == (old' + data)[i] {
      var k := if start + i < |s| then start + i else start + i - |s|;
      assert new'[i] == s'[k] && Distance(|s|, start, k) == i;
      assert i < len ==> old'[i] == s[k];
    }
  }

  // The oldest bytes of a block that reaches the buffer's end come in two parts.
  lemma TakeSplit(s: seq<byte>, start: nat, len: nat, n: nat)
    requires start <= |s| && n <= len <= |s| && |s| - start <= n
    ensures var rest := n - (|s| - start);
      && (forall head: seq<byte> :: head + s[start..] + s[..rest] == head + Live(s, start, len)[..n])
      && (rest == 0 ==> s[start..] == Live(s, start, len)[..n])
  {
    var rest := n - (|s| - start);
    assert s[start..] + s[..rest] == Live(s, start, len)[..n];
    forall head: seq<byte> ensures head + s[start..] + s[..rest] == head + Live(s, start, len)[..n] {
      assert head + s[start..] + s[..rest] == head + (s[start..] + s[..rest]);
    }
  }

  // What is left when the oldest n bytes are gone.
  lemma Dropped(s: seq<byte>, start: nat, len: nat, n: nat)
    requires start <= |s| && n <= len <= |s| && (start == |s| ==> |s| == 0)
    ensures var next := After(|s|, start, n);
      && next <= |s| && (next == |s| ==> |s| == 0)
      && Live(s, next, len - n) == Live(s, start, len)[n..]
      && After(|s|, next, len - n) == After(|s|, start, len)
  {
    var all := Live(s, start, len);
    if start + len <= |s| {
      assert all == s[start..start + len];
      if start + n < |s| {
        assert all[n..] == s[start + n..start + len];
      } else {
        assert len == n && all[n..] == [];
      }
    } else {
      assert all == s[start..] + s[..start + len - |s|];
      if start + n < |s| {
        assert all[n..] == s[start + n..] + s[..start + len - |s|];
      } else {
        assert all[n..] == s[start + n - |s|..start + len - |s|];
      }
    }
  }

  class Ring {
    const buff: array<byte>
    var bytesInBuff: nat
    var freeStart: nat
    var dataStart: nat

    // The free region starts where the data ends, modulo the size.
    ghost predicate Valid()
      reads this
    {
      && bytesInBuff <= buff.Length
      && (if buff.Length == 0 then dataStart == 0 else dataStart < buff.Length)
      && freeStart == After(buff.Length, dataStart, bytesInBuff)
    }

    // The live bytes, oldest first.
    ghost function Contents(): (c: seq<byte>)
      requires Valid()
      reads this, buff
      ensures |c| == bytesInBuff
    {
      Live(buff[..], dataStart, bytesInBuff)
    }

    constructor (size: nat)
      ensures Valid() && fresh(buff) && buff.Length == size && Contents() == []
    {
      buff := new byte[size];
      bytesInBuff, freeStart, dataStart := 0, 0, 0;
    }

    method Copy(at: nat, src: seq<byte>)
      requires at + |src| <= buff.Length
      modifies buff
      ensures forall j :: 0 <= j < |src| ==> buff[at + j] == src[j]
      ensures forall k :: 0 <= k < buff.Length && !(at <= k < at + |src|) ==> buff[k] == old(buff[k])
    {
      forall i | 0 <= i < |src| {
        buff[at + i] := src[i];
      }
    }

    // Writes a block behind the live bytes, in two parts when it reaches the
    // buffer's end, and returns the new start of the free region.
    method WriteBlock(local: seq<byte>) returns (next: nat)
      requires Valid() && bytesInBuff + |local| <= buff.Length
      modifies buff
      ensures next == After(buff.Length, dataStart, bytesInBuff + |local|)
      ensures Live(buff[..], dataStart, bytesInBuff + |local|) == old(Contents()) + local
    {
      var upperFree := buff.Length - freeStart;
      if upperFree > |local| {
        Copy(freeStart, local);
        next := freeStart + |local|;
      } else {
        Copy(freeStart, local[..upperFree]);
        var bytesRemaining := |local| - upperFree;
        if bytesRemaining > 0 {
          Copy(0, local[upperFree..]);
          next := bytesRemaining;
        } else {
          next := 0;
        }
      }
      Appended(old(buff[..]), buff[..], dataStart, bytesInBuff, local);
    }

    // Sends the oldest live bytes, in two parts when they wrap around, and
    // returns the new start of the data.
    method ReadBlock(fd: Socket, bytes: nat) returns (next: nat)
      requires Valid() && bytes <= bytesInBuff
      modifies fd
      ensures next == After(buff.Length, dataStart, bytes)
      ensures fd.sent == old(fd.sent) + Contents()[..bytes]
    {
      var upperData := buff.Length - dataStart;
      if upperData > bytes {
        assert buff[dataStart..dataStart + bytes] == Contents()[..bytes];
        fd.Write(buff[dataStart..dataStart + bytes]);
        next := dataStart + bytes;
      } else {
        TakeSplit(buff[..], dataStart, bytesInBuff, bytes);
        fd.Write(buff[dataStart..]);
        var bytesRemaining := bytes - upperData;
        if bytesRemaining > 0 {
          fd.Write(buff[..bytesRemaining]);
          next := bytesRemaining;
        } else {
          next := 0;
        }
      }
    }

    // A put succeeds exactly when there is room, appends its bytes to the live
    // contents, and otherwise leaves the ring alone.
    method PutQ(local: seq<byte>) returns (rc: int)
      requires Valid()
      modifies this, buff
      ensures Valid()
      ensures rc == if buff.Length - old(bytesInBuff) < |local| then -1 else 0
      ensures rc == 0 ==> Contents() == old(Contents()) + local
      ensures rc == -1 ==> unchanged(this) && unchanged(buff)
    {
      if buff.Length - bytesInBuff < |local| {
        return -1;
      }
      freeStart := WriteBlock(local);
      bytesInBuff := bytesInBuff + |local|;
      return 0;
    }

    // A send succeeds exactly when enough bytes are there, writes the oldest of
    // them (after the flag 1 when the get was conditional) and removes them.
    method SendQ(fd: Socket, bytes: nat, condRecv: bool) returns (rc: int)
      requires Valid()
      modifies this, fd
      ensures Valid()
      ensures rc == if old(bytesInBuff) < bytes then -1 else 0
      ensures rc == 0 ==> Contents() == old(Contents())[bytes..]
      ensures rc == 0 ==>
        fd.sent == old(fd.sent) + (if condRecv then Flag(true) else []) + old(Contents())[..bytes]
      ensures rc == -1 ==> unchanged(this) && unchanged(fd)
    {
      if bytesInBuff < bytes {
        return -1;
      }
      if condRecv {
        fd.Write(Flag(true));
      }
      Dropped(buff[..], dataStart, bytesInBuff, bytes);
      dataStart := ReadBlock(fd, bytes);
      bytesInBuff := bytesInBuff - bytes;
      return 0;
    }

    // The answer to a conditional get never waits: data, or the flag 0.
    method AnswerConditional(fd: Socket, bytes: nat)
      requires Valid()
      modifies this, fd
      ensures Valid()
      ensures old(bytesInBuff) >= bytes ==>
        && fd.sent == old(fd.sent) + Flag(true) + old(Contents())[..bytes]
        && Contents() == old(Contents())[bytes..]
      ensures old(bytesInBuff) < bytes ==>
        fd.sent == old(fd.sent) + Flag(false) && unchanged(this)
    {
      var rc := SendQ(fd, bytes, true);
      if rc == -1 {
        fd.Write(Flag(false));
      }
    }
  }
}
