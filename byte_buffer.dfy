/**
 * The MourOS byte FIFO (src/buffer.c): a ring over `data_len` bytes with a
 * read cursor, a write cursor and an `overflow` flag. Unlike the mailbox,
 * the ring may fill completely: when the write cursor catches up with the
 * read cursor the flag is raised, and it tells a full ring apart from an
 * empty one, whose cursors are equal too.
 */
module ByteBuffer {
  import opened Support

  /**
   * The ring state on values: `c` is the queued bytes, oldest first, held
   * in `data` from `rp` on with wrap-around at `len`.
   */
  ghost predicate Ring(data: seq<byte>, len: nat, rp: nat, wp: nat, overflow: bool, c: seq<byte>)
  {
    && 0 < len <= |data|
    && rp < len && |c| <= len
    && wp == Wrap(rp + |c|, len)
    && (overflow <==> |c| == len)
    && forall i :: 0 <= i < |c| ==> c[i] == data[Wrap(rp + i, len)]
  }

  /**
   * The occupancy read off the cursors: the distance from the read to the
   * write cursor modulo `len`, or all of `len` when `overflow` is set; and
   * a raised flag means the cursors meet.
   */
  lemma RingOccupancy(data: seq<byte>, len: nat, rp: nat, wp: nat, overflow: bool, c: seq<byte>)
    requires Ring(data, len, rp, wp, overflow, c)
    ensures |c| == if overflow then len else (wp - rp) % len
    ensures overflow ==> wp == rp
  {
    if !overflow {
      if rp + |c| < len {
        assert wp - rp == |c|;
      } else {
        assert wp - rp == |c| - len;
        ModOfNegative(|c| - len, len);
      }
    }
  }

  /** A negative distance of at most `n` lies `n` below its remainder. */
  lemma ModOfNegative(d: int, n: nat)
    requires 0 <= d + n && d < 0
    ensures d % n == d + n
  {
    assert d == n * (-1) + (d + n);
  }

  /** The buffer is empty exactly when the cursors meet with the flag clear. */
  lemma RingEmpty(data: seq<byte>, len: nat, rp: nat, wp: nat, overflow: bool, c: seq<byte>)
    requires Ring(data, len, rp, wp, overflow, c)
    ensures c == [] <==> rp == wp && !overflow
  {
  }

  /** Storing at the write cursor of a ring with room appends the byte. */
  lemma RingPush(data: seq<byte>, len: nat, rp: nat, wp: nat, overflow: bool, c: seq<byte>, ch: byte)
    requires Ring(data, len, rp, wp, overflow, c) && !overflow
    ensures Ring(data[wp := ch], len, rp, Wrap(wp + 1, len), Wrap(wp + 1, len) == rp, c + [ch])
  {
    var c' := c + [ch];
    forall i | 0 <= i < |c'|
      ensures c'[i] == data[wp := ch][Wrap(rp + i, len)]
    {
      if i < |c| {
        assert Wrap(rp + i, len) != wp;
      }
    }
  }

  /** Taking from the read cursor of a non-empty ring removes the oldest byte. */
  lemma RingPop(data: seq<byte>, len: nat, rp: nat, wp: nat, overflow: bool, c: seq<byte>)
    requires Ring(data, len, rp, wp, overflow, c) && c != []
    ensures data[rp] == c[0]
    ensures Ring(data, len, Wrap(rp + 1, len), wp, false, c[1..])
  {
    assert c[0] == data[Wrap(rp + 0, len)];
    var c' := c[1..];
    forall i | 0 <= i < |c'|
      ensures c'[i] == data[Wrap(Wrap(rp + 1, len) + i, len)]
    {
      assert c'[i] == c[i + 1];
    }
  }

  /** `buffer_t`. */
  class Buffer {
    var data: array<byte>
    var dataLen: nat
    var readPos: nat
    var writePos: nat
    var overflow: bool
    /** Whether a `data_added` callback is installed. */
    var dataAdded: bool
    /** How many times `data_added` has been called. */
    ghost var notified: nat
    /** The queued bytes, oldest first. */
    ghost var Contents: seq<byte>

    ghost predicate Valid()
      reads this`data, this`dataLen, this`readPos, this`writePos, this`overflow, this`Contents, data
    {
      Ring(data[..], dataLen, readPos, writePos, overflow, Contents)
    }

    /**
     * `os_buffer_init`: an empty buffer over the first `len` bytes of
     * `buf`. A length of 0 is accepted unchecked; the buffer is then no
     * ring, and the first `write_char` stores at the write cursor, which
     * is not below the length.
     */
    constructor Init(buf: array<byte>, len: nat, callback: bool)
      requires len <= buf.Length
      ensures (Valid() <==> 0 < len) && data == buf && dataLen == len && dataAdded == callback
      ensures len == 0 ==> writePos == dataLen && !overflow
      ensures readPos == 0 && writePos == 0 && !overflow
      ensures Contents == [] && notified == 0
    {
      data := buf;
      dataLen := len;
      readPos := 0;
      writePos := 0;
      overflow := false;
      dataAdded := callback;
      Contents := [];
      notified := 0;
    }

    /**
     * `write_char`: stores `ch` at the write cursor unless the buffer is
     * full, advancing the cursor with wrap-around and raising `overflow`
     * when it reaches the read cursor. A full buffer is left as it is.
     */
    method WriteChar(ch: byte) returns (ok: bool)
      requires Valid()
      modifies this`writePos, this`overflow, this`Contents, data
      ensures Valid()
      ensures ok <==> !old(overflow)
      ensures ok <==> |old(Contents)| < dataLen
      ensures ok ==> data[..] == old(data[..])[old(writePos) := ch]
      ensures ok ==> writePos == Wrap(old(writePos) + 1, dataLen) && (overflow <==> writePos == readPos)
      ensures Contents == if ok then old(Contents) + [ch] else old(Contents)
      ensures !ok ==> data[..] == old(data[..]) && writePos == old(writePos) && overflow
    {
      if !overflow {
        RingPush(data[..], dataLen, readPos, writePos, overflow, Contents, ch);
        data[writePos] := ch;
        writePos := writePos + 1;
        if writePos == dataLen {
          writePos := 0;
        }
        if writePos == readPos {
          overflow := true;
        }
        Contents := Contents + [ch];
        ok := true;
      } else {
        ok := false;
      }
    }

    /**
     * `os_buffer_write_byte`: `write_char`, then one call of `data_added`
     * if the byte went in and a callback is installed.
     */
    method WriteByte(b: byte) returns (ok: bool)
      requires Valid()
      modifies this`writePos, this`overflow, this`Contents, this`notified, data
      ensures Valid()
      ensures ok <==> |old(Contents)| < dataLen
      ensures Contents == if ok then old(Contents) + [b] else old(Contents)
      ensures notified == old(notified) + if ok && dataAdded then 1 else 0
    {
      ok := WriteChar(b);
      if ok && dataAdded {
        notified := notified + 1;
      }
    }

    /**
     * `os_buffer_write` as written: the loop leaves at the first write
     * that SUCCEEDS. A buffer with room takes `in[0]` and returns 0; a
     * full one refuses every byte and returns `inLen`, and then calls
     * `data_added` although nothing was added.
     */
    method WriteAsWritten(bytes: seq<byte>, inLen: nat) returns (i: nat)
      requires Valid() && inLen <= |bytes|
      modifies this`writePos, this`overflow, this`Contents, this`notified, data
      ensures Valid()
      ensures i == if |old(Contents)| < dataLen && inLen > 0 then 0 else inLen
      ensures Contents == if |old(Contents)| < dataLen && inLen > 0 then old(Contents) + [bytes[0]] else old(Contents)
      ensures notified == old(notified) + if i > 0 && dataAdded then 1 else 0
    {
      i := 0;
      while i < inLen
        invariant Valid() && i <= inLen
        invariant i > 0 ==> |old(Contents)| == dataLen
        invariant Contents == old(Contents) && notified == old(notified)
      {
        var ok := WriteChar(bytes[i]);
        if ok {
          break;
        }
        i := i + 1;
      }
      if i > 0 && dataAdded {
        notified := notified + 1;
      }
    }

    /**
     * `os_buffer_write` as documented: writes the first `inLen` bytes
     * until the buffer is full, returns how many went in, and calls
     * `data_added` once if any did.
     */
    method Write(bytes: seq<byte>, inLen: nat) returns (i: nat)
      requires Valid() && inLen <= |bytes|
      modifies this`writePos, this`overflow, this`Contents, this`notified, data
      ensures Valid()
      ensures i == Min(inLen, dataLen - |old(Contents)|)
      ensures Contents == old(Contents) + bytes[..i]
      ensures notified == old(notified) + if i > 0 && dataAdded then 1 else 0
    {
      i := 0;
      while i < inLen
        invariant Valid() && i <= inLen
        invariant |old(Contents)| + i <= dataLen
        invariant Contents == old(Contents) + bytes[..i] && notified == old(notified)
      {
        var ok := WriteChar(bytes[i]);
        if !ok {
          break;
        }
        assert bytes[..i + 1] == bytes[..i] + [bytes[i]];
        i := i + 1;
      }
      if i > 0 && dataAdded {
        notified := notified + 1;
      }
    }

    /**
     * `os_buffer_read_ch`: the oldest byte, when there is one, advancing
     * the read cursor with wrap-around and clearing `overflow`; `prev` is
     * what `*out` held, which an empty buffer leaves in place.
     */
    method ReadCh(prev: byte) returns (ok: bool, b: byte)
      requires Valid()
      modifies this`readPos, this`overflow, this`Contents
      ensures Valid()
      ensures ok <==> old(readPos) != old(writePos) || old(overflow)
      ensures ok <==> old(Contents) != []
      ensures ok ==> b == old(Contents)[0] && Contents == old(Contents)[1..]
      ensures ok ==> readPos == Wrap(old(readPos) + 1, dataLen) && !overflow
      ensures !ok ==> b == prev && Contents == old(Contents) && readPos == old(readPos)
    {
      RingEmpty(data[..], dataLen, readPos, writePos, overflow, Contents);
      if readPos != writePos || overflow {
        RingPop(data[..], dataLen, readPos, writePos, overflow, Contents);
        b := data[readPos];
        readPos := readPos + 1;
        if readPos == dataLen {
          readPos := 0;
        }
        overflow := false;
        Contents := Contents[1..];
        ok := true;
      } else {
        b := prev;
        ok := false;
      }
    }

    /**
     * `os_buffer_read` as written: the loop leaves at the first read that
     * SUCCEEDS. A non-empty buffer yields one byte into `out[0]` and
     * returns 0; an empty one returns `outLen` with `out` untouched.
     */
    method ReadAsWritten(out: array<byte>, outLen: nat) returns (i: nat)
      requires Valid() && out != data && outLen <= out.Length
      modifies this`readPos, this`overflow, this`Contents, out
      ensures Valid()
      ensures i == if old(Contents) != [] && outLen > 0 then 0 else outLen
      ensures old(Contents) != [] && outLen > 0 ==> out[..] == old(out[..])[0 := old(Contents)[0]] && Contents == old(Contents)[1..]
      ensures !(old(Contents) != [] && outLen > 0) ==> out[..] == old(out[..]) && Contents == old(Contents)
    {
      i := 0;
      while i < outLen
        invariant Valid() && i <= outLen
        invariant i > 0 ==> old(Contents) == []
        invariant Contents == old(Contents) && out[..] == old(out[..])
      {
        var ok, b := ReadCh(out[i]);
        out[i] := b;
        if ok {
          break;
        }
        i := i + 1;
      }
    }

    /**
     * `os_buffer_read` as documented: reads up to `outLen` bytes into
     * `out`, oldest first, and returns how many it read.
     */
    method Read(out: array<byte>, outLen: nat) returns (i: nat)
      requires Valid() && out != data && outLen <= out.Length
      modifies this`readPos, this`overflow, this`Contents, out
      ensures Valid()
      ensures i == Min(outLen, |old(Contents)|)
      ensures out[..i] == old(Contents)[..i] && out[i..] == old(out[i..])
      ensures Contents == old(Contents)[i..]
    {
      i := 0;
      while i < outLen
        invariant Valid() && i <= outLen && i <= |old(Contents)|
        invariant out[..i] == old(Contents)[..i] && out[i..] == old(out[i..])
        invariant Contents == old(Contents)[i..]
      {
        var ok, b := ReadCh(out[i]);
        if !ok {
          break;
        }
        out[i] := b;
        i := i + 1;
      }
    }
  }

  /**
   * Two bytes into an empty four-byte buffer: `os_buffer_write` as written
   * takes only the first and reports 0; as documented it takes both and
   * reports 2. Reading back as written yields one byte and reports 0.
   */
  method WriteReadScenario() returns (wroteAsWritten: nat, wrote: nat, readAsWritten: nat, read: seq<byte>)
    ensures wroteAsWritten == 0 && wrote == 2 && readAsWritten == 0 && read == [5, 6]
  {
    var bytes: seq<byte> := [5, 6];
    var d1 := new byte[4];
    var b1 := new Buffer.Init(d1, 4, false);
    wroteAsWritten := b1.WriteAsWritten(bytes, 2);
    var o1 := new byte[2];
    readAsWritten := b1.ReadAsWritten(o1, 2);
    var d2 := new byte[4];
    var b2 := new Buffer.Init(d2, 4, false);
    wrote := b2.Write(bytes, 2);
    var o2 := new byte[2];
    var n := b2.Read(o2, 2);
    read := o2[..n];
  }
}
