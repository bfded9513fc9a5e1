/**
 * The MourOS mailbox (src/mailbox.c): a circular FIFO of fixed-size
 * messages stored in a caller-supplied byte buffer. The cursors `read_pos`
 * and `write_pos` are byte offsets that move one message (`msg_size` bytes)
 * at a time; one slot always stays unused so that `read_pos == write_pos`
 * means "empty" and never "full".
 */
module Mailbox {
  import opened Support

  /**
   * Where a cursor goes after one message: `msgSize` bytes further on, or
   * back to 0 exactly when that lands on the end of the buffer.
   */
  function Advance(pos: nat, msgSize: nat, msgBufLen: nat): (r: nat)
    ensures 0 < msgSize && pos + msgSize <= msgBufLen ==> r < msgBufLen
    ensures pos + msgSize == msgBufLen ==> r == 0
    ensures r != 0 ==> r == pos + msgSize
  {
    if pos + msgSize == msgBufLen then 0 else pos + msgSize
  }

  /** A cursor the mailbox can hold: a message boundary inside the buffer. */
  predicate CursorOk(pos: nat, msgSize: nat, msgBufLen: nat)
  {
    msgSize > 0 && pos % msgSize == 0 && pos < msgBufLen
  }

  /**
   * The number of whole messages of `msgSize` bytes that fit in
   * `msgBufLen` bytes, counted by repeated subtraction.
   */
  function Slots(msgBufLen: nat, msgSize: nat): nat
    requires msgSize > 0
    decreases msgBufLen
  {
    if msgBufLen < msgSize then 0 else 1 + Slots(msgBufLen - msgSize, msgSize)
  }

  /**
   * For a buffer that is a whole number of messages (what `os_mailbox_init`
   * asserts), the slot count is the C quotient `msg_buf_len / msg_size`.
   */
  lemma SlotsIsQuotient(msgBufLen: nat, msgSize: nat)
    requires msgSize > 0 && msgBufLen % msgSize == 0
    ensures Slots(msgBufLen, msgSize) == msgBufLen / msgSize
  {
    OffsetOfQuotient(msgBufLen, msgSize);
    SlotsOfOffset(msgBufLen / msgSize, msgSize);
  }

  /** A buffer of `k` whole slots has `k` slots. */
  lemma {:induction false} SlotsOfOffset(k: nat, m: nat)
    requires m > 0
    ensures Slots(Offset(k, m), m) == k
  {
    if k > 0 {
      SlotsOfOffset(k - 1, m);
    }
  }

  /** The number of messages a mailbox can hold: every slot but one. */
  function Capacity(msgBufLen: nat, msgSize: nat): nat
    requires msgSize > 0
  {
    if Slots(msgBufLen, msgSize) == 0 then 0 else Slots(msgBufLen, msgSize) - 1
  }

  /** Message `k` of a flat byte sequence holding messages `m` bytes apart. */
  function Chunk(s: seq<byte>, m: nat, k: nat): seq<byte>
  {
    var at := Offset(k, m);
    if at + m <= |s| then s[at .. at + m] else []
  }

  /** The first `n` messages of a flat byte sequence holding messages `m` bytes apart. */
  function Chunks(s: seq<byte>, m: nat, n: nat): (r: seq<seq<byte>>)
    ensures |r| == n
  {
    if n == 0 then [] else Chunks(s, m, n - 1) + [Chunk(s, m, n - 1)]
  }

  /** `s` with `data` copied over it starting at index `at`. */
  function Overwrite(s: seq<byte>, at: nat, data: seq<byte>): (r: seq<byte>)
    requires at + |data| <= |s|
    ensures |r| == |s|
    ensures r[at .. at + |data|] == data
    ensures r[..at] == s[..at] && r[at + |data|..] == s[at + |data|..]
  {
    s[..at] + data + s[at + |data|..]
  }

  /**
   * The ring of `slots` message slots of `m` bytes in `buf`, read starting
   * at slot `rd`, holds exactly the messages `c`, oldest first: the oldest
   * is in slot `rd` and the rest follow from the next slot round the ring.
   */
  ghost predicate Holds(buf: seq<byte>, m: nat, slots: nat, rd: nat, c: seq<seq<byte>>)
    decreases |c|
  {
    rd < slots &&
    (c == [] || (c[0] == Chunk(buf, m, rd) && Holds(buf, m, slots, Wrap(rd + 1, slots), c[1..])))
  }

  /** Copying a message over slot `w` leaves every earlier slot as it was. */
  lemma ChunkOverwriteBefore(s: seq<byte>, m: nat, w: nat, k: nat, data: seq<byte>)
    requires |data| == m && Offset(w, m) + m <= |s| && k < w
    ensures Chunk(Overwrite(s, Offset(w, m), data), m, k) == Chunk(s, m, k)
  {
    var t := Overwrite(s, Offset(w, m), data);
    var at := Offset(w, m);
    OffsetMono(k, w, m);
    ChunkOfPrefix(t, at, m, k);
    ChunkOfPrefix(s, at, m, k);
  }

  /** Copying a message over slot `w` leaves every later slot as it was. */
  lemma ChunkOverwriteAfter(s: seq<byte>, m: nat, w: nat, k: nat, data: seq<byte>)
    requires |data| == m && Offset(w, m) + m <= |s| && w < k
    ensures Chunk(Overwrite(s, Offset(w, m), data), m, k) == Chunk(s, m, k)
  {
    var t := Overwrite(s, Offset(w, m), data);
    var base := Offset(w, m) + m;
    OffsetMono(w, k, m);
    if Offset(k, m) + m <= |s| {
      assert t[base..] == s[base..];
      assert Chunk(t, m, k) == t[base..][Offset(k, m) - base .. Offset(k, m) + m - base];
      assert Chunk(s, m, k) == s[base..][Offset(k, m) - base .. Offset(k, m) + m - base];
    }
  }

  /** Copying a message over slot `w` changes slot `w` to it and no other slot. */
  lemma ChunkOverwrite(s: seq<byte>, m: nat, w: nat, k: nat, data: seq<byte>)
    requires |data| == m && Offset(w, m) + m <= |s|
    ensures Chunk(Overwrite(s, Offset(w, m), data), m, w) == data
    ensures k != w ==> Chunk(Overwrite(s, Offset(w, m), data), m, k) == Chunk(s, m, k)
  {
    if k < w {
      ChunkOverwriteBefore(s, m, w, k, data);
    } else if w < k {
      ChunkOverwriteAfter(s, m, w, k, data);
    }
  }

  /**
   * FIFO on enqueue: writing a message into the free slot just past the
   * queued ones yields a ring that holds the old messages followed by it.
   */
  lemma {:induction false} HoldsPush(buf: seq<byte>, m: nat, slots: nat, rd: nat, c: seq<seq<byte>>, w: nat, data: seq<byte>)
    requires Holds(buf, m, slots, rd, c)
    requires |c| + 1 < slots && |data| == m
    requires w == Wrap(rd + |c|, slots) && Offset(w, m) + m <= |buf|
    ensures Holds(Overwrite(buf, Offset(w, m), data), m, slots, rd, c + [data])
    decreases |c|
  {
    var t := Overwrite(buf, Offset(w, m), data);
    ChunkOverwrite(buf, m, w, rd, data);
    if c == [] {
      assert Holds(t, m, slots, Wrap(rd + 1, slots), []);
    } else {
      var next := Wrap(rd + 1, slots);
      assert Wrap(next + |c[1..]|, slots) == w;
      HoldsPush(buf, m, slots, next, c[1..], w, data);
      assert (c + [data])[1..] == c[1..] + [data];
    }
  }

  /** A message that ends by index `p` reads the same from the first `p` bytes. */
  lemma ChunkOfPrefix(s: seq<byte>, p: nat, m: nat, k: nat)
    requires Offset(k, m) + m <= p <= |s|
    ensures Chunk(s[..p], m, k) == Chunk(s, m, k)
  {
    var at := Offset(k, m);
    assert s[..p][at .. at + m] == s[at .. at + m];
  }

  /** Writing at or after message `n` leaves the first `n` messages as they were. */
  lemma {:induction false} ChunksKeep(a: seq<byte>, b: seq<byte>, m: nat, n: nat)
    requires Offset(n, m) <= |a| && Offset(n, m) <= |b|
    requires a[..Offset(n, m)] == b[..Offset(n, m)]
    ensures Chunks(a, m, n) == Chunks(b, m, n)
  {
    if n > 0 {
      var p := Offset(n, m);
      assert a[..Offset(n - 1, m)] == a[..p][..Offset(n - 1, m)];
      assert b[..Offset(n - 1, m)] == b[..p][..Offset(n - 1, m)];
      ChunksKeep(a, b, m, n - 1);
      ChunkOfPrefix(a, p, m, n - 1);
      ChunkOfPrefix(b, p, m, n - 1);
    }
  }

  /** Every queued message is exactly one slot, `m` bytes, long. */
  lemma {:induction false} HoldsSizes(buf: seq<byte>, m: nat, slots: nat, rd: nat, c: seq<seq<byte>>)
    requires Holds(buf, m, slots, rd, c) && Offset(slots, m) <= |buf|
    ensures forall i :: 0 <= i < |c| ==> |c[i]| == m
    decreases |c|
  {
    if c != [] {
      OffsetMono(rd, slots, m);
      HoldsSizes(buf, m, slots, Wrap(rd + 1, slots), c[1..]);
      forall i | 0 <= i < |c|
        ensures |c[i]| == m
      {
        if i > 0 {
          assert c[i] == c[1..][i - 1];
        }
      }
    }
  }

  /**
   * The output buffer of `os_mailbox_read_multiple`: `s` with the messages
   * `msgs` stored one after another, `m` bytes apart, from index 0 on.
   */
  function Fill(s: seq<byte>, m: nat, msgs: seq<seq<byte>>): (r: seq<byte>)
    ensures |r| == |s|
    decreases |msgs|
  {
    if msgs == [] then s
    else
      var t := Fill(s, m, msgs[..|msgs| - 1]);
      var at := Offset(|msgs| - 1, m);
      if at + |msgs[|msgs| - 1]| <= |t| then Overwrite(t, at, msgs[|msgs| - 1]) else t
  }

  /**
   * Storing messages of `m` bytes one after another and reading the same
   * number back message by message gives the same messages, and the bytes
   * after the last one are untouched.
   */
  lemma {:induction false} FillThenChunks(s: seq<byte>, m: nat, msgs: seq<seq<byte>>)
    requires forall i :: 0 <= i < |msgs| ==> |msgs[i]| == m
    requires Offset(|msgs|, m) <= |s|
    ensures Chunks(Fill(s, m, msgs), m, |msgs|) == msgs
    ensures Fill(s, m, msgs)[Offset(|msgs|, m)..] == s[Offset(|msgs|, m)..]
    decreases |msgs|
  {
    if msgs != [] {
      var n := |msgs| - 1;
      var init, last := msgs[..n], msgs[n];
      var at := Offset(n, m);
      assert Offset(|msgs|, m) == at + m;
      FillThenChunks(s, m, init);
      var t := Fill(s, m, init);
      var after := Overwrite(t, at, last);
      assert Fill(s, m, msgs) == after;
      assert after[..at] == t[..at];
      ChunksKeep(t, after, m, n);
      assert Chunk(after, m, n) == last;
      assert msgs == init + [last];
      assert after[at + m..] == t[at + m..] == t[at..][m..];
    }
  }

  /**
   * What `os_mailbox_read_multiple` hands back: reading the output buffer
   * message by message gives the `n` oldest queued messages in the order
   * they were written.
   */
  lemma ReadBack(buf: seq<byte>, len: nat, m: nat, slots: nat, rd: nat, c: seq<seq<byte>>, rp: nat, wp: nat, out: seq<byte>, n: nat)
    requires Ring(buf, len, m, slots, rd, c, rp, wp)
    requires n <= |c| && Offset(n, m) <= |out|
    ensures Chunks(Fill(out, m, c[..n]), m, n) == c[..n]
  {
    HoldsSizes(buf, m, slots, rd, c);
    FillThenChunks(out, m, c[..n]);
  }

  /** Message `n` of a flat sequence is the first message of its suffix at `Offset(n, m)`. */
  lemma ChunksExtend(s: seq<byte>, m: nat, n: nat)
    requires Offset(n, m) + m <= |s|
    ensures s[Offset(n, m)..][..m] == Chunk(s, m, n)
    ensures Chunks(s, m, n + 1) == Chunks(s, m, n) + [Chunk(s, m, n)]
    ensures Offset(n + 1, m) == Offset(n, m) + m
  {
  }

  /**
   * The whole state of a mailbox as values: the buffer `buf` of which the
   * first `len` bytes are `slots` slots of `m` bytes, read cursor `rp` at
   * slot `rd`, write cursor `wp` just past the queued messages `c`, and the
   * slots from `rd` on holding `c`.
   */
  ghost predicate Ring(buf: seq<byte>, len: nat, m: nat, slots: nat, rd: nat, c: seq<seq<byte>>, rp: nat, wp: nat)
  {
    0 < m < 256 &&
    0 < len <= |buf| &&
    len == Offset(slots, m) &&
    rd < slots && |c| < slots &&
    rp == Offset(rd, m) &&
    wp == Offset(Wrap(rd + |c|, slots), m) &&
    Holds(buf, m, slots, rd, c)
  }

  /**
   * The shape of a mailbox: the queue holds at most `Capacity` messages,
   * and each cursor has a whole message's room after it.
   */
  lemma RingShape(buf: seq<byte>, len: nat, m: nat, slots: nat, rd: nat, c: seq<seq<byte>>, rp: nat, wp: nat)
    requires Ring(buf, len, m, slots, rd, c, rp, wp)
    ensures Capacity(len, m) == slots - 1 && |c| <= Capacity(len, m)
    ensures rp + m <= len && wp + m <= len
  {
    SlotsOfOffset(slots, m);
    OffsetMono(rd, slots, m);
    OffsetMono(Wrap(rd + |c|, slots), slots, m);
  }

  /**
   * The cursor invariant of src/mailbox.c: the buffer length is a whole
   * number of messages (`msg_buf_len / msg_size` of them), and both cursors
   * are message boundaries inside the buffer.
   */
  lemma RingCursors(buf: seq<byte>, len: nat, m: nat, slots: nat, rd: nat, c: seq<seq<byte>>, rp: nat, wp: nat)
    requires Ring(buf, len, m, slots, rd, c, rp, wp)
    ensures slots == len / m && len % m == 0
    ensures Capacity(len, m) == len / m - 1
    ensures CursorOk(rp, m, len) && CursorOk(wp, m, len)
  {
    RingShape(buf, len, m, slots, rd, c, rp, wp);
    OffsetDiv(slots, m);
    OffsetDiv(rd, m);
    OffsetDiv(Wrap(rd + |c|, slots), m);
  }

  /** Moving a cursor on by one message is moving its slot on by one. */
  lemma AdvanceIsNextSlot(k: nat, m: nat, slots: nat)
    requires k < slots && m > 0
    ensures Advance(Offset(k, m), m, Offset(slots, m)) == Offset(Wrap(k + 1, slots), m)
  {
    assert Offset(k + 1, m) == Offset(k, m) + m;
    if k + 1 < slots {
      OffsetMono(k + 1, slots, m);
    } else {
      assert Wrap(k + 1, slots) == 0;
    }
  }

  /**
   * The mailbox is full, so `write_msg` refuses, exactly when advancing the
   * write cursor would make it meet the read cursor; that is when it holds
   * `Capacity` messages.
   */
  lemma RingFull(buf: seq<byte>, len: nat, m: nat, slots: nat, rd: nat, c: seq<seq<byte>>, rp: nat, wp: nat)
    requires Ring(buf, len, m, slots, rd, c, rp, wp)
    ensures Advance(wp, m, len) == rp <==> |c| == Capacity(len, m)
  {
    RingShape(buf, len, m, slots, rd, c, rp, wp);
    var w := Wrap(rd + |c|, slots);
    AdvanceIsNextSlot(w, m, slots);
    if Advance(wp, m, len) == rp {
      OffsetCancel(Wrap(w + 1, slots), rd, m);
    }
  }

  /**
   * The mailbox is empty, so `os_mailbox_read` refuses, exactly when the
   * two cursors are equal.
   */
  lemma RingEmpty(buf: seq<byte>, len: nat, m: nat, slots: nat, rd: nat, c: seq<seq<byte>>, rp: nat, wp: nat)
    requires Ring(buf, len, m, slots, rd, c, rp, wp)
    ensures rp == wp <==> c == []
  {
    if rp == wp {
      OffsetCancel(Wrap(rd + |c|, slots), rd, m);
    }
  }

  /**
   * Enqueue: copying a message into the slot at the write cursor of a
   * mailbox that is not full and advancing that cursor gives a mailbox that
   * holds the old messages followed by the new one.
   */
  lemma RingPush(buf: seq<byte>, len: nat, m: nat, slots: nat, rd: nat, c: seq<seq<byte>>, rp: nat, wp: nat, data: seq<byte>)
    requires Ring(buf, len, m, slots, rd, c, rp, wp)
    requires |c| < Capacity(len, m) && |data| == m && wp + m <= len
    ensures Ring(Overwrite(buf, wp, data), len, m, slots, rd, c + [data], rp, Advance(wp, m, len))
  {
    RingShape(buf, len, m, slots, rd, c, rp, wp);
    var w := Wrap(rd + |c|, slots);
    AdvanceIsNextSlot(w, m, slots);
    HoldsPush(buf, m, slots, rd, c, w, data);
  }

  /**
   * Dequeue: in a mailbox that is not empty the oldest message is the one
   * at the read cursor, and advancing that cursor gives a mailbox that
   * holds the remaining messages.
   */
  lemma RingPop(buf: seq<byte>, len: nat, m: nat, slots: nat, rd: nat, c: seq<seq<byte>>, rp: nat, wp: nat)
    requires Ring(buf, len, m, slots, rd, c, rp, wp)
    requires c != [] && rp + m <= len
    ensures buf[rp .. rp + m] == c[0]
    ensures Ring(buf, len, m, slots, Wrap(rd + 1, slots), c[1..], Advance(rp, m, len), wp)
  {
    AdvanceIsNextSlot(rd, m, slots);
  }

  /**
   * The byte-by-byte copy loops of `write_msg` and `os_mailbox_read`:
   * copies `src` into `dst` starting at index `at`.
   */
  method CopyBytes(dst: array<byte>, at: nat, src: seq<byte>)
    requires at + |src| <= dst.Length
    modifies dst
    ensures dst[..] == Overwrite(old(dst[..]), at, src)
  {
    var i := 0;
    while i < |src|
      invariant 0 <= i <= |src|
      invariant dst[..] == Overwrite(old(dst[..]), at, src[..i])
    {
      dst[at + i] := src[i];
      i := i + 1;
      assert src[..i] == src[..i - 1] + [src[i - 1]];
    }
    assert src[..|src|] == src;
  }

  class Mailbox {
    /** The caller's buffer (`msg_buf`); only its first `msgBufLen` bytes are used. */
    var msgBuf: array<byte>
    var msgBufLen: nat
    var msgSize: nat
    var readPos: nat
    var writePos: nat
    /** Whether a `data_added` callback was registered (it is not NULL). */
    var dataAdded: bool

    /** How many times the `data_added` callback has been invoked. */
    ghost var notified: nat
    /** The queued messages, oldest first. */
    ghost var Contents: seq<seq<byte>>
    /** The slot index of `readPos`. */
    ghost var rd: nat
    /** The number of message slots in the buffer. */
    ghost var slots: nat

    ghost predicate Valid()
      reads this`msgBuf, this`msgBufLen, this`msgSize, this`slots, this`rd
      reads this`Contents, this`readPos, this`writePos, msgBuf
    {
      Ring(msgBuf[..], msgBufLen, msgSize, slots, rd, Contents, readPos, writePos)
    }

    /**
     * `os_mailbox_init`: records the buffer, its length and the message
     * size, resets both cursors, and asserts that the length is a whole
     * number of messages (the assertion is the precondition here; a
     * failing `cm3_assert` stops the program). A length of 0 passes the
     * assertion, but the mailbox is then no ring: the first write finds
     * the advanced cursor away from the read cursor and stores a whole
     * message past the end of the buffer.
     */
    constructor Init(buf: array<byte>, bufLen: nat, size: nat, callback: bool)
      requires 0 < size < 256
      requires bufLen <= buf.Length
      requires bufLen % size == 0
      ensures Valid() <==> 0 < bufLen
      ensures msgBuf == buf && msgBufLen == bufLen && msgSize == size && dataAdded == callback
      ensures readPos == 0 && writePos == 0
      ensures Contents == [] && notified == 0
      ensures 0 < bufLen ==> Capacity(msgBufLen, msgSize) == bufLen / size - 1
      ensures bufLen == 0 ==> Advance(writePos, msgSize, msgBufLen) != readPos && msgBufLen < writePos + msgSize
    {
      msgBuf := buf;
      msgBufLen := bufLen;
      msgSize := size;
      dataAdded := callback;
      readPos := 0;
      writePos := 0;
      Contents := [];
      rd := 0;
      slots := bufLen / size;
      notified := 0;
      OffsetOfQuotient(bufLen, size);
      SlotsIsQuotient(bufLen, size);
    }

    /**
     * `write_msg`: copies one message into the slot at `writePos` unless
     * advancing `writePos` would make it meet `readPos`.
     */
    method WriteMsg(msg: seq<byte>) returns (ok: bool)
      requires Valid()
      requires |msg| >= msgSize
      modifies this, msgBuf
      ensures Valid()
      ensures msgBuf == old(msgBuf) && msgBufLen == old(msgBufLen) && msgSize == old(msgSize)
      ensures dataAdded == old(dataAdded) && notified == old(notified)
      ensures readPos == old(readPos)
      ensures ok <==> Advance(old(writePos), msgSize, msgBufLen) != old(readPos)
      ensures ok <==> |old(Contents)| < Capacity(msgBufLen, msgSize)
      ensures ok ==> writePos == Advance(old(writePos), msgSize, msgBufLen)
      ensures ok ==> old(writePos) + msgSize <= msgBuf.Length
      ensures ok ==> msgBuf[..] == Overwrite(old(msgBuf[..]), old(writePos), msg[..msgSize])
      ensures ok ==> Contents == old(Contents) + [msg[..msgSize]]
      ensures !ok ==> writePos == old(writePos) && Contents == old(Contents) && msgBuf[..] == old(msgBuf[..])
    {
      ghost var buf0 := msgBuf[..];
      RingShape(buf0, msgBufLen, msgSize, slots, rd, Contents, readPos, writePos);
      RingFull(buf0, msgBufLen, msgSize, slots, rd, Contents, readPos, writePos);
      var newWritePos := writePos + msgSize;
      if newWritePos == msgBufLen {
        newWritePos := 0;
      }
      if newWritePos != readPos {
        CopyBytes(msgBuf, writePos, msg[..msgSize]);
        RingPush(buf0, msgBufLen, msgSize, slots, rd, Contents, readPos, writePos, msg[..msgSize]);
        writePos := newWritePos;
        Contents := Contents + [msg[..msgSize]];
        assert Ring(msgBuf[..], msgBufLen, msgSize, slots, rd, Contents, readPos, writePos);
        ok := true;
      } else {
        ok := false;
      }
    }

    /** `os_mailbox_write`: `write_msg`, then the `data_added` callback on success. */
    method Write(msg: seq<byte>) returns (ok: bool)
      requires Valid()
      requires |msg| >= msgSize
      modifies this, msgBuf
      ensures Valid()
      ensures msgBuf == old(msgBuf) && msgBufLen == old(msgBufLen) && msgSize == old(msgSize)
      ensures dataAdded == old(dataAdded) && readPos == old(readPos)
      ensures ok <==> |old(Contents)| < Capacity(msgBufLen, msgSize)
      ensures ok ==> writePos == Advance(old(writePos), msgSize, msgBufLen)
      ensures Contents == if ok then old(Contents) + [msg[..msgSize]] else old(Contents)
      ensures !ok ==> writePos == old(writePos) && msgBuf[..] == old(msgBuf[..])
      ensures notified == old(notified) + if ok && dataAdded then 1 else 0
    {
      ok := WriteMsg(msg);
      if ok && dataAdded {
        notified := notified + 1;
      }
    }

    /**
     * `os_mailbox_write_multiple`: writes the `msgNum` messages that start
     * at `msgs`, `msgSize` bytes apart, until the first one that does not
     * fit; calls `data_added` once if any went in. Returns the number of
     * messages written.
     */
    method WriteMultiple(msgs: seq<byte>, msgNum: nat) returns (n: nat)
      requires Valid()
      requires |msgs| >= Offset(msgNum, msgSize)
      modifies this, msgBuf
      ensures Valid()
      ensures msgBuf == old(msgBuf) && msgBufLen == old(msgBufLen) && msgSize == old(msgSize)
      ensures dataAdded == old(dataAdded) && readPos == old(readPos)
      ensures n == Min(msgNum, Capacity(msgBufLen, msgSize) - |old(Contents)|)
      ensures Contents == old(Contents) + Chunks(msgs, msgSize, n)
      ensures notified == old(notified) + if n > 0 && dataAdded then 1 else 0
    {
      RingShape(msgBuf[..], msgBufLen, msgSize, slots, rd, Contents, readPos, writePos);
      n := 0;
      var at := 0;
      while n < msgNum
        invariant Valid()
        invariant msgBuf == old(msgBuf) && msgBufLen == old(msgBufLen) && msgSize == old(msgSize)
        invariant dataAdded == old(dataAdded) && readPos == old(readPos) && notified == old(notified)
        invariant n <= msgNum && at == Offset(n, msgSize)
        invariant |old(Contents)| + n <= Capacity(msgBufLen, msgSize)
        invariant Contents == old(Contents) + Chunks(msgs, msgSize, n)
      {
        OffsetMono(n, msgNum, msgSize);
        var ok := WriteMsg(msgs[at..]);
        if !ok {
          break;
        }
        ChunksExtend(msgs, msgSize, n);
        n := n + 1;
        at := at + msgSize;
      }
      if n > 0 && dataAdded {
        notified := notified + 1;
      }
    }

    /**
     * `os_mailbox_read`: unless the cursors are equal (empty), copies the
     * oldest message to `out[at..]` and advances `readPos`.
     */
    method Read(out: array<byte>, at: nat) returns (ok: bool)
      requires Valid()
      requires out != msgBuf && at + msgSize <= out.Length
      modifies this, out
      ensures Valid()
      ensures msgBuf == old(msgBuf) && msgBufLen == old(msgBufLen) && msgSize == old(msgSize)
      ensures dataAdded == old(dataAdded) && notified == old(notified)
      ensures writePos == old(writePos)
      ensures ok <==> old(readPos) != old(writePos)
      ensures ok <==> old(Contents) != []
      ensures ok ==> readPos == Advance(old(readPos), msgSize, msgBufLen)
      ensures ok ==> Contents == old(Contents)[1..]
      ensures ok ==> out[at .. at + msgSize] == old(Contents)[0]
      ensures ok ==> out[..] == Overwrite(old(out[..]), at, old(Contents)[0])
      ensures !ok ==> readPos == old(readPos) && Contents == old(Contents) && out[..] == old(out[..])
    {
      ghost var buf := msgBuf[..];
      RingShape(buf, msgBufLen, msgSize, slots, rd, Contents, readPos, writePos);
      RingEmpty(buf, msgBufLen, msgSize, slots, rd, Contents, readPos, writePos);
      if readPos != writePos {
        RingPop(buf, msgBufLen, msgSize, slots, rd, Contents, readPos, writePos);
        CopyBytes(out, at, msgBuf[readPos .. readPos + msgSize]);
        assert msgBuf[..] == buf;
        var newReadPos := readPos + msgSize;
        if newReadPos == msgBufLen {
          newReadPos := 0;
        }
        assert newReadPos == Advance(readPos, msgSize, msgBufLen);
        readPos := newReadPos;
        rd := Wrap(rd + 1, slots);
        Contents := Contents[1..];
        assert Ring(buf, msgBufLen, msgSize, slots, rd, Contents, readPos, writePos);
        ok := true;
      } else {
        ok := false;
      }
    }

    /**
     * `os_mailbox_read_multiple`: reads up to `outMsgNum` messages into
     * `out`, `msgSize` bytes apart, stopping when the mailbox is empty.
     * Returns the number of messages read.
     */
    method ReadMultiple(out: array<byte>, outMsgNum: nat) returns (n: nat)
      requires Valid()
      requires out != msgBuf && Offset(outMsgNum, msgSize) <= out.Length
      modifies this, out
      ensures Valid()
      ensures msgBuf == old(msgBuf) && msgBufLen == old(msgBufLen) && msgSize == old(msgSize)
      ensures dataAdded == old(dataAdded) && notified == old(notified) && writePos == old(writePos)
      ensures n == Min(outMsgNum, |old(Contents)|)
      ensures Contents == old(Contents)[n..]
      ensures out[..] == Fill(old(out[..]), msgSize, old(Contents)[..n])
    {
      ghost var c00, out0 := Contents, out[..];
      n := 0;
      var at := 0;
      while n < outMsgNum
        invariant Valid()
        invariant msgBuf == old(msgBuf) && msgBufLen == old(msgBufLen) && msgSize == old(msgSize)
        invariant dataAdded == old(dataAdded) && notified == old(notified) && writePos == old(writePos)
        invariant n <= outMsgNum && n <= |c00| && at == Offset(n, msgSize)
        invariant Contents == c00[n..]
        invariant out[..] == Fill(out0, msgSize, c00[..n])
      {
        OffsetMono(n, outMsgNum, msgSize);
        var ok := Read(out, at);
        if !ok {
          break;
        }
        assert c00[..n + 1][..n] == c00[..n];
        n := n + 1;
        at := at + msgSize;
      }
    }
  }

  /**
   * A mailbox of 16 bytes with 4-byte messages holds three messages: a
   * fourth write is refused, and reads return the three in write order and
   * then report empty.
   */
  method FifoScenario() returns (first: seq<byte>, second: seq<byte>, third: seq<byte>, fourthWrite: bool, fourthRead: bool)
    ensures first == [1, 1, 1, 1] && second == [2, 2, 2, 2] && third == [3, 3, 3, 3]
    ensures !fourthWrite && !fourthRead
  {
    var mb;
    mb, fourthWrite := FillThree();
    var out := new byte[4];
    var ok := mb.Read(out, 0);
    first := out[..];
    ok := mb.Read(out, 0);
    second := out[..];
    ok := mb.Read(out, 0);
    third := out[..];
    fourthRead := mb.Read(out, 0);
  }

  /** Three writes into a fresh mailbox of four 4-byte slots succeed; the fourth finds it full. */
  method FillThree() returns (mb: Mailbox, fourthWrite: bool)
    ensures fresh(mb) && fresh(mb.msgBuf) && mb.Valid() && mb.msgSize == 4
    ensures mb.Contents == [[1, 1, 1, 1], [2, 2, 2, 2], [3, 3, 3, 3]] && !fourthWrite
  {
    var buf := new byte[16];
    mb := new Mailbox.Init(buf, 16, 4, false);
    var m1, m2, m3: seq<byte> := [1, 1, 1, 1], [2, 2, 2, 2], [3, 3, 3, 3];
    assert m1[..4] == m1 && m2[..4] == m2 && m3[..4] == m3;
    var ok := mb.Write(m1);
    ok := mb.Write(m2);
    ok := mb.Write(m3);
    fourthWrite := mb.Write([4, 4, 4, 4]);
  }
}
