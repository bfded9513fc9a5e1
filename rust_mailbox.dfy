/**
 * The typed Rust front end of the mailbox (rust/src/mailbox.rs). A
 * `Mailbox<T>` owns a raw C mailbox whose messages are the in-memory
 * representation of `T`, `size_of::<T>()` bytes each; here a value of `T`
 * is that byte sequence. `channel_spsc` splits a mailbox into one
 * receiving and one sending handle over the same raw mailbox.
 *
 * `send` and `recv` are loops waiting on the other end of the channel;
 * they take a `fuel` bound on the number of attempts.
 */
module RustMailbox {
  import opened Support
  import opened Mailbox

  datatype Result<T, E> = Ok(value: T) | Err(error: E)

  /** A send that found the channel full hands the message back. */
  datatype SendError = SendError(msg: seq<byte>)

  /** A receive that found the channel empty. */
  datatype RecvError = RecvError

  /** `n` copies of `msg`, as a mailbox holds them after `n` writes of it. */
  function Copies(msg: seq<byte>, n: nat): (r: seq<seq<byte>>)
    ensures |r| == n
    ensures forall i :: 0 <= i < n ==> r[i] == msg
  {
    if n == 0 then [] else Copies(msg, n - 1) + [msg]
  }

  /** With a positive stride, `n` slots span at least `n` bytes. */
  lemma {:induction false} OffsetAtLeast(n: nat, m: nat)
    requires m > 0
    ensures n <= Offset(n, m)
  {
    if n > 0 {
      OffsetAtLeast(n - 1, m);
    }
  }

  /** `Mailbox<'mem, T>`: the raw mailbox in its `UnsafeCell`. */
  class TypedMailbox {
    const raw: Mailbox

    /**
     * `Mailbox::new` as written: `buf` is a slice of `len` elements of
     * `size` bytes, and the raw mailbox is initialised with `buf.len()`,
     * the element count, as its byte length. The ring then spans only the
     * first `len` bytes and holds `len / size - 1` messages rather than
     * `len - 1`. An empty slice gives the raw mailbox length 0, which its
     * assertion lets through: no ring, and a first write past the end.
     */
    constructor NewAsWritten(buf: array<byte>, len: nat, size: nat)
      requires 0 < size < 256 && len % size == 0
      requires Offset(len, size) <= buf.Length
      ensures fresh(raw) && (raw.Valid() <==> 0 < len) && raw.Contents == []
      ensures raw.msgBuf == buf && raw.msgSize == size && !raw.dataAdded
      ensures raw.msgBufLen == len && (0 < len ==> Capacity(raw.msgBufLen, size) == len / size - 1)
      ensures len == 0 ==> Advance(raw.writePos, size, raw.msgBufLen) != raw.readPos && raw.msgBufLen < raw.writePos + size
    {
      OffsetAtLeast(len, size);
      raw := new Mailbox.Init(buf, len, size, false);
    }

    /**
     * `Mailbox::new` with the slice's length in bytes, `len * size`, as the
     * raw mailbox's length: room for `len - 1` messages. An empty slice
     * gives length 0, as in `NewAsWritten`.
     */
    constructor New(buf: array<byte>, len: nat, size: nat)
      requires 0 < size < 256
      requires Offset(len, size) <= buf.Length
      ensures fresh(raw) && (raw.Valid() <==> 0 < len) && raw.Contents == []
      ensures raw.msgBuf == buf && raw.msgSize == size && !raw.dataAdded
      ensures raw.msgBufLen == Offset(len, size) && (0 < len ==> Capacity(raw.msgBufLen, size) == len - 1)
      ensures len == 0 ==> Advance(raw.writePos, size, raw.msgBufLen) != raw.readPos && raw.msgBufLen < raw.writePos + size
    {
      OffsetAtLeast(len, size);
      if 0 < len {
        OffsetAtLeast(len - 1, size);
      }
      OffsetDiv(len, size);
      raw := new Mailbox.Init(buf, Offset(len, size), size, false);
    }

    /** `Mailbox::write`: true exactly when the raw write went through. */
    method Write(msg: seq<byte>) returns (ok: bool)
      requires raw.Valid() && |msg| == raw.msgSize
      modifies raw, raw.msgBuf
      ensures raw.Valid() && raw.msgBuf == old(raw.msgBuf) && raw.msgSize == old(raw.msgSize) && raw.msgBufLen == old(raw.msgBufLen)
      ensures ok <==> |old(raw.Contents)| < Capacity(raw.msgBufLen, raw.msgSize)
      ensures raw.Contents == if ok then old(raw.Contents) + [msg] else old(raw.Contents)
    {
      assert msg[..raw.msgSize] == msg;
      ok := raw.Write(msg);
    }

    /**
     * `Mailbox::write_multiple`: the raw multi-message write of the
     * `count` values laid out in `msgs`; returns the raw count.
     */
    method WriteMultiple(msgs: seq<byte>, count: nat) returns (n: nat)
      requires raw.Valid() && |msgs| == Offset(count, raw.msgSize)
      modifies raw, raw.msgBuf
      ensures raw.Valid() && raw.msgBuf == old(raw.msgBuf) && raw.msgSize == old(raw.msgSize) && raw.msgBufLen == old(raw.msgBufLen)
      ensures n == Min(count, Capacity(raw.msgBufLen, raw.msgSize) - |old(raw.Contents)|)
      ensures raw.Contents == old(raw.Contents) + Chunks(msgs, raw.msgSize, n)
    {
      n := raw.WriteMultiple(msgs, count);
    }

    /**
     * `Mailbox::read`: `Some` of the oldest message when there is one,
     * `None` when the mailbox is empty.
     */
    method Read() returns (r: Option<seq<byte>>)
      requires raw.Valid()
      modifies raw
      ensures raw.Valid() && raw.msgBuf == old(raw.msgBuf) && raw.msgSize == old(raw.msgSize) && raw.msgBufLen == old(raw.msgBufLen)
      ensures r.None? <==> old(raw.Contents) == []
      ensures r.Some? ==> r.value == old(raw.Contents)[0] && raw.Contents == old(raw.Contents)[1..]
      ensures r.None? ==> raw.Contents == old(raw.Contents)
    {
      var tmp := new byte[raw.msgSize];
      var ok := raw.Read(tmp, 0);
      if ok {
        assert tmp[..] == tmp[0..raw.msgSize];
        r := Some(tmp[..]);
      } else {
        r := None;
      }
    }

    /**
     * `Mailbox::read_multiple`: the raw multi-message read into a slice
     * of `count` elements; returns the raw count.
     */
    method ReadMultiple(out: array<byte>, count: nat) returns (n: nat)
      requires raw.Valid() && out != raw.msgBuf && Offset(count, raw.msgSize) <= out.Length
      modifies raw, out
      ensures raw.Valid() && raw.msgBuf == old(raw.msgBuf) && raw.msgSize == old(raw.msgSize) && raw.msgBufLen == old(raw.msgBufLen)
      ensures n == Min(count, |old(raw.Contents)|)
      ensures raw.Contents == old(raw.Contents)[n..]
      ensures Chunks(out[..], raw.msgSize, n) == old(raw.Contents)[..n]
    {
      ghost var c0, out0 := raw.Contents, out[..];
      HoldsSizes(raw.msgBuf[..], raw.msgSize, raw.slots, raw.rd, c0);
      n := raw.ReadMultiple(out, count);
      OffsetMonoEq(n, count, raw.msgSize);
      FillThenChunks(out0, raw.msgSize, c0[..n]);
    }
  }

  /** More slots span at least as many bytes. */
  lemma OffsetMonoEq(j: nat, k: nat, m: nat)
    requires j <= k
    ensures Offset(j, m) <= Offset(k, m)
  {
    if j < k {
      OffsetMono(j, k, m);
    }
  }

  /** `RxChannelSpsc`: the receiving end of a single-producer single-consumer channel. */
  class RxChannelSpsc {
    const mb: Mailbox

    constructor (mb: Mailbox)
      ensures this.mb == mb
    {
      this.mb := mb;
    }

    /** `try_recv`: the oldest message, or `RecvError` when there is none. */
    method TryRecv() returns (r: Result<seq<byte>, RecvError>)
      requires mb.Valid()
      modifies mb
      ensures mb.Valid() && mb.msgBuf == old(mb.msgBuf) && mb.msgSize == old(mb.msgSize) && mb.msgBufLen == old(mb.msgBufLen)
      ensures r.Err? <==> old(mb.Contents) == []
      ensures r.Ok? ==> r.value == old(mb.Contents)[0] && mb.Contents == old(mb.Contents)[1..]
      ensures r.Err? ==> mb.Contents == old(mb.Contents)
    {
      var tmp := new byte[mb.msgSize];
      var ok := mb.Read(tmp, 0);
      if ok {
        assert tmp[..] == tmp[0..mb.msgSize];
        r := Ok(tmp[..]);
      } else {
        r := Err(RecvError);
      }
    }

    /**
     * `recv` as written: it loops while the read SUCCEEDS, so it drains the
     * channel and returns what the last successful read left in its
     * temporary, or never-initialised memory (`None` here) when the
     * channel was empty. Run for `fuel` reads: `n` messages were consumed,
     * and it exits once a read fails.
     */
    method RecvAsWritten(fuel: nat) returns (v: Option<seq<byte>>, n: nat, exited: bool)
      requires mb.Valid()
      modifies mb
      ensures mb.Valid() && mb.msgBuf == old(mb.msgBuf) && mb.msgSize == old(mb.msgSize) && mb.msgBufLen == old(mb.msgBufLen)
      ensures n == Min(fuel, |old(mb.Contents)|) && mb.Contents == old(mb.Contents)[n..]
      ensures exited <==> fuel > |old(mb.Contents)|
      ensures v == if n == 0 then None else Some(old(mb.Contents)[n - 1])
    {
      v, n, exited := None, 0, false;
      var steps := 0;
      while !exited && steps < fuel
        invariant mb.Valid() && mb.msgBuf == old(mb.msgBuf) && mb.msgSize == old(mb.msgSize) && mb.msgBufLen == old(mb.msgBufLen)
        invariant n <= |old(mb.Contents)| && mb.Contents == old(mb.Contents)[n..]
        invariant steps <= fuel && steps == n + (if exited then 1 else 0)
        invariant exited ==> n == |old(mb.Contents)|
        invariant v == if n == 0 then None else Some(old(mb.Contents)[n - 1])
        decreases fuel - steps
      {
        var r := TryRecv();
        if r.Ok? {
          n := n + 1;
          v := Some(r.value);
        } else {
          exited := true;
        }
        steps := steps + 1;
      }
    }

    /**
     * `recv` as documented: retries until a message arrives (here for at
     * most `fuel` attempts) and returns the oldest one.
     */
    method Recv(fuel: nat) returns (v: Option<seq<byte>>)
      requires mb.Valid()
      modifies mb
      ensures mb.Valid() && mb.msgBuf == old(mb.msgBuf) && mb.msgSize == old(mb.msgSize) && mb.msgBufLen == old(mb.msgBufLen)
      ensures v.Some? <==> fuel > 0 && old(mb.Contents) != []
      ensures v.Some? ==> v.value == old(mb.Contents)[0] && mb.Contents == old(mb.Contents)[1..]
      ensures v.None? ==> mb.Contents == old(mb.Contents)
    {
      v := None;
      var steps := 0;
      while v.None? && steps < fuel
        invariant mb.Valid() && mb.msgBuf == old(mb.msgBuf) && mb.msgSize == old(mb.msgSize) && mb.msgBufLen == old(mb.msgBufLen)
        invariant steps <= fuel && (steps == 0 ==> v.None?)
        invariant v.Some? <==> steps > 0 && old(mb.Contents) != []
        invariant v.Some? ==> v.value == old(mb.Contents)[0] && mb.Contents == old(mb.Contents)[1..]
        invariant v.None? ==> mb.Contents == old(mb.Contents)
        decreases fuel - steps
      {
        var r := TryRecv();
        if r.Ok? {
          v := Some(r.value);
        }
        steps := steps + 1;
      }
    }
  }

  /** `TxChannelSpsc`: the sending end of a single-producer single-consumer channel. */
  class TxChannelSpsc {
    const mb: Mailbox

    constructor (mb: Mailbox)
      ensures this.mb == mb
    {
      this.mb := mb;
    }

    /** `try_send`: `Ok` when the message went in, otherwise the message handed back. */
    method TrySend(msg: seq<byte>) returns (r: Result<(), SendError>)
      requires mb.Valid() && |msg| == mb.msgSize
      modifies mb, mb.msgBuf
      ensures mb.Valid() && mb.msgBuf == old(mb.msgBuf) && mb.msgSize == old(mb.msgSize) && mb.msgBufLen == old(mb.msgBufLen)
      ensures r.Ok? <==> |old(mb.Contents)| < Capacity(mb.msgBufLen, mb.msgSize)
      ensures r.Ok? ==> mb.Contents == old(mb.Contents) + [msg]
      ensures r.Err? ==> r.error == SendError(msg) && mb.Contents == old(mb.Contents)
    {
      assert msg[..mb.msgSize] == msg;
      var ok := mb.Write(msg);
      r := if ok then Ok(()) else Err(SendError(msg));
    }

    /**
     * `send` as written: it loops while the write SUCCEEDS, so it fills
     * the channel with copies of `msg` and exits at the first refused
     * write; on a full channel the message is dropped. Run for `fuel`
     * writes: `n` copies went in.
     */
    method SendAsWritten(msg: seq<byte>, fuel: nat) returns (n: nat, exited: bool)
      requires mb.Valid() && |msg| == mb.msgSize
      modifies mb, mb.msgBuf
      ensures mb.Valid() && mb.msgBuf == old(mb.msgBuf) && mb.msgSize == old(mb.msgSize) && mb.msgBufLen == old(mb.msgBufLen)
      ensures n == Min(fuel, Capacity(mb.msgBufLen, mb.msgSize) - |old(mb.Contents)|)
      ensures mb.Contents == old(mb.Contents) + Copies(msg, n)
      ensures exited <==> fuel > Capacity(mb.msgBufLen, mb.msgSize) - |old(mb.Contents)|
    {
      RingShape(mb.msgBuf[..], mb.msgBufLen, mb.msgSize, mb.slots, mb.rd, mb.Contents, mb.readPos, mb.writePos);
      n, exited := 0, false;
      var steps := 0;
      while !exited && steps < fuel
        invariant mb.Valid() && mb.msgBuf == old(mb.msgBuf) && mb.msgSize == old(mb.msgSize) && mb.msgBufLen == old(mb.msgBufLen)
        invariant |old(mb.Contents)| + n <= Capacity(mb.msgBufLen, mb.msgSize)
        invariant mb.Contents == old(mb.Contents) + Copies(msg, n)
        invariant steps <= fuel && steps == n + (if exited then 1 else 0)
        invariant exited ==> |old(mb.Contents)| + n == Capacity(mb.msgBufLen, mb.msgSize)
        decreases fuel - steps
      {
        var r := TrySend(msg);
        if r.Ok? {
          n := n + 1;
        } else {
          exited := true;
        }
        steps := steps + 1;
      }
    }

    /**
     * `send` as documented: retries until the message goes in (here for
     * at most `fuel` attempts), enqueuing it exactly once.
     */
    method Send(msg: seq<byte>, fuel: nat) returns (sent: bool)
      requires mb.Valid() && |msg| == mb.msgSize
      modifies mb, mb.msgBuf
      ensures mb.Valid() && mb.msgBuf == old(mb.msgBuf) && mb.msgSize == old(mb.msgSize) && mb.msgBufLen == old(mb.msgBufLen)
      ensures sent <==> fuel > 0 && |old(mb.Contents)| < Capacity(mb.msgBufLen, mb.msgSize)
      ensures mb.Contents == if sent then old(mb.Contents) + [msg] else old(mb.Contents)
    {
      sent := false;
      var steps := 0;
      while !sent && steps < fuel
        invariant mb.Valid() && mb.msgBuf == old(mb.msgBuf) && mb.msgSize == old(mb.msgSize) && mb.msgBufLen == old(mb.msgBufLen)
        invariant steps <= fuel && (steps == 0 ==> !sent)
        invariant sent <==> steps > 0 && |old(mb.Contents)| < Capacity(mb.msgBufLen, mb.msgSize)
        invariant mb.Contents == if sent then old(mb.Contents) + [msg] else old(mb.Contents)
        decreases fuel - steps
      {
        var r := TrySend(msg);
        sent := r.Ok?;
        steps := steps + 1;
      }
    }
  }

  /**
   * `channel_spsc`: one receiving and one sending handle, both over the
   * raw mailbox of `m`.
   */
  method ChannelSpsc(m: TypedMailbox) returns (rx: RxChannelSpsc, tx: TxChannelSpsc)
    ensures fresh(rx) && fresh(tx)
    ensures rx.mb == m.raw && tx.mb == m.raw
  {
    rx := new RxChannelSpsc(m.raw);
    tx := new TxChannelSpsc(m.raw);
  }

  /**
   * `Mailbox::new` over a slice of four 4-byte values: as written the ring
   * spans 4 bytes, one slot, and refuses the first write; with the length
   * in bytes it accepts it.
   */
  method NewScenario() returns (asWritten: bool, corrected: bool)
    ensures !asWritten && corrected
  {
    var msg: seq<byte> := [1, 2, 3, 4];
    var buf1 := new byte[16];
    assert Offset(4, 4) == 16;
    var m1 := new TypedMailbox.NewAsWritten(buf1, 4, 4);
    asWritten := m1.Write(msg);
    var buf2 := new byte[16];
    var m2 := new TypedMailbox.New(buf2, 4, 4);
    corrected := m2.Write(msg);
  }

  /**
   * Two 4-byte messages `a` then `b` on a channel with room for two: `recv`
   * as written drains both and returns `b`; as documented it returns `a`
   * and leaves `b` queued.
   */
  method RecvScenario() returns (asWritten: Option<seq<byte>>, corrected: Option<seq<byte>>)
    ensures asWritten == Some([2, 2, 2, 2]) && corrected == Some([1, 1, 1, 1])
  {
    var a: seq<byte>, b: seq<byte> := [1, 1, 1, 1], [2, 2, 2, 2];
    assert Offset(3, 4) == 12;
    var bm1 := new byte[12];
    var m1 := new TypedMailbox.New(bm1, 3, 4);
    var rx1, tx1 := ChannelSpsc(m1);
    var r := tx1.TrySend(a);
    r := tx1.TrySend(b);
    var n, exited;
    asWritten, n, exited := rx1.RecvAsWritten(5);
    var bm2 := new byte[12];
    var m2 := new TypedMailbox.New(bm2, 3, 4);
    var rx2, tx2 := ChannelSpsc(m2);
    r := tx2.TrySend(a);
    r := tx2.TrySend(b);
    corrected := rx2.Recv(5);
  }

  /**
   * `send` of one message on an empty channel with room for two: as
   * written it enqueues two copies; as documented, one. Draining each
   * channel counts what it holds.
   */
  method SendScenario() returns (asWritten: nat, corrected: nat)
    ensures asWritten == 2 && corrected == 1
  {
    var a: seq<byte> := [7, 7, 7, 7];
    assert Offset(3, 4) == 12;
    var bm1 := new byte[12];
    var m1 := new TypedMailbox.New(bm1, 3, 4);
    var rx1, tx1 := ChannelSpsc(m1);
    var n, exited := tx1.SendAsWritten(a, 5);
    var v;
    v, asWritten, exited := rx1.RecvAsWritten(5);
    var bm2 := new byte[12];
    var m2 := new TypedMailbox.New(bm2, 3, 4);
    var rx2, tx2 := ChannelSpsc(m2);
    var sent := tx2.Send(a, 5);
    v, corrected, exited := rx2.RecvAsWritten(5);
  }
}
