/**
 * The MourOS character buffer (src/char_buffer.c): a mailbox whose messages
 * are single characters. Every operation is a thin wrapper over the mailbox;
 * the blocking variants retry until the mailbox lets the operation through.
 *
 * The blocking loops wait for another execution context (an interrupt or
 * task) to drain or fill the mailbox. Nothing else runs in this sequential
 * model, so each blocking loop takes a `fuel` bound on the number of
 * attempts and reports whether it exited.
 */
module CharBuffer {
  import opened Support
  import opened Mailbox

  /** A byte sequence as the one-character messages that carry it. */
  function Chars(s: seq<byte>): (r: seq<seq<byte>>)
    ensures |r| == |s|
  {
    if s == [] then [] else Chars(s[..|s| - 1]) + [[s[|s| - 1]]]
  }

  /** Character `i` of `s` travels as the one-byte message `[s[i]]`. */
  lemma {:induction false} CharsAt(s: seq<byte>, i: nat)
    requires i < |s|
    ensures Chars(s)[i] == [s[i]]
  {
    if i < |s| - 1 {
      CharsAt(s[..|s| - 1], i);
    }
  }

  /** Appending a character appends its message. */
  lemma CharsSnoc(s: seq<byte>, n: nat)
    requires n < |s|
    ensures Chars(s[..n + 1]) == Chars(s[..n]) + [[s[n]]]
  {
    assert s[..n + 1][..n] == s[..n];
  }

  /** With one-byte slots, the first `n` messages of `s` are its first `n` characters. */
  lemma {:induction false} ChunksOfOne(s: seq<byte>, n: nat)
    requires n <= |s|
    ensures Chunks(s, 1, n) == Chars(s[..n])
  {
    if n > 0 {
      ChunksOfOne(s, n - 1);
      CharsSnoc(s, n - 1);
      OffsetIsProduct(n - 1, 1);
      assert Chunk(s, 1, n - 1) == s[n - 1..n] == [s[n - 1]];
    }
  }

  /**
   * The length of a NUL-terminated string: the index of its first zero
   * byte.
   */
  function StrLen(s: seq<byte>): (n: nat)
    requires 0 in s
    ensures n < |s| && s[n] == 0
    ensures forall i :: 0 <= i < n ==> s[i] != 0
  {
    if s[0] == 0 then 0 else 1 + StrLen(s[1..])
  }

  /**
   * `os_char_buffer_init`: a mailbox over `buf` with one-byte messages;
   * since every length is a whole number of one-byte messages, the
   * mailbox's assertion always holds. A length of 0 is passed on
   * unchecked, and the first character written then lands past the end.
   */
  method Init(buf: array<byte>, bufLen: nat, callback: bool) returns (mb: Mailbox)
    requires bufLen <= buf.Length
    ensures fresh(mb) && (mb.Valid() <==> 0 < bufLen)
    ensures mb.msgBuf == buf && mb.msgBufLen == bufLen && mb.msgSize == 1 && mb.dataAdded == callback
    ensures mb.readPos == 0 && mb.writePos == 0 && mb.Contents == [] && mb.notified == 0
    ensures 0 < bufLen ==> Capacity(mb.msgBufLen, mb.msgSize) == bufLen - 1
    ensures bufLen == 0 ==> Advance(mb.writePos, 1, mb.msgBufLen) != mb.readPos && mb.writePos == mb.msgBufLen
  {
    mb := new Mailbox.Init(buf, bufLen, 1, callback);
  }

  /** `os_char_buffer_write_ch`: one mailbox write of the character. */
  method WriteCh(mb: Mailbox, ch: byte) returns (ok: bool)
    requires mb.Valid() && mb.msgSize == 1
    modifies mb, mb.msgBuf
    ensures mb.Valid() && mb.msgSize == 1 && mb.msgBufLen == old(mb.msgBufLen) && mb.msgBuf == old(mb.msgBuf)
    ensures ok <==> |old(mb.Contents)| < Capacity(mb.msgBufLen, 1)
    ensures mb.Contents == if ok then old(mb.Contents) + [[ch]] else old(mb.Contents)
    ensures mb.notified == old(mb.notified) + if ok && mb.dataAdded then 1 else 0
    ensures mb.dataAdded == old(mb.dataAdded)
  {
    assert [ch][..1] == [ch];
    ok := mb.Write([ch]);
  }

  /**
   * `os_char_buffer_write_ch_blocking`: retries the write until it
   * succeeds, here for at most `fuel` attempts.
   */
  method WriteChBlocking(mb: Mailbox, ch: byte, fuel: nat) returns (done: bool)
    requires mb.Valid() && mb.msgSize == 1
    modifies mb, mb.msgBuf
    ensures mb.Valid() && mb.msgSize == 1 && mb.msgBufLen == old(mb.msgBufLen) && mb.msgBuf == old(mb.msgBuf)
    ensures done <==> fuel > 0 && |old(mb.Contents)| < Capacity(mb.msgBufLen, 1)
    ensures mb.Contents == if done then old(mb.Contents) + [[ch]] else old(mb.Contents)
    ensures mb.dataAdded == old(mb.dataAdded) && mb.notified == old(mb.notified) + if done && mb.dataAdded then 1 else 0
  {
    done := false;
    var tries := 0;
    while !done && tries < fuel
      invariant mb.Valid() && mb.msgSize == 1 && mb.msgBufLen == old(mb.msgBufLen) && mb.msgBuf == old(mb.msgBuf)
      invariant mb.dataAdded == old(mb.dataAdded) && mb.notified == old(mb.notified) + if done && mb.dataAdded then 1 else 0
      invariant tries <= fuel && (tries == 0 ==> !done)
      invariant done <==> tries > 0 && |old(mb.Contents)| < Capacity(mb.msgBufLen, 1)
      invariant mb.Contents == if done then old(mb.Contents) + [[ch]] else old(mb.Contents)
      decreases fuel - tries
    {
      assert [ch][..1] == [ch];
      done := mb.Write([ch]);
      tries := tries + 1;
    }
  }

  /**
   * `os_char_buffer_write_buf`: the mailbox multi-message write of the
   * first `bufLen` characters; returns how many went in.
   */
  method WriteBuf(mb: Mailbox, buf: seq<byte>, bufLen: nat) returns (n: nat)
    requires mb.Valid() && mb.msgSize == 1 && bufLen <= |buf|
    modifies mb, mb.msgBuf
    ensures mb.Valid() && mb.msgSize == 1 && mb.msgBufLen == old(mb.msgBufLen) && mb.msgBuf == old(mb.msgBuf)
    ensures n == Min(bufLen, Capacity(mb.msgBufLen, 1) - |old(mb.Contents)|)
    ensures mb.Contents == old(mb.Contents) + Chars(buf[..n])
    ensures mb.dataAdded == old(mb.dataAdded) && mb.notified == old(mb.notified) + if n > 0 && mb.dataAdded then 1 else 0
  {
    OffsetIsProduct(bufLen, 1);
    n := mb.WriteMultiple(buf, bufLen);
    ChunksOfOne(buf, n);
  }

  /**
   * `os_char_buffer_write_buf_blocking` as written: the loop runs while
   * `pos <= buf_len`, so after the last character is in, it keeps calling
   * the mailbox with zero characters and never leaves the loop. Run for
   * `fuel` iterations, it never reports an exit.
   */
  method WriteBufBlockingAsWritten(mb: Mailbox, buf: seq<byte>, bufLen: nat, fuel: nat) returns (pos: nat, exited: bool)
    requires mb.Valid() && mb.msgSize == 1 && bufLen <= |buf|
    modifies mb, mb.msgBuf
    ensures mb.Valid() && mb.msgSize == 1 && mb.msgBufLen == old(mb.msgBufLen) && mb.msgBuf == old(mb.msgBuf)
    ensures pos <= bufLen && mb.Contents == old(mb.Contents) + Chars(buf[..pos])
    ensures fuel > 0 && bufLen <= Capacity(mb.msgBufLen, 1) - |old(mb.Contents)| ==> pos == bufLen
    ensures !exited
    ensures fuel > 0 ==> pos == Min(bufLen, Capacity(mb.msgBufLen, 1) - |old(mb.Contents)|)
    ensures mb.dataAdded == old(mb.dataAdded) && mb.notified == old(mb.notified) + if pos > 0 && mb.dataAdded then 1 else 0
  {
    pos := 0;
    var steps := 0;
    while pos <= bufLen && steps < fuel
      invariant mb.Valid() && mb.msgSize == 1 && mb.msgBufLen == old(mb.msgBufLen) && mb.msgBuf == old(mb.msgBuf)
      invariant if steps > 0 then pos == Min(bufLen, Capacity(mb.msgBufLen, 1) - |old(mb.Contents)|) else pos == 0
      invariant mb.dataAdded == old(mb.dataAdded) && mb.notified == old(mb.notified) + if pos > 0 && mb.dataAdded then 1 else 0
      invariant pos <= bufLen && mb.Contents == old(mb.Contents) + Chars(buf[..pos])
      invariant steps <= fuel && (steps > 0 && bufLen <= Capacity(mb.msgBufLen, 1) - |old(mb.Contents)| ==> pos == bufLen)
      decreases fuel - steps
    {
      assert |mb.Contents| == |old(mb.Contents)| + pos;
      pos := WriteBufStep(mb, buf, pos, bufLen);
      steps := steps + 1;
    }
    exited := pos > bufLen;
  }

  /**
   * `os_char_buffer_write_buf_blocking` as documented: retries until all
   * `bufLen` characters are in (here for at most `fuel` rounds), and exits
   * exactly when they are.
   */
  method WriteBufBlocking(mb: Mailbox, buf: seq<byte>, bufLen: nat, fuel: nat) returns (pos: nat, exited: bool)
    requires mb.Valid() && mb.msgSize == 1 && bufLen <= |buf|
    modifies mb, mb.msgBuf
    ensures mb.Valid() && mb.msgSize == 1 && mb.msgBufLen == old(mb.msgBufLen) && mb.msgBuf == old(mb.msgBuf)
    ensures pos <= bufLen && mb.Contents == old(mb.Contents) + Chars(buf[..pos])
    ensures fuel > 0 && bufLen <= Capacity(mb.msgBufLen, 1) - |old(mb.Contents)| ==> pos == bufLen
    ensures exited <==> pos == bufLen
    ensures fuel > 0 ==> pos == Min(bufLen, Capacity(mb.msgBufLen, 1) - |old(mb.Contents)|)
    ensures mb.dataAdded == old(mb.dataAdded) && mb.notified == old(mb.notified) + if pos > 0 && mb.dataAdded then 1 else 0
  {
    RingShape(mb.msgBuf[..], mb.msgBufLen, mb.msgSize, mb.slots, mb.rd, mb.Contents, mb.readPos, mb.writePos);
    pos := 0;
    var steps := 0;
    while pos < bufLen && steps < fuel
      invariant mb.Valid() && mb.msgSize == 1 && mb.msgBufLen == old(mb.msgBufLen) && mb.msgBuf == old(mb.msgBuf)
      invariant |old(mb.Contents)| <= Capacity(mb.msgBufLen, 1)
      invariant if steps > 0 then pos == Min(bufLen, Capacity(mb.msgBufLen, 1) - |old(mb.Contents)|) else pos == 0
      invariant mb.dataAdded == old(mb.dataAdded) && mb.notified == old(mb.notified) + if pos > 0 && mb.dataAdded then 1 else 0
      invariant pos <= bufLen && mb.Contents == old(mb.Contents) + Chars(buf[..pos])
      invariant steps <= fuel && (steps > 0 && bufLen <= Capacity(mb.msgBufLen, 1) - |old(mb.Contents)| ==> pos == bufLen)
      decreases fuel - steps
    {
      assert |mb.Contents| == |old(mb.Contents)| + pos;
      pos := WriteBufStep(mb, buf, pos, bufLen);
      steps := steps + 1;
    }
    exited := pos == bufLen;
  }

  /**
   * A round of the blocking write: the characters from `pos` on go to the
   * mailbox as far as they fit, and `pos` moves past them. The callback
   * fires once if the round wrote anything.
   */
  method WriteBufStep(mb: Mailbox, buf: seq<byte>, pos: nat, bufLen: nat) returns (pos': nat)
    requires mb.Valid() && mb.msgSize == 1 && pos <= bufLen <= |buf|
    modifies mb, mb.msgBuf
    ensures mb.Valid() && mb.msgSize == 1 && mb.msgBufLen == old(mb.msgBufLen) && mb.msgBuf == old(mb.msgBuf)
    ensures pos <= pos' <= bufLen && pos' - pos == Min(bufLen - pos, Capacity(mb.msgBufLen, 1) - |old(mb.Contents)|)
    ensures mb.Contents == old(mb.Contents) + Chars(buf[pos..pos'])
    ensures Chars(buf[..pos']) == Chars(buf[..pos]) + Chars(buf[pos..pos'])
    ensures mb.dataAdded == old(mb.dataAdded) && mb.notified == old(mb.notified) + if pos' > pos && mb.dataAdded then 1 else 0
  {
    var k := WriteBuf(mb, buf[pos..], bufLen - pos);
    assert buf[pos..][..k] == buf[pos..pos + k];
    CharsAppend(buf, pos, k);
    pos' := pos + k;
  }

  /** Characters of a concatenation travel as the messages of each part in turn. */
  lemma {:induction false} CharsConcat(a: seq<byte>, b: seq<byte>)
    ensures Chars(a + b) == Chars(a) + Chars(b)
    decreases |b|
  {
    if b != [] {
      var b' := b[..|b| - 1];
      assert (a + b)[..|a + b| - 1] == a + b';
      CharsConcat(a, b');
    } else {
      assert a + b == a;
    }
  }

  /** Writing `k` more characters after the first `pos` extends the messages accordingly. */
  lemma CharsAppend(buf: seq<byte>, pos: nat, k: nat)
    requires pos + k <= |buf|
    ensures Chars(buf[..pos]) + Chars(buf[pos..][..k]) == Chars(buf[..pos + k])
  {
    assert buf[..pos + k] == buf[..pos] + buf[pos..][..k];
    CharsConcat(buf[..pos], buf[pos..][..k]);
  }

  /**
   * `os_char_buffer_write_str`: writes the characters of the NUL-terminated
   * `str` one by one, up to but excluding the terminator, stopping at the
   * first refused write; returns the number written.
   */
  method WriteStr(mb: Mailbox, str: seq<byte>) returns (n: nat)
    requires mb.Valid() && mb.msgSize == 1 && 0 in str
    modifies mb, mb.msgBuf
    ensures mb.Valid() && mb.msgSize == 1 && mb.msgBufLen == old(mb.msgBufLen) && mb.msgBuf == old(mb.msgBuf)
    ensures n == Min(StrLen(str), Capacity(mb.msgBufLen, 1) - |old(mb.Contents)|)
    ensures mb.Contents == old(mb.Contents) + Chars(str[..n])
    ensures mb.dataAdded == old(mb.dataAdded) && mb.notified == old(mb.notified) + if mb.dataAdded then n else 0
  {
    RingShape(mb.msgBuf[..], mb.msgBufLen, mb.msgSize, mb.slots, mb.rd, mb.Contents, mb.readPos, mb.writePos);
    n := 0;
    while str[n] != 0
      invariant mb.Valid() && mb.msgSize == 1 && mb.msgBufLen == old(mb.msgBufLen) && mb.msgBuf == old(mb.msgBuf)
      invariant mb.dataAdded == old(mb.dataAdded) && mb.notified == old(mb.notified) + if mb.dataAdded then n else 0
      invariant n <= StrLen(str)
      invariant |old(mb.Contents)| + n <= Capacity(mb.msgBufLen, 1)
      invariant mb.Contents == old(mb.Contents) + Chars(str[..n])
      decreases StrLen(str) - n
    {
      var ok := WriteCh(mb, str[n]);
      if !ok {
        break;
      }
      CharsSnoc(str, n);
      n := n + 1;
    }
  }

  /**
   * `os_char_buffer_write_str_blocking` as written: the index of the
   * character to write is never incremented, so for a non-empty string it
   * writes the first character over and over and never leaves the loop.
   * Run for `fuel` attempts: it exits only for the empty string, and
   * everything it adds is the first character.
   */
  method WriteStrBlockingAsWritten(mb: Mailbox, str: seq<byte>, fuel: nat) returns (n: nat, exited: bool)
    requires mb.Valid() && mb.msgSize == 1 && 0 in str
    modifies mb, mb.msgBuf
    ensures mb.Valid() && mb.msgSize == 1 && mb.msgBufLen == old(mb.msgBufLen) && mb.msgBuf == old(mb.msgBuf)
    ensures n == 0
    ensures exited <==> str[0] == 0
    ensures |old(mb.Contents)| <= |mb.Contents|
    ensures mb.Contents[..|old(mb.Contents)|] == old(mb.Contents)
    ensures forall i :: |old(mb.Contents)| <= i < |mb.Contents| ==> mb.Contents[i] == [str[0]]
    ensures mb.dataAdded == old(mb.dataAdded) && mb.notified == old(mb.notified) + if mb.dataAdded then |mb.Contents| - |old(mb.Contents)| else 0
  {
    n := 0;
    var steps := 0;
    while str[n] != 0 && steps < fuel
      invariant mb.Valid() && mb.msgSize == 1 && mb.msgBufLen == old(mb.msgBufLen) && mb.msgBuf == old(mb.msgBuf)
      invariant mb.dataAdded == old(mb.dataAdded) && mb.notified == old(mb.notified) + if mb.dataAdded then |mb.Contents| - |old(mb.Contents)| else 0
      invariant n == 0
      invariant |old(mb.Contents)| <= |mb.Contents|
      invariant mb.Contents[..|old(mb.Contents)|] == old(mb.Contents)
      invariant forall i :: |old(mb.Contents)| <= i < |mb.Contents| ==> mb.Contents[i] == [str[0]]
      decreases fuel - steps
    {
      var ok := WriteCh(mb, str[n]);
      steps := steps + 1;
    }
    exited := str[n] == 0;
  }

  /**
   * `os_char_buffer_write_str_blocking` as documented: writes every
   * character of the string, retrying refused writes (here for at most
   * `fuel` attempts in all), and returns the number written; it exits
   * exactly when the whole string is in.
   */
  method WriteStrBlocking(mb: Mailbox, str: seq<byte>, fuel: nat) returns (n: nat, exited: bool)
    requires mb.Valid() && mb.msgSize == 1 && 0 in str
    modifies mb, mb.msgBuf
    ensures mb.Valid() && mb.msgSize == 1 && mb.msgBufLen == old(mb.msgBufLen) && mb.msgBuf == old(mb.msgBuf)
    ensures n <= StrLen(str) && mb.Contents == old(mb.Contents) + Chars(str[..n])
    ensures exited <==> n == StrLen(str)
    ensures StrLen(str) <= fuel && StrLen(str) <= Capacity(mb.msgBufLen, 1) - |old(mb.Contents)| ==> exited
    ensures mb.dataAdded == old(mb.dataAdded) && mb.notified == old(mb.notified) + if mb.dataAdded then n else 0
  {
    n := 0;
    var steps := 0;
    while str[n] != 0 && steps < fuel
      invariant mb.Valid() && mb.msgSize == 1 && mb.msgBufLen == old(mb.msgBufLen) && mb.msgBuf == old(mb.msgBuf)
      invariant mb.dataAdded == old(mb.dataAdded) && mb.notified == old(mb.notified) + if mb.dataAdded then n else 0
      invariant n <= StrLen(str)
      invariant mb.Contents == old(mb.Contents) + Chars(str[..n])
      invariant steps <= fuel && (StrLen(str) <= Capacity(mb.msgBufLen, 1) - |old(mb.Contents)| ==> n == steps)
      decreases fuel - steps
    {
      var ok := WriteCh(mb, str[n]);
      if ok {
        CharsSnoc(str, n);
        n := n + 1;
      }
      steps := steps + 1;
    }
    exited := str[n] == 0;
  }

  /**
   * `os_char_buffer_read_ch`: one mailbox read into `*ch`; `prev` is what
   * `*ch` held before, which a refused read leaves in place.
   */
  method ReadCh(mb: Mailbox, prev: byte) returns (ok: bool, ch: byte)
    requires mb.Valid() && mb.msgSize == 1
    modifies mb
    ensures mb.Valid() && mb.msgSize == 1 && mb.msgBufLen == old(mb.msgBufLen) && mb.msgBuf == old(mb.msgBuf)
    ensures ok <==> old(mb.Contents) != []
    ensures ok ==> [ch] == old(mb.Contents)[0] && mb.Contents == old(mb.Contents)[1..]
    ensures !ok ==> ch == prev && mb.Contents == old(mb.Contents)
    ensures mb.dataAdded == old(mb.dataAdded) && mb.notified == old(mb.notified)
  {
    var out := new byte[1];
    out[0] := prev;
    ok := mb.Read(out, 0);
    ch := out[0];
    assert ok ==> out[..] == out[0..1];
  }

  /**
   * `os_char_buffer_read_ch_blocking`: retries the read until it succeeds
   * (here for at most `fuel` attempts); the character returned is one a
   * successful read produced, and 0 otherwise.
   */
  method ReadChBlocking(mb: Mailbox, fuel: nat) returns (ch: byte, got: bool)
    requires mb.Valid() && mb.msgSize == 1
    modifies mb
    ensures mb.Valid() && mb.msgSize == 1 && mb.msgBufLen == old(mb.msgBufLen) && mb.msgBuf == old(mb.msgBuf)
    ensures got <==> fuel > 0 && old(mb.Contents) != []
    ensures got ==> [ch] == old(mb.Contents)[0] && mb.Contents == old(mb.Contents)[1..]
    ensures !got ==> ch == 0 && mb.Contents == old(mb.Contents)
    ensures mb.dataAdded == old(mb.dataAdded) && mb.notified == old(mb.notified)
  {
    ch := 0;
    got := false;
    var tries := 0;
    while !got && tries < fuel
      invariant mb.Valid() && mb.msgSize == 1 && mb.msgBufLen == old(mb.msgBufLen) && mb.msgBuf == old(mb.msgBuf)
      invariant mb.dataAdded == old(mb.dataAdded) && mb.notified == old(mb.notified)
      invariant tries <= fuel && (tries == 0 ==> !got)
      invariant got <==> tries > 0 && old(mb.Contents) != []
      invariant got ==> [ch] == old(mb.Contents)[0] && mb.Contents == old(mb.Contents)[1..]
      invariant !got ==> ch == 0 && mb.Contents == old(mb.Contents)
      decreases fuel - tries
    {
      got, ch := ReadCh(mb, ch);
      tries := tries + 1;
    }
  }

  /**
   * `os_char_buffer_read_buf`: the mailbox multi-message read into `out`;
   * returns how many characters were read. Character `i` of `out` is the
   * `i`-th character that was waiting, and `out` past them is untouched.
   */
  method ReadBuf(mb: Mailbox, out: array<byte>, bufLen: nat) returns (n: nat)
    requires mb.Valid() && mb.msgSize == 1 && out != mb.msgBuf && bufLen <= out.Length
    modifies mb, out
    ensures mb.Valid() && mb.msgSize == 1 && mb.msgBufLen == old(mb.msgBufLen) && mb.msgBuf == old(mb.msgBuf)
    ensures n == Min(bufLen, |old(mb.Contents)|)
    ensures mb.Contents == old(mb.Contents)[n..]
    ensures Chars(out[..n]) == old(mb.Contents)[..n]
    ensures out[n..] == old(out[n..])
    ensures mb.dataAdded == old(mb.dataAdded) && mb.notified == old(mb.notified)
  {
    ghost var c0, out0 := mb.Contents, out[..];
    HoldsSizes(mb.msgBuf[..], 1, mb.slots, mb.rd, c0);
    OffsetIsProduct(bufLen, 1);
    n := mb.ReadMultiple(out, bufLen);
    OffsetIsProduct(n, 1);
    FillThenChunks(out0, 1, c0[..n]);
    ChunksOfOne(out[..], n);
    assert out[..][..n] == out[..n];
  }

  /**
   * One round of `os_char_buffer_read_buf_blocking`: reads up to
   * `bufLen - pos` characters to `&buf[pos]`. The pointer into the middle
   * of `out` is a scratch array copied over `out` from `pos` on.
   */
  method ReadBufRound(mb: Mailbox, out: array<byte>, pos: nat, bufLen: nat) returns (k: nat)
    requires mb.Valid() && mb.msgSize == 1 && out != mb.msgBuf && pos <= bufLen <= out.Length
    modifies mb, out
    ensures mb.Valid() && mb.msgSize == 1 && mb.msgBufLen == old(mb.msgBufLen) && mb.msgBuf == old(mb.msgBuf)
    ensures k == Min(bufLen - pos, |old(mb.Contents)|)
    ensures mb.Contents == old(mb.Contents)[k..]
    ensures out[..pos] == old(out[..pos]) && out[pos + k..] == old(out[pos + k..])
    ensures Chars(out[pos..pos + k]) == old(mb.Contents)[..k]
    ensures mb.dataAdded == old(mb.dataAdded) && mb.notified == old(mb.notified)
  {
    var tmp := new byte[bufLen - pos];
    k := ReadBuf(mb, tmp, bufLen - pos);
    CopyBytes(out, pos, tmp[..k]);
    assert out[pos..pos + k] == tmp[..k];
  }

  /**
   * `os_char_buffer_read_buf_blocking` as written: the loop runs while
   * `pos <= buf_len`; once `buf_len` characters are read it keeps calling
   * the mailbox for zero characters and never leaves. Run for `fuel`
   * rounds, it never reports an exit.
   */
  method ReadBufBlockingAsWritten(mb: Mailbox, out: array<byte>, bufLen: nat, fuel: nat) returns (pos: nat, exited: bool)
    requires mb.Valid() && mb.msgSize == 1 && out != mb.msgBuf && bufLen <= out.Length
    modifies mb, out
    ensures mb.Valid() && mb.msgSize == 1 && mb.msgBufLen == old(mb.msgBufLen) && mb.msgBuf == old(mb.msgBuf)
    ensures pos <= bufLen && pos <= |old(mb.Contents)| && mb.Contents == old(mb.Contents)[pos..]
    ensures Chars(out[..pos]) == old(mb.Contents)[..pos] && out[pos..] == old(out[pos..])
    ensures fuel > 0 && bufLen <= |old(mb.Contents)| ==> pos == bufLen
    ensures !exited
    ensures mb.dataAdded == old(mb.dataAdded) && mb.notified == old(mb.notified)
  {
    pos := 0;
    var steps := 0;
    while pos <= bufLen && steps < fuel
      invariant mb.Valid() && mb.msgSize == 1 && mb.msgBufLen == old(mb.msgBufLen) && mb.msgBuf == old(mb.msgBuf)
      invariant mb.dataAdded == old(mb.dataAdded) && mb.notified == old(mb.notified)
      invariant pos <= bufLen && pos <= |old(mb.Contents)| && mb.Contents == old(mb.Contents)[pos..]
      invariant Chars(out[..pos]) == old(mb.Contents)[..pos] && out[pos..] == old(out[pos..])
      invariant steps <= fuel && (steps > 0 && bufLen <= |old(mb.Contents)| ==> pos == bufLen)
      decreases fuel - steps
    {
      pos := ReadBufStep(mb, out, pos, bufLen);
      steps := steps + 1;
    }
    exited := pos > bufLen;
  }

  /**
   * `os_char_buffer_read_buf_blocking` as documented: retries until
   * `bufLen` characters are read (here for at most `fuel` rounds), and
   * exits exactly when they are.
   */
  method ReadBufBlocking(mb: Mailbox, out: array<byte>, bufLen: nat, fuel: nat) returns (pos: nat, exited: bool)
    requires mb.Valid() && mb.msgSize == 1 && out != mb.msgBuf && bufLen <= out.Length
    modifies mb, out
    ensures mb.Valid() && mb.msgSize == 1 && mb.msgBufLen == old(mb.msgBufLen) && mb.msgBuf == old(mb.msgBuf)
    ensures pos <= bufLen && pos <= |old(mb.Contents)| && mb.Contents == old(mb.Contents)[pos..]
    ensures Chars(out[..pos]) == old(mb.Contents)[..pos] && out[pos..] == old(out[pos..])
    ensures fuel > 0 && bufLen <= |old(mb.Contents)| ==> pos == bufLen
    ensures exited <==> pos == bufLen
    ensures mb.dataAdded == old(mb.dataAdded) && mb.notified == old(mb.notified)
  {
    pos := 0;
    var steps := 0;
    while pos < bufLen && steps < fuel
      invariant mb.Valid() && mb.msgSize == 1 && mb.msgBufLen == old(mb.msgBufLen) && mb.msgBuf == old(mb.msgBuf)
      invariant mb.dataAdded == old(mb.dataAdded) && mb.notified == old(mb.notified)
      invariant pos <= bufLen && pos <= |old(mb.Contents)| && mb.Contents == old(mb.Contents)[pos..]
      invariant Chars(out[..pos]) == old(mb.Contents)[..pos] && out[pos..] == old(out[pos..])
      invariant steps <= fuel && (steps > 0 && bufLen <= |old(mb.Contents)| ==> pos == bufLen)
      decreases fuel - steps
    {
      pos := ReadBufStep(mb, out, pos, bufLen);
      steps := steps + 1;
    }
    exited := pos == bufLen;
  }

  /**
   * A round of the blocking read, advancing `pos` past what it read and
   * keeping the relation between `out` and the characters read so far.
   */
  method ReadBufStep(mb: Mailbox, out: array<byte>, pos: nat, bufLen: nat) returns (pos': nat)
    requires mb.Valid() && mb.msgSize == 1 && out != mb.msgBuf && pos <= bufLen <= out.Length
    modifies mb, out
    ensures mb.Valid() && mb.msgSize == 1 && mb.msgBufLen == old(mb.msgBufLen) && mb.msgBuf == old(mb.msgBuf)
    ensures pos <= pos' <= bufLen && pos' - pos == Min(bufLen - pos, |old(mb.Contents)|)
    ensures mb.Contents == old(mb.Contents)[pos' - pos..]
    ensures out[..pos] == old(out[..pos]) && out[pos'..] == old(out[pos'..])
    ensures Chars(out[..pos']) == Chars(old(out[..pos])) + old(mb.Contents)[..pos' - pos]
    ensures mb.dataAdded == old(mb.dataAdded) && mb.notified == old(mb.notified)
  {
    var k := ReadBufRound(mb, out, pos, bufLen);
    pos' := pos + k;
    assert out[..pos'] == out[..pos] + out[pos..pos'];
    CharsConcat(out[..pos], out[pos..pos']);
  }

  /**
   * Two characters into an empty 4-byte character buffer: the
   * `write_buf_blocking` loop as written has put both in after five rounds
   * and is still looping; as documented it has returned.
   */
  method BufBlockingScenario() returns (asWritten: bool, corrected: bool)
    ensures !asWritten && corrected
  {
    var s: seq<byte> := [97, 98];
    var b1 := new byte[4];
    var mb1 := Init(b1, 4, false);
    var pos;
    pos, asWritten := WriteBufBlockingAsWritten(mb1, s, 2, 5);
    var b2 := new byte[4];
    var mb2 := Init(b2, 4, false);
    pos, corrected := WriteBufBlocking(mb2, s, 2, 5);
  }

  /**
   * "ab" into an empty 4-byte character buffer: the `write_str_blocking`
   * loop as written is still looping after five attempts; as documented it
   * has returned with both characters written.
   */
  method StrBlockingScenario() returns (asWritten: bool, corrected: bool, n: nat)
    ensures !asWritten && corrected && n == 2
  {
    var s: seq<byte> := [97, 98, 0];
    assert StrLen(s) == 2;
    var b1 := new byte[4];
    var mb1 := Init(b1, 4, false);
    var n0;
    n0, asWritten := WriteStrBlockingAsWritten(mb1, s, 5);
    var b2 := new byte[4];
    var mb2 := Init(b2, 4, false);
    n, corrected := WriteStrBlocking(mb2, s, 5);
  }
}
