/**
 * The line-editing buffers of the serial driver.  Input characters are
 * edited in the current line (n_edit characters) until a newline commits
 * the line to the characters available to readers (n_avail); output
 * characters wait in a second circular buffer for the transmitter.  Both
 * buffers hold NBUF = 256 bytes and their indices are reduced with wrap.
 *
 * Each buffer is read through an abstract view (Avail, Line, TxQueue): the
 * sequence of characters it holds, oldest first.  The contracts below state
 * every operation on those views.
 */
module Serial {
  import opened Mem
  import opened Options

  const NBUF: int := 256

  /** Character codes the editor reacts to. */
  const CtrlB: Byte := 2
  const BS: Byte := 8
  const LF: Byte := 10
  const CR: Byte := 13
  const Space: Byte := 32
  const DEL: Byte := 127

  /** wrap(x) = x & (NBUF - 1): on a two's-complement int, the residue of x modulo NBUF. */
  function Wrap(x: int): (r: nat)
    ensures r < NBUF
    ensures -NBUF <= x < 0 ==> r == x + NBUF
    ensures 0 <= x < NBUF ==> r == x
    ensures NBUF <= x < 2 * NBUF ==> r == x - NBUF
  {
    x % NBUF
  }

  /**
   * The driver's variables.  Characters are unsigned bytes (char is
   * unsigned on the ARM targets).  reader is the pid of the process
   * waiting for input, or -1.
   */
  datatype Serial = Serial(
    rxbuf: seq<Byte>, rxInp: int, rxOutp: int, nAvail: int, nEdit: int,
    txbuf: seq<Byte>, txInp: int, txOutp: int, nTx: int,
    reader: int, txIdle: bool)

  /** The buffer bookkeeping every operation keeps. */
  predicate Inv(s: Serial)
  {
    && |s.rxbuf| == NBUF && |s.txbuf| == NBUF
    && 0 <= s.rxOutp < NBUF && 0 <= s.txOutp < NBUF
    && 0 <= s.nAvail && 0 <= s.nEdit && s.nAvail + s.nEdit <= NBUF
    && 0 <= s.nTx <= NBUF
    && s.rxInp == Wrap(s.rxOutp + s.nAvail + s.nEdit)
    && s.txInp == Wrap(s.txOutp + s.nTx)
  }

  /**
   * The n characters of a circular buffer from position start on, oldest
   * first: position start + i is held at index wrap(start + i).
   */
  function Ring(buf: seq<Byte>, start: int, n: int): (q: seq<Byte>)
    requires |buf| == NBUF && 0 <= start && 0 <= n <= NBUF && start + n <= 2 * NBUF
    ensures |q| == n
  {
    seq(n, i requires 0 <= i < n => buf[Wrap(start + i)])
  }

  /** The characters of committed lines that readers have not yet taken, oldest first. */
  function Avail(s: Serial): (a: seq<Byte>)
    requires Inv(s)
    ensures |a| == s.nAvail
  {
    Ring(s.rxbuf, s.rxOutp, s.nAvail)
  }

  /** The current line, still open to editing. */
  function Line(s: Serial): (l: seq<Byte>)
    requires Inv(s)
    ensures |l| == s.nEdit
  {
    Ring(s.rxbuf, s.rxOutp + s.nAvail, s.nEdit)
  }

  /** The characters waiting for the transmitter, oldest first. */
  function TxQueue(s: Serial): (q: seq<Byte>)
    requires Inv(s)
    ensures |q| == s.nTx
  {
    Ring(s.txbuf, s.txOutp, s.nTx)
  }

  /** Writing at the position after the last character appends it. */
  lemma RingPut(buf: seq<Byte>, start: int, n: int, c: Byte)
    requires |buf| == NBUF && 0 <= start && 0 <= n < NBUF && start + n < 2 * NBUF
    ensures Ring(buf[Wrap(start + n) := c], start, n + 1) == Ring(buf, start, n) + [c]
  {
    var r1, r0 := Ring(buf[Wrap(start + n) := c], start, n + 1), Ring(buf, start, n);
    forall i | 0 <= i < n ensures r1[i] == r0[i] {
      WrapDistinct(start, i, n);
    }
    assert r1 == r0 + [c];
  }

  /** Writing k >= n positions after start leaves the first n characters alone. */
  lemma RingFrame(buf: seq<Byte>, start: int, n: int, k: int, c: Byte)
    requires |buf| == NBUF && 0 <= start && 0 <= n <= k < NBUF && start + k < 2 * NBUF
    ensures Ring(buf[Wrap(start + k) := c], start, n) == Ring(buf, start, n)
  {
    var r1, r0 := Ring(buf[Wrap(start + k) := c], start, n), Ring(buf, start, n);
    forall i | 0 <= i < n ensures r1[i] == r0[i] {
      WrapDistinct(start, i, k);
    }
  }

  /** Positions less than NBUF apart are held at different indices. */
  lemma WrapDistinct(start: int, i: int, k: int)
    requires 0 <= start && 0 <= i < k < NBUF && start + k < 2 * NBUF
    ensures Wrap(start + i) != Wrap(start + k)
  {
  }

  /** Wrapping an index before adding a further offset changes nothing. */
  lemma WrapShift(x: int, k: int)
    requires 0 <= x <= NBUF && 0 <= k < NBUF
    ensures Wrap(Wrap(x) + k) == Wrap(x + k)
  {
  }

  /** Two starts that wrap to the same index read the same characters. */
  lemma RingSame(buf: seq<Byte>, a: int, b: int, n: int)
    requires |buf| == NBUF && 0 <= a && 0 <= b && 0 <= n <= NBUF
    requires a + n <= 2 * NBUF && b + n <= 2 * NBUF && Wrap(a) == Wrap(b)
    ensures Ring(buf, a, n) == Ring(buf, b, n)
  {
    var ra, rb := Ring(buf, a, n), Ring(buf, b, n);
    forall i | 0 <= i < n ensures ra[i] == rb[i] {
      assert Wrap(a + i) == Wrap(b + i);
    }
  }

  /** Dropping the oldest character moves the start one place on. */
  lemma RingPop(buf: seq<Byte>, start: int, n: int)
    requires |buf| == NBUF && 0 <= start < NBUF && 0 < n <= NBUF
    ensures Ring(buf, start, n)[0] == buf[start]
    ensures Ring(buf, Wrap(start + 1), n - 1) == Ring(buf, start, n)[1..]
  {
    assert Wrap(start + 0) == start;
    RingSame(buf, Wrap(start + 1), start + 1, n - 1);
  }

  /** A run of m + n characters is the first m followed by the next n. */
  lemma RingSplit(buf: seq<Byte>, start: int, m: int, n: int)
    requires |buf| == NBUF && 0 <= start && 0 <= m && 0 <= n && m + n <= NBUF && start + m + n <= 2 * NBUF
    ensures Ring(buf, start, m + n) == Ring(buf, start, m) + Ring(buf, start + m, n)
  {
  }

  /** The initial state: both buffers empty, no reader, transmitter idle. */
  function Initial(): (s: Serial)
    ensures Inv(s) && Avail(s) == [] && Line(s) == [] && TxQueue(s) == []
    ensures s.reader < 0 && s.txIdle
  {
    Serial(seq(NBUF, _ => 0), 0, 0, 0, 0, seq(NBUF, _ => 0), 0, 0, 0, -1, true)
  }

  /** The input side and the reader are the same in both states. */
  predicate SameInput(s: Serial, r: Serial)
  {
    && r.rxbuf == s.rxbuf && r.rxInp == s.rxInp && r.rxOutp == s.rxOutp
    && r.nAvail == s.nAvail && r.nEdit == s.nEdit && r.reader == s.reader
  }

  // ---------------------------------------------------------------------
  // The reference behaviour of the output queue

  /** Echoing onto a queue: the character is added unless the queue is full. */
  function Push(q: seq<Byte>, c: Byte): seq<Byte>
  {
    if |q| >= NBUF then q else q + [c]
  }

  /** Echoing several characters in turn. */
  function PushAll(q: seq<Byte>, cs: seq<Byte>): seq<Byte>
    decreases |cs|
  {
    if |cs| == 0 then q else PushAll(Push(q, cs[0]), cs[1..])
  }

  // ---------------------------------------------------------------------
  // Adding to and removing from the buffers

  /** txbuf[tx_inp] = ch; tx_inp = wrap(tx_inp+1); n_tx++ */
  function TxPut(s: Serial, ch: Byte): (r: Serial)
    requires Inv(s) && s.nTx < NBUF
    ensures Inv(r) && TxQueue(r) == TxQueue(s) + [ch]
    ensures SameInput(s, r) && r.txIdle == s.txIdle
  {
    RingPut(s.txbuf, s.txOutp, s.nTx, ch);
    s.(txbuf := s.txbuf[s.txInp := ch], txInp := Wrap(s.txInp + 1), nTx := s.nTx + 1)
  }

  /** rxbuf[rx_inp] = ch; rx_inp = wrap(rx_inp+1); n_edit++ */
  function RxPut(s: Serial, ch: Byte): (r: Serial)
    requires Inv(s) && s.nAvail + s.nEdit < NBUF
    ensures Inv(r) && Line(r) == Line(s) + [ch] && Avail(r) == Avail(s)
    ensures TxQueue(r) == TxQueue(s) && r.reader == s.reader && r.txIdle == s.txIdle
  {
    RingPut(s.rxbuf, s.rxOutp + s.nAvail, s.nEdit, ch);
    RingFrame(s.rxbuf, s.rxOutp, s.nAvail, s.nAvail + s.nEdit, ch);
    s.(rxbuf := s.rxbuf[s.rxInp := ch], rxInp := Wrap(s.rxInp + 1), nEdit := s.nEdit + 1)
  }

  /** echo(ch): the character joins the output queue, or is dropped when the queue is full. */
  function Echo(s: Serial, ch: Byte): (r: Serial)
    requires Inv(s)
    ensures Inv(r) && TxQueue(r) == Push(TxQueue(s), ch)
    ensures SameInput(s, r) && r.txIdle == s.txIdle
  {
    if s.nTx == NBUF then s else TxPut(s, ch)
  }

  /** Echoing a string, one character at a time. */
  function EchoAll(s: Serial, cs: seq<Byte>): (r: Serial)
    requires Inv(s)
    ensures Inv(r) && TxQueue(r) == PushAll(TxQueue(s), cs)
    ensures SameInput(s, r) && r.txIdle == s.txIdle
    decreases |cs|
  {
    if |cs| == 0 then s else EchoAll(Echo(s, cs[0]), cs[1..])
  }

  /** The line editor's treatment of a character that is neither an edit nor a newline. */
  predicate Printable(ch: Byte)
  {
    32 <= ch < 127
  }

  /** Backspace or DEL: the last character of the current line goes, and "\b \b" is echoed. */
  function Rubout(s: Serial): (r: Serial)
    requires Inv(s)
    ensures Inv(r) && r.reader == s.reader && r.txIdle == s.txIdle
    ensures s.nEdit == 0 ==> r == s
    ensures s.nEdit > 0 ==>
      && Avail(r) == Avail(s) && Line(r) == Line(s)[..s.nEdit - 1]
      && TxQueue(r) == PushAll(TxQueue(s), [BS, Space, BS])
  {
    if s.nEdit > 0 then
      var s1 := s.(nEdit := s.nEdit - 1, rxInp := Wrap(s.rxInp - 1));
      EchoAll(s1, [BS, Space, BS])
    else s
  }

  /** CR or LF: when there is room, LF ends the current line, the whole line is committed, and CR LF is echoed. */
  function Newline(s: Serial): (r: Serial)
    requires Inv(s)
    ensures Inv(r) && r.reader == s.reader && r.txIdle == s.txIdle
    ensures |Avail(s)| + |Line(s)| == NBUF ==> r == s
    ensures |Avail(s)| + |Line(s)| < NBUF ==>
      && Avail(r) == Avail(s) + Line(s) + [LF] && Line(r) == []
      && TxQueue(r) == PushAll(TxQueue(s), [CR, LF])
  {
    if s.nAvail + s.nEdit == NBUF then s
    else EchoAll(Commit(RxPut(s, LF)), [CR, LF])
  }

  /** n_avail += n_edit; n_edit = 0: the current line joins the available characters and a new line starts. */
  function Commit(s: Serial): (r: Serial)
    requires Inv(s)
    ensures Inv(r) && Avail(r) == Avail(s) + Line(s) && Line(r) == []
    ensures TxQueue(r) == TxQueue(s) && r.reader == s.reader && r.txIdle == s.txIdle
  {
    RingSplit(s.rxbuf, s.rxOutp, s.nAvail, s.nEdit);
    s.(nAvail := s.nAvail + s.nEdit, nEdit := 0)
  }

  /** A printable character: when there is room it joins the current line and is echoed. */
  function AddChar(s: Serial, ch: Byte): (r: Serial)
    requires Inv(s)
    ensures Inv(r) && r.reader == s.reader && r.txIdle == s.txIdle
    ensures |Avail(s)| + |Line(s)| == NBUF ==> r == s
    ensures |Avail(s)| + |Line(s)| < NBUF ==>
      Avail(r) == Avail(s) && Line(r) == Line(s) + [ch] && TxQueue(r) == Push(TxQueue(s), ch)
  {
    if s.nAvail + s.nEdit == NBUF then s else Echo(RxPut(s, ch), ch)
  }

  /**
   * keypress(ch): backspace and DEL delete the last character of the
   * current line, CR and LF commit the line, CTRL-B asks for a process
   * dump (which prints directly and leaves the buffers alone), other
   * control characters are ignored, and a printable character is added.
   */
  function Keypress(s: Serial, ch: Byte): (r: Serial)
    requires Inv(s)
    ensures Inv(r) && r.reader == s.reader && r.txIdle == s.txIdle
    ensures ch == BS || ch == DEL ==> r == Rubout(s)
    ensures ch == CR || ch == LF ==> r == Newline(s)
    ensures Printable(ch) ==> r == AddChar(s, ch)
    ensures ch == CtrlB || (!Printable(ch) && ch !in {BS, DEL, CR, LF}) ==> r == s
  {
    if ch == BS || ch == DEL then Rubout(s)
    else if ch == CR || ch == LF then Newline(s)
    else if ch == CtrlB then s
    else if !Printable(ch) then s
    else AddChar(s, ch)
  }

  /** Committed input is never taken back by the editor: it can only grow. */
  lemma KeypressKeepsCommitted(s: Serial, ch: Byte)
    requires Inv(s)
    ensures var r := Keypress(s, ch);
      |Avail(s)| <= |Avail(r)| && Avail(r)[..|Avail(s)|] == Avail(s)
  {
  }

  /** What reply did: the state after, the character sent to the reader, and the byte started on the line. */
  datatype Replied = Replied(serial: Serial, sent: Option<(int, Byte)>, transmitted: Option<Byte>)

  /** The first half of reply: a waiting reader with input available gets the oldest character. */
  function ServeReader(s: Serial): (r: (Serial, Option<(int, Byte)>))
    requires Inv(s)
    ensures Inv(r.0) && Line(r.0) == Line(s) && TxQueue(r.0) == TxQueue(s) && r.0.txIdle == s.txIdle
    ensures s.reader >= 0 && |Avail(s)| > 0 ==>
      r.1 == Some((s.reader, Avail(s)[0])) && Avail(r.0) == Avail(s)[1..] && r.0.reader == -1
    ensures !(s.reader >= 0 && |Avail(s)| > 0) ==> r == (s, None)
  {
    if s.reader >= 0 && s.nAvail > 0 then
      RingPop(s.rxbuf, s.rxOutp, s.nAvail);
      (Unwait(PopAvail(s)), Some((s.reader, s.rxbuf[s.rxOutp])))
    else (s, None)
  }

  /** reader = -1: no process waits for input any more; the buffers are untouched. */
  function Unwait(s: Serial): (r: Serial)
    requires Inv(s)
    ensures Inv(r) && Avail(r) == Avail(s) && Line(r) == Line(s) && TxQueue(r) == TxQueue(s)
    ensures r.reader == -1 && r.txIdle == s.txIdle
  {
    s.(reader := -1)
  }

  /** rx_outp = wrap(rx_outp+1); n_avail--: the oldest available character is taken. */
  function PopAvail(s: Serial): (r: Serial)
    requires Inv(s) && s.nAvail > 0
    ensures Inv(r) && Avail(r) == Avail(s)[1..] && Line(r) == Line(s)
    ensures TxQueue(r) == TxQueue(s) && r.reader == s.reader && r.txIdle == s.txIdle
  {
    RingPop(s.rxbuf, s.rxOutp, s.nAvail);
    WrapShift(s.rxOutp + 1, s.nAvail - 1 + s.nEdit);
    RingSame(s.rxbuf, Wrap(s.rxOutp + 1) + s.nAvail - 1, s.rxOutp + s.nAvail, s.nEdit);
    s.(rxOutp := Wrap(s.rxOutp + 1), nAvail := s.nAvail - 1)
  }

  /** The second half of reply: an idle transmitter with output queued starts on the oldest byte. */
  function StartTx(s: Serial): (r: (Serial, Option<Byte>))
    requires Inv(s)
    ensures Inv(r.0) && SameInput(s, r.0)
    ensures s.txIdle && |TxQueue(s)| > 0 ==>
      r.1 == Some(TxQueue(s)[0]) && TxQueue(r.0) == TxQueue(s)[1..] && !r.0.txIdle
    ensures !(s.txIdle && |TxQueue(s)| > 0) ==> r == (s, None)
  {
    if s.txIdle && s.nTx > 0 then
      RingPop(s.txbuf, s.txOutp, s.nTx);
      WrapShift(s.txOutp + 1, s.nTx - 1);
      (s.(txOutp := Wrap(s.txOutp + 1), nTx := s.nTx - 1, txIdle := false), Some(s.txbuf[s.txOutp]))
    else (s, None)
  }

  /**
   * reply(): a waiting reader with input available gets the oldest
   * character and stops waiting; then an idle transmitter with output
   * queued starts on the oldest byte and is no longer idle.
   */
  function Reply(s: Serial): (r: Replied)
    requires Inv(s)
    ensures Inv(r.serial)
    ensures var (s1, sent) := ServeReader(s); var (s2, tx) := StartTx(s1);
      r == Replied(s2, sent, tx)
  {
    var (s1, sent) := ServeReader(s);
    var (s2, tx) := StartTx(s1);
    Replied(s2, sent, tx)
  }

  /**
   * The interrupt handler's effect on the buffers: a received character
   * goes through keypress, and a finished transmission makes the
   * transmitter idle.
   */
  function Interrupt(s: Serial, received: Option<Byte>, txDone: bool): (r: Serial)
    requires Inv(s)
    ensures Inv(r)
    ensures received.None? ==> Avail(r) == Avail(s) && Line(r) == Line(s) && TxQueue(r) == TxQueue(s)
    ensures received.Some? ==> var k := Keypress(s, received.value);
      Avail(r) == Avail(k) && Line(r) == Line(k) && TxQueue(r) == TxQueue(k)
    ensures r.txIdle == (s.txIdle || txDone) && r.reader == s.reader
  {
    var s1 := if received.Some? then Keypress(s, received.value) else s;
    if txDone then s1.(txIdle := true) else s1
  }

  /** GETC: the sender becomes the reader; a second reader while one waits is fatal. */
  function Getc(s: Serial, client: int): (r: Option<Serial>)
    requires Inv(s)
    ensures r.None? <==> s.reader >= 0
    ensures r.Some? ==> (Inv(r.value) && r.value.reader == client
      && Avail(r.value) == Avail(s) && Line(r.value) == Line(s) && TxQueue(r.value) == TxQueue(s))
  {
    if s.reader >= 0 then None else Some(s.(reader := client))
  }

  /**
   * queue_char(ch) once the output buffer has room: the character joins
   * the output queue.  While the buffer is full the driver waits for the
   * transmitter, which the result None stands for.
   */
  function QueueChar(s: Serial, ch: Byte): (r: Option<Serial>)
    requires Inv(s)
    ensures r.None? <==> |TxQueue(s)| == NBUF
    ensures r.Some? ==> (Inv(r.value) && TxQueue(r.value) == TxQueue(s) + [ch]
      && SameInput(s, r.value) && r.value.txIdle == s.txIdle)
  {
    if s.nTx == NBUF then None else Some(TxPut(s, ch))
  }

  // ---------------------------------------------------------------------
  // Newline expansion for output

  /** The bytes PUTC and PUTBUF queue for some text: CR before every LF. */
  function Expand(cs: seq<Byte>): (e: seq<Byte>)
    decreases |cs|
  {
    if |cs| == 0 then []
    else (if cs[0] == LF then [CR, LF] else [cs[0]]) + Expand(cs[1..])
  }

  /** The inverse of Expand: a CR directly followed by LF becomes LF. */
  function Collapse(e: seq<Byte>): (cs: seq<Byte>)
    decreases |e|
  {
    if |e| == 0 then []
    else if |e| >= 2 && e[0] == CR && e[1] == LF then [LF] + Collapse(e[2..])
    else [e[0]] + Collapse(e[1..])
  }

  /** Collapsing the expansion of any text gives the text back. */
  lemma {:induction false} CollapseExpand(cs: seq<Byte>)
    ensures Collapse(Expand(cs)) == cs
    decreases |cs|
  {
    if |cs| > 0 {
      CollapseExpand(cs[1..]);
      ExpandStartsWithLF(cs[1..]);
      var e := Expand(cs);
      if cs[0] == LF {
        assert e[2..] == Expand(cs[1..]);
      } else {
        assert e[1..] == Expand(cs[1..]);
      }
      assert cs == [cs[0]] + cs[1..];
    }
  }

  /** An expansion never starts with a bare LF. */
  lemma ExpandStartsWithLF(cs: seq<Byte>)
    ensures |Expand(cs)| > 0 ==> Expand(cs)[0] != LF
  {
  }

  /** In the expansion every LF comes straight after a CR. */
  lemma {:induction false} ExpandCRBeforeLF(cs: seq<Byte>)
    ensures forall i :: 0 <= i < |Expand(cs)| && Expand(cs)[i] == LF ==> i > 0 && Expand(cs)[i - 1] == CR
    decreases |cs|
  {
    if |cs| > 0 {
      ExpandCRBeforeLF(cs[1..]);
      var e := Expand(cs);
      var h := if cs[0] == LF then [CR, LF] else [cs[0]];
      assert e == h + Expand(cs[1..]);
      ExpandStartsWithLF(cs[1..]);
      forall i | 0 <= i < |e| && e[i] == LF ensures i > 0 && e[i - 1] == CR {
        if i >= |h| {
          assert e[i] == Expand(cs[1..])[i - |h|];
        }
      }
    }
  }

  /**
   * The loop of PUTC and PUTBUF over an expansion, as far as the output
   * buffer has room: the first n bytes are queued in order, and n falls
   * short only when the buffer is full and the driver must wait.
   */
  method QueueAll(s: Serial, cs: seq<Byte>) returns (r: Serial, n: nat)
    requires Inv(s)
    ensures Inv(r) && n <= |cs| && TxQueue(r) == TxQueue(s) + cs[..n]
    ensures n < |cs| ==> |TxQueue(r)| == NBUF
    ensures SameInput(s, r) && r.txIdle == s.txIdle
  {
    r, n := s, 0;
    while n < |cs|
      invariant Inv(r) && n <= |cs| && TxQueue(r) == TxQueue(s) + cs[..n]
      invariant SameInput(s, r) && r.txIdle == s.txIdle
    {
      var q := QueueChar(r, cs[n]);
      if q.None? {
        return;
      }
      assert cs[..n + 1] == cs[..n] + [cs[n]];
      r, n := q.value, n + 1;
    }
  }

  /** PUTBUF(buf): queues the expansion of buf, as far as there is room. */
  method PutBuf(s: Serial, buf: seq<Byte>) returns (r: Serial, n: nat)
    requires Inv(s)
    ensures Inv(r) && n <= |Expand(buf)| && TxQueue(r) == TxQueue(s) + Expand(buf)[..n]
    ensures n < |Expand(buf)| ==> |TxQueue(r)| == NBUF
    ensures SameInput(s, r)
  {
    r, n := QueueAll(s, Expand(buf));
  }
}
