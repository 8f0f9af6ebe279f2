/**
 * The button driver of the timeout example.  Every PING samples both
 * buttons; each keeps the last three samples as a 3-bit history and changes
 * state only after three equal samples in a row.  A released button (input
 * 1) that reads 0 three times is pressed, and the registered client, if
 * any, is sent PRESS with the button's index.
 */
module Debounce {
  import opened Messages

  const NButtons: nat := 2

  /** The driver's state: the client pid (0 when nobody registered), and a history and state per button. */
  datatype Buttons = Buttons(client: int, history: seq<nat>, state: seq<bool>)

  /** What handling one message produced. */
  datatype Handled = Handled(buttons: Buttons, presses: seq<nat>) | BadMessage(mtype: int)

  predicate Valid(b: Buttons)
  {
    |b.history| == NButtons && |b.state| == NButtons
    && forall i :: 0 <= i < NButtons ==> b.history[i] < 8
  }

  /** The state before the first message: nothing registered, all histories and states 0. */
  function Initial(): (b: Buttons)
    ensures Valid(b) && b.client == 0
    ensures forall i :: 0 <= i < NButtons ==> b.history[i] == 0 && !b.state[i]
  {
    Buttons(0, [0, 0], [false, false])
  }

  function BitOf(x: bool): nat
  {
    if x then 1 else 0
  }

  /**
   * history = ((history << 1) | x) & 0x7 on a history below 8: the oldest
   * sample drops out of bit 2 and the new one enters bit 0.
   */
  function Shift(h: nat, x: bool): (r: nat)
    requires h < 8
    ensures r < 8
  {
    if h >= 4 then 2 * (h - 4) + BitOf(x) else 2 * h + BitOf(x)
  }

  /** Shift is the C expression's value: (2 * history + x) mod 8. */
  lemma ShiftIsMasked(h: nat, x: bool)
    requires h < 8
    ensures Shift(h, x) == (2 * h + BitOf(x)) % 8
  {
    if h >= 4 {
      assert 2 * h + BitOf(x) == 8 + Shift(h, x);
    }
  }

  /**
   * The reference reading of a history: the last three samples, newest in
   * bit 0, whatever the history held before them.
   */
  lemma HistoryHoldsLastThree(h: nat, a: bool, b: bool, c: bool)
    requires h < 8
    ensures Shift(Shift(Shift(h, a), b), c) == 4 * BitOf(a) + 2 * BitOf(b) + BitOf(c)
  {
  }

  /** One sample of one button: the new history and state, and whether it was just pressed. */
  function Step(h: nat, st: bool, x: bool): (r: (nat, bool, bool))
    requires h < 8
    ensures r.0 < 8 && r.0 == Shift(h, x)
    ensures r.2 <==> st && r.0 == 0
    ensures r.1 <==> (if st then r.0 != 0 else r.0 == 7)
  {
    var h' := Shift(h, x);
    if st then
      if h' == 0 then (h', false, true) else (h', true, false)
    else
      if h' == 7 then (h', true, false) else (h', false, false)
  }

  /** A pressed button is released, and a released one pressed, only after three equal samples. */
  lemma StepNeedsThreeSamples(h: nat, a: bool, b: bool, c: bool, st: bool)
    requires h < 8
    ensures var r := Step(Shift(Shift(h, a), b), st, c);
      (st && !r.1 <==> st && !a && !b && !c) && (!st && r.1 <==> !st && a && b && c)
  {
    HistoryHoldsLastThree(h, a, b, c);
  }

  /**
   * Button i went from bs to b on sample x: its history took the sample.
   * A state of 1 means up: the button fell to 0 (a press) only on a
   * history of three 0s, and rose back to 1 (a release) only on one of
   * three 1s.
   */
  predicate Sampled(bs: Buttons, b: Buttons, x: seq<bool>, i: nat)
    requires Valid(bs) && Valid(b) && |x| == NButtons && i < NButtons
  {
    && b.history[i] == Shift(bs.history[i], x[i])
    && (bs.state[i] && !b.state[i] <==> bs.state[i] && b.history[i] == 0)
    && (!bs.state[i] && b.state[i] <==> !bs.state[i] && b.history[i] == 7)
  }

  /** PING: samples both buttons in order and reports, for a registered client, each new press. */
  function Ping(bs: Buttons, x: seq<bool>): (r: (Buttons, seq<nat>))
    requires Valid(bs) && |x| == NButtons
    ensures Valid(r.0) && r.0.client == bs.client
    ensures Sampled(bs, r.0, x, 0) && Sampled(bs, r.0, x, 1)
    ensures 0 in r.1 <==> bs.client != 0 && bs.state[0] && !r.0.state[0]
    ensures 1 in r.1 <==> bs.client != 0 && bs.state[1] && !r.0.state[1]
    ensures r.1 == [] || r.1 == [0] || r.1 == [1] || r.1 == [0, 1]
  {
    var s0 := Step(bs.history[0], bs.state[0], x[0]);
    var s1 := Step(bs.history[1], bs.state[1], x[1]);
    var sent := (if s0.2 && bs.client != 0 then [0] else []) + (if s1.2 && bs.client != 0 then [1] else []);
    (Buttons(bs.client, [s0.0, s1.0], [s0.1, s1.1]), sent)
  }

  /**
   * The message loop of button_task: PING samples the buttons, REGISTER
   * records the sender as client, and any other type goes to badmesg.
   */
  function Handle(bs: Buttons, m: Message, x: seq<bool>): (r: Handled)
    requires Valid(bs) && |x| == NButtons
    ensures r.BadMessage? <==> m.mtype != PING && m.mtype != REGISTER
    ensures r.Handled? ==> Valid(r.buttons)
    ensures m.mtype == REGISTER ==> r == Handled(bs.(client := m.sender), [])
    ensures m.mtype == PING ==> r.Handled? && r.buttons.client == bs.client
  {
    if m.mtype == PING then
      var p := Ping(bs, x);
      Handled(p.0, p.1)
    else if m.mtype == REGISTER then
      Handled(bs.(client := m.sender), [])
    else
      BadMessage(m.mtype)
  }
}
