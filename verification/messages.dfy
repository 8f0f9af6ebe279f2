/**
 * The message record shared by the kernel and its client processes, and the
 * reserved message types.  The header that defines the message-type numbers
 * (microbian.h) is not part of this model: the values below are chosen, and
 * the proofs rely only on ANY being negative and the named types being
 * distinct 16-bit values.
 */
module Messages {
  /** An unsigned short: the type and sender fields of a message. */
  type U16 = x: int | 0 <= x < 0x1_0000

  /** Storing an int into an unsigned short keeps it modulo 2^16. */
  function ToU16(x: int): (r: U16)
    ensures 0 <= x < 0x1_0000 ==> r == x
    ensures (r - x) % 0x1_0000 == 0
  {
    x % 0x1_0000
  }

  /** The filter of a receive that accepts every message type. */
  const ANY: int := -1
  /** The pseudo-sender of interrupt and timeout messages. */
  const HARDWARE: int := -1
  const INTERRUPT: int := 1
  const REPLY: int := 2
  const TIMEOUT: int := 3
  const PING: int := 4
  const REGISTER: int := 5

  /**
   * A message: 16 bytes with the type, the sender and three payload words
   * (each an int, a pointer or four bytes).
   */
  datatype Message = Message(mtype: U16, sender: U16, int1: int, int2: int, int3: int)

  /** A message of the given type with an empty payload, as send_msg builds it. */
  function MessageOf(mtype: int): (m: Message)
    ensures m.mtype == ToU16(mtype)
  {
    Message(ToU16(mtype), 0, 0, 0, 0)
  }
}
