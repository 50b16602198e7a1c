/**
 * The serial port of `UARTComm` as a value: whether it is open, every byte written to it
 * so far, and the input that has arrived but not yet been read. Each operation maps a port
 * to the port after it, together with what the Python method returns.
 */
module Serial {
  import opened Options
  import opened Bytes

  datatype Port = Port(isOpen: bool, written: seq<byte>, pending: seq<byte>)

  /** The port after an operation, and the operation's return value. */
  datatype Step<T> = Step(port: Port, value: T)

  /** `UARTComm.send_byte`: writes one byte when the port is open; reports whether it did. */
  function SendByte(p: Port, b: byte): (r: Step<bool>)
    ensures r.value == p.isOpen
    ensures r.port.isOpen == p.isOpen && r.port.pending == p.pending
    ensures p.isOpen ==> r.port.written == p.written + [b]
    ensures !p.isOpen ==> r.port == p
  {
    if p.isOpen then Step(p.(written := p.written + [b]), true) else Step(p, false)
  }

  /** `UARTComm.send_bytes`: writes all of `data` when the port is open; reports whether it did. */
  function SendBytes(p: Port, data: seq<byte>): (r: Step<bool>)
    ensures r.value == p.isOpen
    ensures r.port.isOpen == p.isOpen && r.port.pending == p.pending
    ensures p.isOpen ==> r.port.written == p.written + data
    ensures !p.isOpen ==> r.port == p
  {
    if p.isOpen then Step(p.(written := p.written + data), true) else Step(p, false)
  }

  /**
   * `UARTComm.receive_byte`: a read of one byte. It yields the oldest pending byte, or
   * `None` when none arrived before the timeout or the port is closed.
   */
  function ReceiveByte(p: Port): (r: Step<Option<byte>>)
    ensures r.value.Some? <==> p.isOpen && |p.pending| > 0
    ensures r.value.Some? ==> [r.value.value] + r.port.pending == p.pending
    ensures r.value.None? ==> r.port == p
    ensures r.port.isOpen == p.isOpen && r.port.written == p.written
  {
    if p.isOpen && |p.pending| > 0 then Step(p.(pending := p.pending[1..]), Some(p.pending[0]))
    else Step(p, None)
  }

  /**
   * `UARTComm.receive_bytes(n)`: a read of up to `n` bytes, which consumes what it reads.
   * Only a read of exactly `n` bytes is returned; a short read (the timeout) yields `None`,
   * and so does a closed port, which reads nothing.
   */
  function ReceiveBytes(p: Port, n: nat): (r: Step<Option<seq<byte>>>)
    ensures r.value.Some? <==> p.isOpen && |p.pending| >= n
    ensures r.value.Some? ==> |r.value.value| == n && r.value.value + r.port.pending == p.pending
    ensures p.isOpen && |p.pending| < n ==> r.port == p.(pending := [])
    ensures !p.isOpen ==> r == Step(p, None)
    ensures r.port.isOpen == p.isOpen && r.port.written == p.written
  {
    if !p.isOpen then Step(p, None)
    else
      var got := if |p.pending| < n then p.pending else p.pending[..n];
      var rest := p.pending[|got|..];
      if |got| == n then Step(p.(pending := rest), Some(got))
      else Step(p.(pending := rest), None)
  }

  /**
   * `UARTComm.flush`: on an open port, discards the input that arrived but was not read.
   * Written bytes stay written.
   */
  function Flush(p: Port): (r: Port)
    ensures r.isOpen == p.isOpen && r.written == p.written
    ensures r.pending == (if p.isOpen then [] else p.pending)
  {
    if p.isOpen then p.(pending := []) else p
  }

  /** `UARTComm.disconnect`: closes an open port; a closed one is left as it is. */
  function Disconnect(p: Port): (r: Port)
    ensures !r.isOpen
    ensures r.written == p.written && r.pending == p.pending
  {
    if p.isOpen then p.(isOpen := false) else p
  }

  /** Bytes the board sends, appended to the pending input in the order they arrive. */
  function Deliver(p: Port, arrived: seq<byte>): (r: Port)
    ensures r.isOpen == p.isOpen && r.written == p.written
    ensures |r.pending| == |p.pending| + |arrived|
    ensures r.pending[..|p.pending|] == p.pending && r.pending[|p.pending|..] == arrived
  {
    p.(pending := p.pending + arrived)
  }

  /** Writing one byte is writing the one-byte sequence. */
  lemma SendByteIsSendBytes(p: Port, b: byte)
    ensures SendByte(p, b) == SendBytes(p, [b])
  {
  }

  /** Two writes in a row put the same bytes on the line as one write of both. */
  lemma SendBytesConcat(p: Port, a: seq<byte>, b: seq<byte>)
    ensures SendBytes(SendBytes(p, a).port, b).port == SendBytes(p, a + b).port
  {
  }

  /** Closing twice is closing once, and a port that was never opened closes without change. */
  lemma DisconnectIdempotent(p: Port)
    ensures Disconnect(Disconnect(p)) == Disconnect(p)
    ensures !p.isOpen ==> Disconnect(p) == p
  {
  }

  /** After a disconnect nothing can be written or read. */
  lemma ClosedPortIsInert(p: Port, data: seq<byte>, n: nat)
    ensures SendBytes(Disconnect(p), data) == Step(Disconnect(p), false)
    ensures ReceiveBytes(Disconnect(p), n) == Step(Disconnect(p), None)
    ensures ReceiveByte(Disconnect(p)) == Step(Disconnect(p), None)
  {
  }

  /**
   * A flush drops input that arrived earlier: what a later read sees is only what arrived
   * after the flush.
   */
  lemma FlushDropsStaleInput(p: Port, arrived: seq<byte>, n: nat)
    requires p.isOpen
    ensures ReceiveBytes(Deliver(Flush(p), arrived), n).value
         == (if |arrived| >= n then Some(arrived[..n]) else None)
  {
    assert Deliver(Flush(p), arrived).pending == arrived;
  }
}
