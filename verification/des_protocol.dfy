/**
 * The DES request/response exchange of `UARTComm`: a 17-byte request frame (a mode byte,
 * the 8-byte block, the 8-byte key) and an 8-byte reply read back as upper-case hex.
 */
module DesProtocol {
  import opened Options
  import opened Bytes
  import opened PyStr
  import opened Hex
  import opened Serial

  /** Hex characters in a block or key. */
  const HEX_LEN: nat := 16
  /** Bytes in a block, a key, and the reply. */
  const BLOCK_LEN: nat := 8
  /** Bytes in a request frame. */
  const FRAME_LEN: nat := 1 + 2 * BLOCK_LEN

  const MODE_ENCRYPT: byte := 0x01
  const MODE_DECRYPT: byte := 0x02

  /** The mode byte: encrypt only for the exact string "encrypt", decrypt for any other. */
  function ModeByte(mode: string): (b: byte)
    ensures b == MODE_ENCRYPT <==> mode == "encrypt"
    ensures b == MODE_DECRYPT <==> mode != "encrypt"
  {
    if mode == "encrypt" then MODE_ENCRYPT else MODE_DECRYPT
  }

  /** The request frame, in the order it goes on the line. */
  function Frame(mode: byte, block: seq<byte>, key: seq<byte>): seq<byte> {
    [mode] + block + key
  }

  /** What the board takes a request frame to ask for. */
  datatype Request = Request(encrypt: bool, block: seq<byte>, key: seq<byte>)

  /** The board's reading of a frame: a known mode byte followed by two 8-byte fields. */
  function ParseFrame(f: seq<byte>): Option<Request> {
    if |f| != FRAME_LEN || (f[0] != MODE_ENCRYPT && f[0] != MODE_DECRYPT) then None
    else Some(Request(f[0] == MODE_ENCRYPT, f[1..1 + BLOCK_LEN], f[1 + BLOCK_LEN..]))
  }

  /** A frame of an 8-byte block and key is 17 bytes and reads back as the request sent. */
  lemma FrameRoundTrip(mode: string, block: seq<byte>, key: seq<byte>)
    requires |block| == BLOCK_LEN && |key| == BLOCK_LEN
    ensures |Frame(ModeByte(mode), block, key)| == FRAME_LEN
    ensures ParseFrame(Frame(ModeByte(mode), block, key))
         == Some(Request(mode == "encrypt", block, key))
  {
    var f := Frame(ModeByte(mode), block, key);
    assert f[1..1 + BLOCK_LEN] == block;
    assert f[1 + BLOCK_LEN..] == key;
  }

  /** Every frame the board accepts is the frame of the request it reads. */
  lemma ParseFrameExact(f: seq<byte>, r: Request)
    requires ParseFrame(f) == Some(r)
    ensures |r.block| == BLOCK_LEN && |r.key| == BLOCK_LEN
    ensures f == Frame(if r.encrypt then MODE_ENCRYPT else MODE_DECRYPT, r.block, r.key)
  {
  }

  /**
   * The sending half of `send_des_data`, once both strings are decoded: flush, then the
   * mode byte, the block and the key, each written in turn.
   */
  function WriteFrame(p: Port, mode: string, block: seq<byte>, key: seq<byte>): (r: Step<bool>)
    requires p.isOpen
    ensures r.value && r.port.isOpen && r.port.pending == []
    ensures r.port.written == p.written + Frame(ModeByte(mode), block, key)
  {
    var flushed := Flush(p);
    var sentMode := SendByte(flushed, ModeByte(mode)).port;
    var sentBlock := SendBytes(sentMode, block).port;
    var sentKey := SendBytes(sentBlock, key).port;
    assert sentKey.written == p.written + Frame(ModeByte(mode), block, key);
    Step(sentKey, true)
  }

  /**
   * What `send_des_data` as written checks before it sends: an open port, two strings of
   * 16 characters, and both strings readable by `bytes.fromhex`.
   */
  predicate Sendable(p: Port, dataHex: string, keyHex: string) {
    && p.isOpen && |dataHex| == HEX_LEN && |keyHex| == HEX_LEN
    && FromHex(dataHex).Some? && FromHex(keyHex).Some?
  }

  /**
   * `send_des_data` as written: it checks that the port is open and that both strings
   * are 16 characters long, decodes them with `bytes.fromhex`, and only then sends. Any
   * failure returns False before the flush, so the port is untouched. On success the
   * stale input is flushed and the frame of the decoded fields is written.
   */
  function SendDesDataAsWritten(p: Port, dataHex: string, keyHex: string, mode: string): (r: Step<bool>)
    ensures r.value <==> Sendable(p, dataHex, keyHex)
    ensures !r.value ==> r.port == p
    ensures r.value ==> r.port == p.(written := p.written
                                       + Frame(ModeByte(mode), FromHex(dataHex).value, FromHex(keyHex).value),
                                     pending := [])
  {
    if !p.isOpen then Step(p, false)
    else if |dataHex| != HEX_LEN then Step(p, false)
    else if |keyHex| != HEX_LEN then Step(p, false)
    else match (FromHex(dataHex), FromHex(keyHex))
      case (Some(block), Some(key)) =>
        WriteFrame(p, mode, block, key)
      case _ => Step(p, false)
  }

  /**
   * `send_des_data` with the check it evidently intends: the two strings must decode to
   * exactly 8 bytes each. For a 16-character string this is the same as being all hex
   * digits, so the call succeeds exactly for an open port and two 16-digit hex strings,
   * and then writes exactly the 17-byte frame: mode byte, 8 block bytes, 8 key bytes.
   */
  function SendDesData(p: Port, dataHex: string, keyHex: string, mode: string): (r: Step<bool>)
    ensures r.value <==> p.isOpen && |dataHex| == HEX_LEN && |keyHex| == HEX_LEN
                         && AllHex(dataHex) && AllHex(keyHex)
    ensures !r.value ==> r.port == p
    ensures r.value ==> r.port == p.(written := p.written
                                       + Frame(ModeByte(mode), HexBytes(dataHex), HexBytes(keyHex)),
                                     pending := [])
    ensures r.value ==> |r.port.written| == |p.written| + FRAME_LEN
  {
    if !p.isOpen then Step(p, false)
    else if |dataHex| != HEX_LEN then Step(p, false)
    else if |keyHex| != HEX_LEN then Step(p, false)
    else
      FromHexFullLength(dataHex, BLOCK_LEN);
      FromHexFullLength(keyHex, BLOCK_LEN);
      match (FromHex(dataHex), FromHex(keyHex))
      case (Some(block), Some(key)) =>
        if |block| != BLOCK_LEN || |key| != BLOCK_LEN then Step(p, false)
        else
          WriteFrame(p, mode, block, key)
      case _ => Step(p, false)
  }

  /** On hex-digit input the code as written and the corrected check agree. */
  lemma AsWrittenAgreesOnDigits(p: Port, dataHex: string, keyHex: string, mode: string)
    requires AllHex(dataHex) && AllHex(keyHex)
    ensures SendDesDataAsWritten(p, dataHex, keyHex, mode) == SendDesData(p, dataHex, keyHex, mode)
  {
    if p.isOpen && |dataHex| == HEX_LEN && |keyHex| == HEX_LEN {
      FromHexFullLength(dataHex, BLOCK_LEN);
      FromHexFullLength(keyHex, BLOCK_LEN);
    }
  }

  /**
   * A 16-character block of 14 hex digits and two spaces, `0123456789ABCD  ` say, decodes
   * to only 7 bytes: `bytes.fromhex` skips the spaces.
   */
  lemma ShortBlockDecodes(digits: string)
    requires |digits| == HEX_LEN - 2 && AllHex(digits)
    ensures |digits + "  "| == HEX_LEN
    ensures FromHex(digits + "  ") == Some(HexBytes(digits))
    ensures |HexBytes(digits)| == BLOCK_LEN - 1
  {
    var spaces := "  ";
    assert FromHex(spaces) == Some([]) by {
      assert spaces[1..] == " " && spaces[1..][1..] == "";
    }
    FromHexConcat(digits, spaces);
    assert HexBytes(digits) + [] == HexBytes(digits);
  }

  /**
   * The code as written lets such a block through: the length check passes,
   * `bytes.fromhex` yields 7 bytes, and a 16-byte frame, which the board cannot read as a
   * request, is written while the call reports success. The corrected check refuses the
   * same call.
   */
  lemma ShortFrameAccepted(p: Port, digits: string, keyHex: string, mode: string)
    requires p.isOpen && |digits| == HEX_LEN - 2 && AllHex(digits)
    requires |keyHex| == HEX_LEN && AllHex(keyHex)
    ensures var r := SendDesDataAsWritten(p, digits + "  ", keyHex, mode);
            && r.value
            && |r.port.written| == |p.written| + FRAME_LEN - 1
            && ParseFrame(r.port.written[|p.written|..]).None?
    ensures !SendDesData(p, digits + "  ", keyHex, mode).value
  {
    ShortBlockDecodes(digits);
    FromHexFullLength(keyHex, BLOCK_LEN);
    assert (digits + "  ")[HEX_LEN - 2] == ' ';
  }

  /**
   * `receive_des_result`: on an open port, reads 8 bytes and returns their upper-case hex,
   * a 16-character string over `0123456789ABCDEF` that decodes back to the bytes read.
   * A closed port or a short read yields `None`; the short read still consumes what came.
   */
  function ReceiveDesResult(p: Port): (r: Step<Option<string>>)
    ensures r.value.Some? <==> p.isOpen && |p.pending| >= BLOCK_LEN
    ensures r.value.Some? ==> && |r.value.value| == HEX_LEN
                              && AllUpperHex(r.value.value)
                              && FromHex(r.value.value) == Some(p.pending[..BLOCK_LEN])
                              && r.port.pending == p.pending[BLOCK_LEN..]
    ensures p.isOpen && |p.pending| < BLOCK_LEN ==> r.port.pending == []
    ensures !p.isOpen ==> r.port == p
    ensures r.port.isOpen == p.isOpen && r.port.written == p.written
  {
    if !p.isOpen then Step(p, None)
    else
      var got := ReceiveBytes(p, BLOCK_LEN);
      match got.value
      case Some(block) =>
        UpperHexRoundTrip(block);
        assert block == p.pending[..BLOCK_LEN];
        Step(got.port, Some(Upper(ToHex(block))))
      case None => Step(got.port, None)
  }

  /** The request the corrected check accepts: an open port and two 16-digit hex strings. */
  predicate ValidRequest(p: Port, dataHex: string, keyHex: string) {
    p.isOpen && |dataHex| == HEX_LEN && |keyHex| == HEX_LEN && AllHex(dataHex) && AllHex(keyHex)
  }

  /** A request the corrected check accepts is sent as written too, with the digits' bytes. */
  lemma ValidIsSendable(p: Port, dataHex: string, keyHex: string)
    ensures ValidRequest(p, dataHex, keyHex) ==>
              && Sendable(p, dataHex, keyHex)
              && FromHex(dataHex) == Some(HexBytes(dataHex))
              && FromHex(keyHex) == Some(HexBytes(keyHex))
  {
    if ValidRequest(p, dataHex, keyHex) {
      FromHexFullLength(dataHex, BLOCK_LEN);
      FromHexFullLength(keyHex, BLOCK_LEN);
    }
  }

  /**
   * `des_encrypt` and `des_decrypt` with the mode as a parameter: send the request with
   * `send_des_data` as written, and only if that succeeded let the board's `reply` arrive
   * and read the result. A failed send returns `None` and changes nothing, so no input is
   * consumed. A valid request puts exactly its 17-byte frame on the line.
   */
  function Transact(p: Port, dataHex: string, keyHex: string, mode: string, reply: seq<byte>)
    : (r: Step<Option<string>>)
    ensures !Sendable(p, dataHex, keyHex) ==> r == Step(p, None)
    ensures Sendable(p, dataHex, keyHex) ==>
              && r.port.isOpen
              && r.port.written == p.written
                                   + Frame(ModeByte(mode), FromHex(dataHex).value, FromHex(keyHex).value)
    ensures ValidRequest(p, dataHex, keyHex) ==>
              r.port.written == p.written + Frame(ModeByte(mode), HexBytes(dataHex), HexBytes(keyHex))
    ensures r.value.Some? <==> Sendable(p, dataHex, keyHex) && |reply| >= BLOCK_LEN
    ensures r.value.Some? ==> && |r.value.value| == HEX_LEN
                              && AllUpperHex(r.value.value)
                              && FromHex(r.value.value) == Some(reply[..BLOCK_LEN])
                              && r.port.pending == reply[BLOCK_LEN..]
    ensures Sendable(p, dataHex, keyHex) && |reply| < BLOCK_LEN ==> r.port.pending == []
  {
    var sent := SendDesDataAsWritten(p, dataHex, keyHex, mode);
    ValidIsSendable(p, dataHex, keyHex);
    if sent.value then
      var arrived := Deliver(sent.port, reply);
      assert arrived.pending == reply;
      ReceiveDesResult(arrived)
    else Step(sent.port, None)
  }

  /**
   * Whatever the reply, the bytes a valid request adds to the line are read by the board as
   * exactly the request made: its mode, the block and the key, decoded from the hex.
   */
  lemma TransactSendsRequest(p: Port, dataHex: string, keyHex: string, mode: string,
                             reply: seq<byte>)
    requires ValidRequest(p, dataHex, keyHex)
    ensures ParseFrame(Transact(p, dataHex, keyHex, mode, reply).port.written[|p.written|..])
         == Some(Request(mode == "encrypt", HexBytes(dataHex), HexBytes(keyHex)))
  {
    var r := Transact(p, dataHex, keyHex, mode, reply);
    FrameRoundTrip(mode, HexBytes(dataHex), HexBytes(keyHex));
    assert r.port.written[|p.written|..] == Frame(ModeByte(mode), HexBytes(dataHex), HexBytes(keyHex));
  }

  /**
   * `des_encrypt`: a request `send_des_data` refuses returns `None` and changes nothing.
   * Otherwise the frame goes out, and the call returns the upper-case hex of the 8 bytes
   * the board replies with. For a valid request the board is sent an encrypt request for
   * exactly the block and key given.
   */
  function DesEncrypt(p: Port, plaintextHex: string, keyHex: string, reply: seq<byte>)
    : (r: Step<Option<string>>)
    ensures !Sendable(p, plaintextHex, keyHex) ==> r == Step(p, None)
    ensures Sendable(p, plaintextHex, keyHex) ==>
              r.port.written == p.written + Frame(MODE_ENCRYPT, FromHex(plaintextHex).value,
                                                  FromHex(keyHex).value)
    ensures ValidRequest(p, plaintextHex, keyHex) ==>
              |r.port.written| == |p.written| + FRAME_LEN &&
              ParseFrame(r.port.written[|p.written|..])
                == Some(Request(true, HexBytes(plaintextHex), HexBytes(keyHex)))
    ensures r.value.Some? <==> Sendable(p, plaintextHex, keyHex) && |reply| >= BLOCK_LEN
    ensures r.value.Some? ==> FromHex(r.value.value) == Some(reply[..BLOCK_LEN])
                              && AllUpperHex(r.value.value)
  {
    if ValidRequest(p, plaintextHex, keyHex) then
      TransactSendsRequest(p, plaintextHex, keyHex, "encrypt", reply);
      Transact(p, plaintextHex, keyHex, "encrypt", reply)
    else Transact(p, plaintextHex, keyHex, "encrypt", reply)
  }

  /**
   * `des_decrypt`: a request `send_des_data` refuses returns `None` and changes nothing.
   * Otherwise the frame goes out, and the call returns the upper-case hex of the 8 bytes
   * the board replies with. For a valid request the board is sent a decrypt request for
   * exactly the block and key given.
   */
  function DesDecrypt(p: Port, ciphertextHex: string, keyHex: string, reply: seq<byte>)
    : (r: Step<Option<string>>)
    ensures !Sendable(p, ciphertextHex, keyHex) ==> r == Step(p, None)
    ensures Sendable(p, ciphertextHex, keyHex) ==>
              r.port.written == p.written + Frame(MODE_DECRYPT, FromHex(ciphertextHex).value,
                                                  FromHex(keyHex).value)
    ensures ValidRequest(p, ciphertextHex, keyHex) ==>
              |r.port.written| == |p.written| + FRAME_LEN &&
              ParseFrame(r.port.written[|p.written|..])
                == Some(Request(false, HexBytes(ciphertextHex), HexBytes(keyHex)))
    ensures r.value.Some? <==> Sendable(p, ciphertextHex, keyHex) && |reply| >= BLOCK_LEN
    ensures r.value.Some? ==> FromHex(r.value.value) == Some(reply[..BLOCK_LEN])
                              && AllUpperHex(r.value.value)
  {
    if ValidRequest(p, ciphertextHex, keyHex) then
      TransactSendsRequest(p, ciphertextHex, keyHex, "decrypt", reply);
      Transact(p, ciphertextHex, keyHex, "decrypt", reply)
    else Transact(p, ciphertextHex, keyHex, "decrypt", reply)
  }

  /**
   * Through `des_encrypt`, a block of 14 hex digits and two spaces still reaches the
   * board: a 16-byte frame goes out, and the 8 bytes that come back are returned as if
   * the request had been valid.
   */
  lemma ShortBlockIsRead(p: Port, digits: string, keyHex: string, reply: seq<byte>)
    requires p.isOpen && |digits| == HEX_LEN - 2 && AllHex(digits)
    requires |keyHex| == HEX_LEN && AllHex(keyHex) && |reply| >= BLOCK_LEN
    ensures var r := DesEncrypt(p, digits + "  ", keyHex, reply);
            && |r.port.written| == |p.written| + FRAME_LEN - 1
            && r.value == Some(Upper(ToHex(reply[..BLOCK_LEN])))
  {
    ShortBlockDecodes(digits);
    FromHexFullLength(keyHex, BLOCK_LEN);
    ResultIsCanonicalHex(p, digits + "  ", keyHex, "encrypt", reply);
  }

  /**
   * A character in either field that is neither a hex digit nor ASCII whitespace makes
   * `bytes.fromhex` raise: the send returns False with nothing written, and `des_encrypt`
   * and `des_decrypt` return None without touching the port.
   */
  lemma NonHexFieldRefused(p: Port, dataHex: string, keyHex: string, mode: string,
                           reply: seq<byte>, k: nat)
    requires || (k < |dataHex| && !IsHexDigit(dataHex[k]) && !IsAsciiSpace(dataHex[k]))
             || (k < |keyHex| && !IsHexDigit(keyHex[k]) && !IsAsciiSpace(keyHex[k]))
    ensures SendDesDataAsWritten(p, dataHex, keyHex, mode) == Step(p, false)
    ensures Transact(p, dataHex, keyHex, mode, reply) == Step(p, None)
    ensures DesEncrypt(p, dataHex, keyHex, reply) == Step(p, None)
    ensures DesDecrypt(p, dataHex, keyHex, reply) == Step(p, None)
  {
    if k < |dataHex| && !IsHexDigit(dataHex[k]) && !IsAsciiSpace(dataHex[k]) {
      FromHexRejects(dataHex, k);
    } else {
      FromHexRejects(keyHex, k);
    }
  }

  /**
   * The flush at the start of each request discards bytes left over from an earlier,
   * timed-out exchange: the result depends only on the reply to this request.
   */
  lemma TransactIgnoresStaleInput(p: Port, stale: seq<byte>, dataHex: string, keyHex: string,
                                  mode: string, reply: seq<byte>)
    ensures Transact(p.(pending := stale), dataHex, keyHex, mode, reply).value
         == Transact(p.(pending := []), dataHex, keyHex, mode, reply).value
  {
    var q := p.(pending := stale);
    var e := p.(pending := []);
    if Sendable(p, dataHex, keyHex) {
      assert SendDesDataAsWritten(q, dataHex, keyHex, mode).port
          == SendDesDataAsWritten(e, dataHex, keyHex, mode).port;
    }
  }

  /**
   * The reply is the upper-case hex of the bytes the board sent: decoding the result and
   * encoding it again gives back the same string.
   */
  lemma ResultIsCanonicalHex(p: Port, dataHex: string, keyHex: string, mode: string,
                             reply: seq<byte>)
    requires Transact(p, dataHex, keyHex, mode, reply).value.Some?
    ensures var h := Transact(p, dataHex, keyHex, mode, reply).value.value;
            Upper(ToHex(reply[..BLOCK_LEN])) == h
  {
    var h := Transact(p, dataHex, keyHex, mode, reply).value.value;
    UpperHexOfDecoded(h);
    FromHexOfDigits(h);
  }

  /** The reference block of the self-test in `uart_comm.py`'s `main`, decoded. */
  lemma ReferenceBlockBytes()
    ensures AllHex("0123456789ABCDEF")
    ensures HexBytes("0123456789ABCDEF") == [0x01, 0x23, 0x45, 0x67, 0x89, 0xAB, 0xCD, 0xEF]
  {
  }

  /** The reference key of the self-test in `uart_comm.py`'s `main`, decoded. */
  lemma ReferenceKeyBytes()
    ensures AllHex("133457799BBCDFF1")
    ensures HexBytes("133457799BBCDFF1") == [0x13, 0x34, 0x57, 0x79, 0x9B, 0xBC, 0xDF, 0xF1]
  {
  }

  /**
   * The frame for the reference block and key of the self-test in `uart_comm.py`'s
   * `main`, in encrypt mode: both are valid input, so by the contract of `SendDesData`
   * these 17 bytes are what an open port receives.
   */
  lemma ReferenceFrame()
    ensures AllHex("0123456789ABCDEF") && AllHex("133457799BBCDFF1")
    ensures Frame(ModeByte("encrypt"), HexBytes("0123456789ABCDEF"), HexBytes("133457799BBCDFF1"))
         == [0x01, 0x01, 0x23, 0x45, 0x67, 0x89, 0xAB, 0xCD, 0xEF,
             0x13, 0x34, 0x57, 0x79, 0x9B, 0xBC, 0xDF, 0xF1]
  {
    ReferenceBlockBytes();
    ReferenceKeyBytes();
  }
}
