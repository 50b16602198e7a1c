# DES UART driver: a Dafny model

The DES IP on the Altera DE2 board is driven from a PC over a serial line by
`UARTComm` (`DES_IP/Protocols/uart_comm.py`), and exercised by an interactive test tool
(`DES_IP/Protocols/des_uart_test.py`). This project models the part of both that is more
than plumbing, as pure Dafny:

- the serial port, modelled as an immutable value (`Serial.Port`). It has an open flag, the
  log of every byte written, and the input that has arrived but not yet been read. Each
  `UARTComm` method that returns something becomes a function from a port to the next
  port plus the Python return value (`Serial.Step`); `flush` and `disconnect`, which
  return nothing, map a port to the next port;
- the request frame of `send_des_data`. It is 17 bytes: a mode byte (0x01 for encrypt,
  0x02 for anything else), then the 8-byte block, then the 8-byte key;
- the 8-byte reply of `receive_des_result`, returned as upper-case hex;
- `des_encrypt` and `des_decrypt`, which combine the two;
- Python's `bytes.fromhex` and `bytes.hex().upper()` (module `Hex`). `fromhex` skips
  whitespace in front of each digit pair, and the model keeps this;
- the test tool's keyboard checks (module `TestTool`): the normalisation and acceptance loop
  of `get_hex_input`, the length and decode checks of `send_custom_data`, and the baud rate
  default of `change_settings`. The Python string methods these use (`strip`, `upper`,
  `replace`) are in module `PyStr`.

The board's reply is a parameter, `reply`, of `Transact`, `DesEncrypt` and `DesDecrypt`. It
arrives after the request frame is written, because `send_des_data` flushes stale input
before writing. A serial timeout appears only as a reply shorter than 8 bytes.

`send_des_data` is modelled twice. `SendDesDataAsWritten` does what the code does, and
`des_encrypt`/`des_decrypt` (`Transact`, `DesEncrypt`, `DesDecrypt`) are built on it.
`SendDesData` is the check the code evidently intends (see Findings); the two agree on
every request of 16 hex digits (`AsWrittenAgreesOnDigits`).

Files:

- `options.dfy`: `Option`.
- `bytes.dfy`: the byte type.
- `pystr.dfy`: `str.strip`, `str.upper` and `str.replace`.
- `hex.dfy`: `bytes.fromhex` and `bytes.hex`.
- `serial.dfy`: the port and the `UARTComm` primitives.
- `des_protocol.dfy`: the DES exchange.
- `test_tool.dfy`: the test tool's input checks.

## Model

| member | source | states |
|---|---|---|
| Serial.SendByte | DES_IP/Protocols/uart_comm.py:48-53 | Returns True exactly when the port is open. An open port appends the one byte to the written log. A closed port is left unchanged. |
| Serial.SendBytes | DES_IP/Protocols/uart_comm.py:55-67 | Returns True exactly when the port is open. An open port appends all of the data, in order. A closed port is left unchanged. Pending input is never touched. |
| Serial.ReceiveByte | DES_IP/Protocols/uart_comm.py:69-75 | Yields the oldest pending byte exactly when the port is open and input is pending, and removes it from the input. Otherwise yields None and leaves the port unchanged. |
| Serial.ReceiveBytes | DES_IP/Protocols/uart_comm.py:77-93 | Yields data exactly when the port is open and at least n bytes are pending. The data is exactly the first n pending bytes. A short read yields None but consumes what arrived. A closed port yields None and is unchanged. |
| Serial.Flush | DES_IP/Protocols/uart_comm.py:95-99 | An open port loses its pending input. Written bytes and the open flag are kept. A closed port is untouched. |
| Serial.Disconnect | DES_IP/Protocols/uart_comm.py:42-46 | The port ends up closed. The written log and pending input are unchanged. |
| Serial.Deliver | DES_IP/Protocols/uart_comm.py:87-88 | The bytes the board sends are appended to the pending input, after what was already there and in the order they arrive, for `read` to take. Nothing is written. |
| Serial.SendByteIsSendBytes | DES_IP/Protocols/uart_comm.py:48-67 | `send_byte(b)` and `send_bytes([b])` have the same effect and the same result. |
| Serial.SendBytesConcat | DES_IP/Protocols/uart_comm.py:55-67 | Two writes in a row leave the port as one write of both pieces would. |
| Serial.DisconnectIdempotent | DES_IP/Protocols/uart_comm.py:42-46 | Disconnecting twice is disconnecting once. A port that is not open is left as it is. |
| Serial.ClosedPortIsInert | DES_IP/Protocols/uart_comm.py:42-93 | After a disconnect, writes return False and reads return None, and neither changes the port. |
| Serial.FlushDropsStaleInput | DES_IP/Protocols/uart_comm.py:95-99 | After a flush, a read of n bytes sees only bytes that arrived after the flush. |
| Hex.FromHex | DES_IP/Protocols/uart_comm.py:132-133 | A successful decode yields at most half as many bytes as there are characters. Exactly half is possible only when every character is a hex digit. |
| Hex.FromHexRejects | DES_IP/Protocols/uart_comm.py:132-133 | A character anywhere in the string that is neither a hex digit nor ASCII whitespace makes `bytes.fromhex` fail. |
| Hex.FromHexOfDigits | DES_IP/Protocols/uart_comm.py:132-133 | An even-length string of hex digits, in either case, decodes to its digit pairs, high nibble first. |
| Hex.FromHexFullLength | DES_IP/Protocols/uart_comm.py:123-133 | A 2n-character string decodes to n bytes if and only if it is all hex digits. |
| Hex.FromHexConcat | DES_IP/Protocols/uart_comm.py:132 | A prefix of whole digit pairs decodes to its bytes, followed by whatever the rest decodes to. The whole decode fails exactly when the rest fails. |
| Hex.FromHexToHex | DES_IP/Protocols/uart_comm.py:177 | Round trip: decoding the hex of any bytes gives back those bytes. |
| Hex.ToHex | DES_IP/Protocols/uart_comm.py:177 | `bytes.hex()` writes exactly two characters per byte. |
| Hex.ToHexAt | DES_IP/Protocols/uart_comm.py:177 | Characters 2i and 2i+1 of `bytes.hex()` are the lower-case digits of the high and low nibble of byte i. |
| Hex.ToHexDigits | DES_IP/Protocols/uart_comm.py:177 | `bytes.hex()` writes only hex digits, with no upper-case letter, two per byte. |
| Hex.UpperKeepsHexBytes | DES_IP/Protocols/des_uart_test.py:140-148 | Upper-casing hex text yields upper-case digits and spells the same bytes. |
| Hex.UpperHexRoundTrip | DES_IP/Protocols/uart_comm.py:177 | `b.hex().upper()` is twice as long as `b`, uses only `0-9A-F`, and decodes back to `b`. |
| Hex.UpperHexOfDecoded | DES_IP/Protocols/uart_comm.py:177 | The other direction: an even-length upper-case hex string is the upper-case hex of the bytes it spells. |
| PyStr.Strip | DES_IP/Protocols/des_uart_test.py:27 | The result is never longer than the input, and neither starts nor ends with whitespace (Python's `str.isspace` set). |
| PyStr.StripSlice | DES_IP/Protocols/des_uart_test.py:27 | The result is a contiguous piece `s[i..j]` of the input, and everything before `i` and from `j` on is whitespace: the input minus its leading and trailing whitespace. |
| PyStr.StripEmpty | DES_IP/Protocols/des_uart_test.py:174 | The stripped line is empty if and only if the line is all whitespace. |
| PyStr.StripIdempotent | DES_IP/Protocols/des_uart_test.py:27 | Stripping twice is stripping once. |
| PyStr.Upper | DES_IP/Protocols/des_uart_test.py:27 | `str.upper` keeps the length, leaves no lower-case ASCII letter, replaces each lower-case letter by its capital, and keeps every other character. |
| PyStr.UpperIdempotent | DES_IP/Protocols/des_uart_test.py:27 | Upper-casing twice is upper-casing once. |
| PyStr.ReplaceAll | DES_IP/Protocols/des_uart_test.py:29 | `str.replace` with a replacement no longer than the pattern (here, a deletion) never lengthens the string. |
| PyStr.DeleteKeepsCharacters | DES_IP/Protocols/des_uart_test.py:29 | A deletion keeps only characters of the original string. |
| PyStr.ReplaceAllAbsent | DES_IP/Protocols/des_uart_test.py:29 | A string that lacks some character of the pattern has nothing replaced. |
| PyStr.RemoveCharSpec | DES_IP/Protocols/des_uart_test.py:29 | Deleting every occurrence of a character leaves none of it. Every other character is kept with its multiplicity. |
| PyStr.RemoveCharConcat | DES_IP/Protocols/des_uart_test.py:29 | Deleting a single character works piece by piece. |
| DesProtocol.ModeByte | DES_IP/Protocols/uart_comm.py:139 | The mode byte is 0x01 if and only if the mode is exactly "encrypt". It is 0x02 for every other string. |
| DesProtocol.FrameRoundTrip | DES_IP/Protocols/uart_comm.py:138-150 | A frame of an 8-byte block and an 8-byte key is 17 bytes. The board reads it back as the same mode, block and key. |
| DesProtocol.ParseFrameExact | DES_IP/Protocols/uart_comm.py:138-150 | Every frame the board accepts is exactly the frame of the request it reads. |
| DesProtocol.WriteFrame | DES_IP/Protocols/uart_comm.py:136-151 | On an open port, the flush clears pending input. Then the mode byte, the block and the key are appended to the written log, in that order. |
| DesProtocol.SendDesDataAsWritten | DES_IP/Protocols/uart_comm.py:101-157 | As the code is written: succeeds exactly when the port is open, both strings are 16 characters, and `bytes.fromhex` reads both. On any failure the port is untouched, so there is no flush. On success the port stays open, its stale input is flushed, and the frame of the decoded fields is appended. |
| DesProtocol.SendDesData | DES_IP/Protocols/uart_comm.py:101-157 | Corrected check: succeeds if and only if the port is open and both strings are 16 hex digits. On failure the port is untouched. On success, exactly the 17 bytes of the frame are appended and stale input is cleared. |
| DesProtocol.AsWrittenAgreesOnDigits | DES_IP/Protocols/uart_comm.py:123-133 | On hex-digit input, the code as written and the corrected check behave identically. |
| DesProtocol.ValidIsSendable | DES_IP/Protocols/uart_comm.py:118-133 | A request of an open port and two 16-digit hex strings passes every check of the send as written, and `bytes.fromhex` yields exactly the digits' bytes. |
| DesProtocol.ShortBlockDecodes | DES_IP/Protocols/uart_comm.py:132 | A 16-character block made of 14 hex digits and two spaces, such as `0123456789ABCD  `, is accepted by `bytes.fromhex` as only 7 bytes. |
| DesProtocol.ShortFrameAccepted | DES_IP/Protocols/uart_comm.py:123-153 | As written, such a block with any valid key is accepted on an open port: True is returned and a 16-byte frame is written, which the board cannot read as a request. The corrected check refuses the same call. |
| DesProtocol.ShortBlockIsRead | DES_IP/Protocols/uart_comm.py:195-197 | Through `des_encrypt`, such a block with a valid key and an 8-byte reply writes a 16-byte frame and still returns the reply's upper-case hex, as if the request had been valid. |
| DesProtocol.NonHexFieldRefused | DES_IP/Protocols/uart_comm.py:132-157 | A character that is neither a hex digit nor ASCII whitespace, in either field, makes the send return False with the port untouched. `des_encrypt` and `des_decrypt` then return None with the port untouched. |
| DesProtocol.ReceiveDesResult | DES_IP/Protocols/uart_comm.py:159-182 | Yields a result exactly when the port is open and 8 bytes are pending. The result is 16 characters over `0-9A-F`, decodes to exactly those 8 bytes, and they are consumed. A short read yields None and consumes the input. A closed port is untouched. |
| DesProtocol.Transact | DES_IP/Protocols/uart_comm.py:184-214 | Built on the send as written. A request that send refuses returns None and leaves the port unchanged, so no input is read. Otherwise the frame of the decoded fields is written; for 16 hex digits that is exactly their 17-byte frame. A result comes back exactly when the send succeeded and the reply holds 8 bytes, and it is 16 upper-case hex characters that decode to the reply's first 8 bytes. |
| DesProtocol.TransactSendsRequest | DES_IP/Protocols/uart_comm.py:136-153 | Whatever the reply, the bytes a valid request adds to the line are read by the board as that mode, block and key. |
| DesProtocol.DesEncrypt | DES_IP/Protocols/uart_comm.py:184-198 | A request `send_des_data` as written refuses returns None and changes nothing. Otherwise an encrypt frame of the decoded fields is written; for two 16-digit hex strings it is 17 bytes that the board reads as an encrypt request for that block and key. A result comes back exactly when the send succeeded and 8 bytes arrive, and it decodes to them. |
| DesProtocol.DesDecrypt | DES_IP/Protocols/uart_comm.py:200-214 | As for `DesEncrypt`, with a decrypt frame and a decrypt request. |
| DesProtocol.TransactIgnoresStaleInput | DES_IP/Protocols/uart_comm.py:136 | Because of the flush, the result does not depend on input left over from an earlier exchange. |
| DesProtocol.ResultIsCanonicalHex | DES_IP/Protocols/uart_comm.py:174-179 | The result is the upper-case hex of the 8 reply bytes, `bytes.hex().upper()`. |
| DesProtocol.ReferenceBlockBytes | DES_IP/Protocols/uart_comm.py:254 | The self-test block `0123456789ABCDEF` is hex and decodes to 01 23 45 67 89 AB CD EF. |
| DesProtocol.ReferenceKeyBytes | DES_IP/Protocols/uart_comm.py:255 | The self-test key `133457799BBCDFF1` is hex and decodes to 13 34 57 79 9B BC DF F1. |
| DesProtocol.ReferenceFrame | DES_IP/Protocols/uart_comm.py:254-255 | The encrypt frame for the self-test block and key is 01 01 23 45 67 89 AB CD EF 13 34 57 79 9B BC DF F1. |
| TestTool.AcceptHexInput | DES_IP/Protocols/des_uart_test.py:27-34 | An accepted value has exactly `length` characters, all from `0123456789ABCDEF`. A line is rejected exactly when its normalised form has a different length or a non-hex character. |
| TestTool.Normalise | DES_IP/Protocols/des_uart_test.py:27-29 | The normalised line is never longer than the line typed, and holds no space and no lower-case ASCII letter. |
| TestTool.GetHexInput | DES_IP/Protocols/des_uart_test.py:24-34 | Returns the normalised form of the first acceptable line, and every earlier line was rejected. Input runs out exactly when no line is acceptable. |
| TestTool.NormaliseFixesUpperHex | DES_IP/Protocols/des_uart_test.py:27-29 | Normalising an upper-case hex string leaves it unchanged. |
| TestTool.AcceptIdempotent | DES_IP/Protocols/des_uart_test.py:27-32 | An accepted value, typed again, is accepted unchanged. |
| TestTool.AcceptsEveryUpperHex | DES_IP/Protocols/des_uart_test.py:31-32 | Every upper-case hex string of the asked length is accepted as it is. |
| TestTool.GroupedEntryAccepted | DES_IP/Protocols/des_uart_test.py:27-32 | An entry of the form `0x` followed by four space-separated groups of hex digits, in either case, is accepted as the upper case of the digits. |
| TestTool.NormaliseExample | DES_IP/Protocols/des_uart_test.py:27-32 | `0x0123 4567 89ab cdef` is accepted as `0123456789ABCDEF`. |
| TestTool.NormaliseNotIdempotent | DES_IP/Protocols/des_uart_test.py:29 | Deleting `0X` left to right can create a new `0X`: `00XX` normalises to `0X`, and `0X` normalises to the empty string. |
| TestTool.SendCustomData | DES_IP/Protocols/des_uart_test.py:140-150 | An odd-length normalised line is refused, and only such a line, with nothing sent. A line that `bytes.fromhex` cannot read is refused and nothing is sent. An even-length line is sent exactly when `bytes.fromhex` reads it, whitespace inside included, and then the decoded bytes go to `send_bytes`. The count reported is the number of decoded bytes. An even-length all-hex line sends exactly len/2 bytes, its digit pairs. |
| TestTool.ChangeSettings | DES_IP/Protocols/des_uart_test.py:171-183 | The port is the stripped line. A blank entry gives 115200, whatever `int()` says. A non-blank entry that `int()` read gives that number, and an unreadable entry gives 115200. |
| TestTool.BlankBaudIsDefault | DES_IP/Protocols/des_uart_test.py:174-175 | An empty or whitespace-only baud entry gives 115200, whatever `int()` would say. |
| TestTool.ReadableBaudIsUsed | DES_IP/Protocols/des_uart_test.py:176-178 | A non-blank entry that `int()` reads is used as the baud rate. |

## Left out

- `UARTComm.__init__`, `connect` and the construction of `serial.Serial`: these are calls
  into pySerial. The port is the `Serial.Port` value, and the model starts from any port,
  open or closed.
- All `time.sleep` calls and the length of the read timeout. A timeout is a reply with
  fewer bytes than were asked for.
- `print` and `input`. They appear only through their effect: the lines typed are
  parameters, and messages are not modelled.
- `list_serial_ports` (hardware enumeration), `print_menu`, the menus and `main` of both
  files, and the `encrypt_test`, `decrypt_test` and `full_test` drivers. The last three only
  call `get_hex_input` and `des_encrypt`/`des_decrypt` and print.
- The DES algorithm. It runs on the board, so the self-test's decrypt-after-encrypt check
  is a property of the device, not of this driver.
- Python's `int()` grammar for baud rates: `ChangeSettings` takes what `int()` returned as
  a parameter.
- `PyStr.Upper`: upper-cases only the ASCII letters. Python's full Unicode case mapping can
  change length (`'ß'.upper()` is `SS`), and that is not modelled. It also changes what
  `get_hex_input` accepts: Python upper-cases `'ﬀ'` to `FF`, so `0123456789ABCDﬀ` is
  accepted there as `0123456789ABCDFF`, while `AcceptHexInput` rejects it.
- `Serial.Flush`: models `reset_input_buffer` as dropping pending input. `reset_output_buffer`
  can only discard bytes not yet on the wire, and the written log counts bytes as sent when
  written.
- `send_byte`'s `ValueError` for an integer outside 0..255: the byte type rules that input out.
- The response half of `send_custom_data` (des_uart_test.py:152-160): it is
  `receive_bytes`, which is modelled for a non-negative count typed at the keyboard.
  A negative count, which `int()` accepts and pySerial's `read` answers with no bytes so
  that `receive_bytes` returns None, cannot be expressed because `Serial.ReceiveBytes`
  takes a `nat`.
- `TestTool.GetHexInput`: `Exhausted` stands for the end of input. There, Python's `input()`
  raises `EOFError`, and `get_hex_input` never returns a value.
- Exceptions from pySerial: a `SerialException` or `SerialTimeoutException` raised by
  `write`, `read` or `reset_input_buffer`/`reset_output_buffer` is not modelled. In the
  model every write and reset on an open port succeeds. In the source such an exception
  propagates out of `send_des_data`, which catches only `ValueError` (uart_comm.py:155),
  and through `des_encrypt`/`des_decrypt` up to the caller.

## Findings

| source | as written | input that shows it | evidently intended | confidence | as-written member | corrected member |
|---|---|---|---|---|---|---|
| DES_IP/Protocols/uart_comm.py:123-133 | Only the string lengths are checked (16 characters each), then `bytes.fromhex` decodes, and it skips ASCII whitespace | block `0123456789ABCD  ` (two trailing spaces), key `133457799BBCDFF1`, mode `encrypt`, open port | each field must decode to exactly 8 bytes, so only 16 hex digits are sent and the frame is always 17 bytes | not executed | DesProtocol.ShortFrameAccepted | DesProtocol.SendDesData |
