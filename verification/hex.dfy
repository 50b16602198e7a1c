/**
 * Hexadecimal text and bytes as Python's `bytes.hex()` and `bytes.fromhex()` treat them:
 * two digits per byte, the high nibble first.
 */
module Hex {
  import opened Options
  import opened PyStr
  import opened Bytes

  /** A digit `bytes.fromhex` accepts, in either case. */
  predicate IsHexDigit(c: char) {
    '0' <= c <= '9' || 'a' <= c <= 'f' || 'A' <= c <= 'F'
  }

  /** A digit of the upper-case alphabet `0123456789ABCDEF`. */
  predicate IsUpperHexDigit(c: char) {
    '0' <= c <= '9' || 'A' <= c <= 'F'
  }

  predicate AllHex(s: string) {
    forall i :: 0 <= i < |s| ==> IsHexDigit(s[i])
  }

  predicate AllUpperHex(s: string) {
    forall i :: 0 <= i < |s| ==> IsUpperHexDigit(s[i])
  }

  lemma AllUpperHexConcat(x: string, y: string)
    requires AllUpperHex(x) && AllUpperHex(y)
    ensures AllUpperHex(x + y)
  {
    forall i | 0 <= i < |x + y| ensures IsUpperHexDigit((x + y)[i]) {
      if i >= |x| {
        assert (x + y)[i] == y[i - |x|];
      }
    }
  }

  /** The ASCII whitespace `bytes.fromhex` skips in front of each digit pair. */
  predicate IsAsciiSpace(c: char) {
    c == ' ' || '\t' <= c <= '\r'
  }

  function DigitValue(c: char): (v: nat)
    requires IsHexDigit(c)
    ensures v < 16
  {
    if '0' <= c <= '9' then c as int - '0' as int
    else if 'a' <= c <= 'f' then c as int - 'a' as int + 10
    else c as int - 'A' as int + 10
  }

  /** The lower-case digit `bytes.hex()` writes for a nibble. */
  function LowerDigit(n: nat): (c: char)
    requires n < 16
    ensures IsHexDigit(c) && DigitValue(c) == n
    ensures '0' <= c <= '9' || 'a' <= c <= 'f'
  {
    if n < 10 then ('0' as int + n) as char else ('a' as int + n - 10) as char
  }

  /** The byte a pair of digits spells, the first digit being the high nibble. */
  function ByteOf(hi: char, lo: char): (b: byte)
    requires IsHexDigit(hi) && IsHexDigit(lo)
    ensures b as int == 16 * DigitValue(hi) + DigitValue(lo)
  {
    (16 * DigitValue(hi) + DigitValue(lo)) as byte
  }

  /** The bytes an all-hex string of even length spells: byte `i` is digits `2i` and `2i + 1`. */
  function HexBytes(s: string): (b: seq<byte>)
    requires AllHex(s) && |s| % 2 == 0
    ensures |b| == |s| / 2
  {
    seq(|s| / 2, i requires 0 <= i < |s| / 2 => ByteOf(s[2 * i], s[2 * i + 1]))
  }

  /**
   * `bytes.fromhex(s)`: ASCII whitespace is skipped in front of each pair of digits; a pair
   * is two hex digits of either case; anything else, a lone trailing digit included, makes
   * the whole call fail (Python raises `ValueError`, here `None`). Every byte consumes two
   * characters, so at most half of `s` comes back, and exactly half only when `s` is all
   * hex digits.
   */
  function FromHex(s: string): (r: Option<seq<byte>>)
    ensures r.Some? ==> 2 * |r.value| <= |s|
    ensures r.Some? && 2 * |r.value| == |s| ==> AllHex(s)
    decreases |s|
  {
    if |s| == 0 then Some([])
    else if IsAsciiSpace(s[0]) then FromHex(s[1..])
    else if |s| < 2 || !IsHexDigit(s[0]) || !IsHexDigit(s[1]) then None
    else match FromHex(s[2..])
      case None => None
      case Some(rest) => Some([ByteOf(s[0], s[1])] + rest)
  }

  /**
   * A character that is neither a hex digit nor ASCII whitespace, wherever it stands,
   * makes `bytes.fromhex` fail.
   */
  lemma {:induction false} FromHexRejects(s: string, k: nat)
    requires k < |s| && !IsHexDigit(s[k]) && !IsAsciiSpace(s[k])
    ensures FromHex(s).None?
    decreases |s|
  {
    if IsAsciiSpace(s[0]) {
      FromHexRejects(s[1..], k - 1);
    } else if |s| >= 2 && IsHexDigit(s[0]) && IsHexDigit(s[1]) {
      FromHexRejects(s[2..], k - 2);
    }
  }

  /** `bytes.hex()`: two lower-case digits per byte, high nibble first. */
  function ToHex(bytes: seq<byte>): (s: string)
    ensures |s| == 2 * |bytes|
    decreases |bytes|
  {
    if |bytes| == 0 then []
    else [LowerDigit(bytes[0] as int / 16), LowerDigit(bytes[0] as int % 16)] + ToHex(bytes[1..])
  }

  /** Digit `2i` of `bytes.hex()` is the high nibble of byte `i`, digit `2i + 1` its low nibble. */
  lemma {:induction false} ToHexAt(bytes: seq<byte>, i: nat)
    requires i < |bytes|
    ensures ToHex(bytes)[2 * i] == LowerDigit(bytes[i] as int / 16)
    ensures ToHex(bytes)[2 * i + 1] == LowerDigit(bytes[i] as int % 16)
    decreases i
  {
    if i > 0 {
      ToHexAt(bytes[1..], i - 1);
    }
  }

  /** Upper-casing keeps a digit a digit of the same value. */
  lemma UpperDigit(c: char)
    requires IsHexDigit(c)
    ensures IsUpperHexDigit(UpperChar(c)) && DigitValue(UpperChar(c)) == DigitValue(c)
  {
  }

  /** Upper-casing hex text changes none of the bytes it spells. */
  lemma UpperKeepsHexBytes(s: string)
    requires AllHex(s) && |s| % 2 == 0
    ensures AllUpperHex(Upper(s))
    ensures HexBytes(Upper(s)) == HexBytes(s)
  {
    forall i | 0 <= i < |s|
      ensures IsUpperHexDigit(Upper(s)[i]) && DigitValue(Upper(s)[i]) == DigitValue(s[i])
    {
      UpperDigit(s[i]);
    }
  }

  /** The first pair of digits spells the first byte; the rest spell the rest. */
  lemma HexBytesCons(s: string)
    requires AllHex(s) && |s| % 2 == 0 && |s| > 0
    ensures AllHex(s[2..])
    ensures HexBytes(s) == [ByteOf(s[0], s[1])] + HexBytes(s[2..])
  {
    var tail := s[2..];
    assert AllHex(tail) by {
      forall i | 0 <= i < |tail| ensures IsHexDigit(tail[i]) {
        assert tail[i] == s[i + 2];
      }
    }
    var h := HexBytes(s);
    forall i | 1 <= i < |h| ensures h[i] == HexBytes(tail)[i - 1] {
      assert tail[2 * (i - 1)] == s[2 * i];
      assert tail[2 * (i - 1) + 1] == s[2 * i + 1];
    }
  }

  /** Over digits only, `bytes.fromhex` reads exactly the bytes `HexBytes` spells. */
  lemma {:induction false} FromHexOfDigits(s: string)
    requires AllHex(s) && |s| % 2 == 0
    ensures FromHex(s) == Some(HexBytes(s))
    decreases |s|
  {
    if |s| > 0 {
      HexBytesCons(s);
      FromHexOfDigits(s[2..]);
      assert !IsAsciiSpace(s[0]);
    }
  }

  /**
   * Of a string exactly twice as long as the bytes wanted, `bytes.fromhex` yields that many
   * bytes if and only if every character is a hex digit.
   */
  lemma FromHexFullLength(s: string, n: nat)
    requires |s| == 2 * n
    ensures (FromHex(s).Some? && |FromHex(s).value| == n) <==> AllHex(s)
    ensures AllHex(s) ==> FromHex(s) == Some(HexBytes(s))
  {
    if AllHex(s) {
      FromHexOfDigits(s);
    }
  }

  /** A byte's two lower-case digits spell the byte again. */
  lemma ByteOfDigits(b: byte)
    ensures ByteOf(LowerDigit(b as int / 16), LowerDigit(b as int % 16)) == b
  {
    var x := ByteOf(LowerDigit(b as int / 16), LowerDigit(b as int % 16));
    assert x as int == b as int;
  }

  /** Hex round trip: `bytes.fromhex(b.hex())` is `b`. */
  lemma {:induction false} FromHexToHex(bytes: seq<byte>)
    ensures FromHex(ToHex(bytes)) == Some(bytes)
    decreases |bytes|
  {
    if |bytes| > 0 {
      var s := ToHex(bytes);
      FromHexToHex(bytes[1..]);
      assert s[2..] == ToHex(bytes[1..]);
      assert !IsAsciiSpace(s[0]);
      ByteOfDigits(bytes[0]);
      assert [bytes[0]] + bytes[1..] == bytes;
    }
  }

  /** `bytes.hex()` writes only digits, and only lower-case ones. */
  lemma ToHexDigits(bytes: seq<byte>)
    ensures AllHex(ToHex(bytes)) && |ToHex(bytes)| % 2 == 0
    ensures forall i :: 0 <= i < |ToHex(bytes)| ==> !('A' <= ToHex(bytes)[i] <= 'Z')
  {
    var s := ToHex(bytes);
    forall i | 0 <= i < |s| ensures IsHexDigit(s[i]) && !('A' <= s[i] <= 'Z') {
      ToHexAt(bytes, i / 2);
      assert i == 2 * (i / 2) || i == 2 * (i / 2) + 1;
    }
  }

  /**
   * The upper-case hex of some bytes (`b.hex().upper()`) is twice as long as the bytes, uses
   * only `0123456789ABCDEF`, and decodes back to the same bytes.
   */
  lemma UpperHexRoundTrip(bytes: seq<byte>)
    ensures |Upper(ToHex(bytes))| == 2 * |bytes|
    ensures AllUpperHex(Upper(ToHex(bytes)))
    ensures FromHex(Upper(ToHex(bytes))) == Some(bytes)
  {
    var s := ToHex(bytes);
    ToHexDigits(bytes);
    UpperKeepsHexBytes(s);
    FromHexOfDigits(s);
    FromHexToHex(bytes);
    FromHexOfDigits(Upper(s));
  }

  /** An upper-case digit is the upper case of the lower-case digit of its value. */
  lemma UpperOfLowerDigit(c: char)
    requires IsUpperHexDigit(c)
    ensures IsHexDigit(c) && UpperChar(LowerDigit(DigitValue(c))) == c
  {
  }

  /** The nibbles of `16 * hi + lo` are `hi` and `lo`. */
  lemma Nibbles(hi: nat, lo: nat)
    requires hi < 16 && lo < 16
    ensures (16 * hi + lo) / 16 == hi && (16 * hi + lo) % 16 == lo
  {
  }

  /** A byte spelled by two upper-case digits is written back as those digits, upper-cased. */
  lemma UpperDigitsOfByte(hi: char, lo: char)
    requires IsUpperHexDigit(hi) && IsUpperHexDigit(lo)
    ensures UpperChar(LowerDigit(ByteOf(hi, lo) as int / 16)) == hi
    ensures UpperChar(LowerDigit(ByteOf(hi, lo) as int % 16)) == lo
  {
    Nibbles(DigitValue(hi), DigitValue(lo));
    UpperOfLowerDigit(hi);
    UpperOfLowerDigit(lo);
  }

  lemma UpperHexAt(s: string, i: nat)
    requires AllUpperHex(s) && |s| % 2 == 0 && i < |s|
    ensures Upper(ToHex(HexBytes(s)))[i] == s[i]
  {
    assert AllHex(s);
    var b := HexBytes(s);
    var j := i / 2;
    assert b[j] == ByteOf(s[2 * j], s[2 * j + 1]);
    UpperDigitsOfByte(s[2 * j], s[2 * j + 1]);
    ToHexAt(b, j);
    var t := ToHex(b);
    assert Upper(t)[i] == UpperChar(t[i]);
    assert i == 2 * j || i == 2 * j + 1;
  }

  /**
   * The other direction: an upper-case hex string of even length is the upper-case hex of
   * the bytes it spells.
   */
  lemma UpperHexOfDecoded(s: string)
    requires AllUpperHex(s) && |s| % 2 == 0
    ensures AllHex(s)
    ensures Upper(ToHex(HexBytes(s))) == s
  {
    assert AllHex(s);
    forall i | 0 <= i < |s| ensures Upper(ToHex(HexBytes(s)))[i] == s[i] {
      UpperHexAt(s, i);
    }
  }

  /** `bytes.fromhex` on a string that opens with a digit pair. */
  lemma FromHexPair(s: string)
    requires |s| >= 2 && IsHexDigit(s[0]) && IsHexDigit(s[1])
    ensures FromHex(s) == (match FromHex(s[2..])
                            case None => None
                            case Some(rest) => Some([ByteOf(s[0], s[1])] + rest))
  {
    assert !IsAsciiSpace(s[0]);
  }

  /** One digit pair in front of a decoded string adds one byte in front of its bytes. */
  lemma FromHexConcatStep(a: string, b: string)
    requires AllHex(a) && |a| % 2 == 0 && |a| >= 2 && AllHex(a[2..])
    requires FromHex(a[2..] + b).Some? <==> FromHex(b).Some?
    requires FromHex(b).Some? ==> FromHex(a[2..] + b).value == HexBytes(a[2..]) + FromHex(b).value
    ensures FromHex(a + b).Some? <==> FromHex(b).Some?
    ensures FromHex(b).Some? ==> FromHex(a + b).value == HexBytes(a) + FromHex(b).value
  {
    var ab := a + b;
    HexBytesCons(a);
    assert ab[2..] == a[2..] + b;
    assert ab[0] == a[0] && ab[1] == a[1];
    FromHexPair(ab);
    if FromHex(b).Some? {
      SeqAssoc([ByteOf(a[0], a[1])], HexBytes(a[2..]), FromHex(b).value);
    }
  }

  /** Concatenation regroups. */
  lemma SeqAssoc(x: seq<byte>, y: seq<byte>, z: seq<byte>)
    ensures x + y + z == x + (y + z)
  {
  }

  /** Over a prefix of whole digit pairs, `bytes.fromhex` reads those pairs and then the rest. */
  lemma {:induction false} FromHexConcat(a: string, b: string)
    requires AllHex(a) && |a| % 2 == 0
    ensures FromHex(a + b).Some? <==> FromHex(b).Some?
    ensures FromHex(b).Some? ==> FromHex(a + b).value == HexBytes(a) + FromHex(b).value
    decreases |a|
  {
    if |a| > 0 {
      HexBytesCons(a);
      FromHexConcat(a[2..], b);
      FromHexConcatStep(a, b);
    } else {
      assert a + b == b;
      assert HexBytes(a) == [];
      if FromHex(b).Some? {
        assert HexBytes(a) + FromHex(b).value == FromHex(b).value;
      }
    }
  }
}
