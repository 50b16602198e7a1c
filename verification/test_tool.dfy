/**
 * The checks the interactive test tool makes on what is typed at the keyboard before it
 * calls the driver: hex normalisation and acceptance, the custom-data path, and the baud
 * rate default.
 */
module TestTool {
  import opened Options
  import opened Bytes
  import opened PyStr
  import opened Hex
  import opened Serial

  /** Hex characters asked for when no length is given. */
  const DEFAULT_HEX_LEN: nat := 16
  /** The baud rate used when none, or an unreadable one, is entered. */
  const DEFAULT_BAUD: int := 115200

  /**
   * Normalisation of a typed line: strip surrounding whitespace, upper-case, then delete
   * every space, then delete every non-overlapping `0X`, left to right.
   */
  function Normalise(raw: string): (r: string)
    ensures |r| <= |raw|
    ensures forall i :: 0 <= i < |r| ==> r[i] != ' ' && !('a' <= r[i] <= 'z')
  {
    var upper := Upper(Strip(raw));
    RemoveCharSpec(upper, ' ');
    DeleteKeepsCharacters(ReplaceAll(upper, " ", ""), "0X");
    DeleteKeepsCharacters(upper, " ");
    ReplaceAll(ReplaceAll(upper, " ", ""), "0X", "")
  }

  /**
   * One pass of `get_hex_input`'s loop: the normalised line is accepted when it is exactly
   * `length` characters, all from `0123456789ABCDEF`; otherwise it is rejected (`None`)
   * and the tool asks again.
   */
  function AcceptHexInput(raw: string, length: nat): (r: Option<string>)
    ensures r.Some? ==> |r.value| == length && AllUpperHex(r.value)
    ensures r.None? <==> |Normalise(raw)| != length || !AllUpperHex(Normalise(raw))
  {
    var v := Normalise(raw);
    if |v| == length && AllUpperHex(v) then Some(v) else None
  }

  /** What `get_hex_input` returns, or `Exhausted` when input ends first. */
  datatype Prompt = Accepted(attempt: nat, value: string) | Exhausted

  /**
   * `get_hex_input`'s loop over the lines typed in turn: the first acceptable line wins,
   * every earlier one having been rejected. If no line is acceptable the loop runs out of
   * input (`Exhausted`).
   */
  method GetHexInput(lines: seq<string>, length: nat) returns (r: Prompt)
    ensures r.Accepted? ==> && r.attempt < |lines|
                            && AcceptHexInput(lines[r.attempt], length) == Some(r.value)
                            && forall j :: 0 <= j < r.attempt ==> AcceptHexInput(lines[j], length).None?
    ensures r.Exhausted? <==> forall j :: 0 <= j < |lines| ==> AcceptHexInput(lines[j], length).None?
  {
    var i := 0;
    while i < |lines|
      invariant i <= |lines|
      invariant forall j :: 0 <= j < i ==> AcceptHexInput(lines[j], length).None?
    {
      var v := AcceptHexInput(lines[i], length);
      if v.Some? {
        assert !AcceptHexInput(lines[i], length).None?;
        return Accepted(i, v.value);
      }
      i := i + 1;
    }
    return Exhausted;
  }

  /**
   * An upper-case hex string is already normal: it has no whitespace to strip, no lower
   * case, no space and no `X`.
   */
  lemma NormaliseFixesUpperHex(v: string)
    requires AllUpperHex(v)
    ensures Normalise(v) == v
  {
    assert Strip(v) == v by {
      if |v| > 0 {
        assert IsUpperHexDigit(v[0]) && IsUpperHexDigit(v[|v| - 1]);
      }
    }
    UpperFixesNonLower(v);
    ReplaceAllAbsent(v, " ", "", 0);
    ReplaceAllAbsent(v, "0X", "", 1);
  }

  /** Accepting is idempotent: an accepted value, typed again, is accepted unchanged. */
  lemma AcceptIdempotent(raw: string, length: nat)
    requires AcceptHexInput(raw, length).Some?
    ensures var v := AcceptHexInput(raw, length).value;
            AcceptHexInput(v, length) == Some(v)
  {
    NormaliseFixesUpperHex(AcceptHexInput(raw, length).value);
  }

  /**
   * Any string of exactly `length` upper-case hex digits is accepted as it is, so the
   * accepted values are exactly these strings.
   */
  lemma AcceptsEveryUpperHex(v: string)
    requires AllUpperHex(v)
    ensures AcceptHexInput(v, |v|) == Some(v)
  {
    NormaliseFixesUpperHex(v);
  }

  /** Spaces between two pieces go, and each piece loses its own spaces. */
  lemma DropSpaceBetween(x: string, y: string)
    ensures ReplaceAll(x + " " + y, " ", "") == ReplaceAll(x, " ", "") + ReplaceAll(y, " ", "")
  {
    RemoveCharConcat(x + " ", y, ' ');
    RemoveCharConcat(x, " ", ' ');
    RemoveCharSelf(' ');
  }

  /** Upper-case hex digits hold neither a space nor an `X`: both deletions leave them alone. */
  lemma DeletionsKeepUpperHex(u: string)
    requires AllUpperHex(u)
    ensures ReplaceAll(u, " ", "") == u && ReplaceAll(u, "0X", "") == u
  {
    ReplaceAllAbsent(u, " ", "", 0);
    ReplaceAllAbsent(u, "0X", "", 1);
  }

  /** The upper case of hex digits, in either case, is upper-case hex digits. */
  lemma UpperOfHex(h: string)
    requires AllHex(h)
    ensures AllUpperHex(Upper(h))
  {
    forall i | 0 <= i < |h| ensures IsUpperHexDigit(Upper(h)[i]) {
      UpperDigit(h[i]);
    }
  }

  /** Upper-casing a grouped entry upper-cases each piece. */
  lemma UpperGrouped(a: string, b: string, c: string, d: string)
    ensures Upper("0x" + a + " " + b + " " + c + " " + d)
         == "0X" + Upper(a) + " " + Upper(b) + " " + Upper(c) + " " + Upper(d)
  {
    UpperConcat("0x" + a + " " + b + " " + c + " ", d);
    UpperConcat("0x" + a + " " + b + " " + c, " ");
    UpperConcat("0x" + a + " " + b + " ", c);
    UpperConcat("0x" + a + " " + b, " ");
    UpperConcat("0x" + a + " ", b);
    UpperConcat("0x" + a, " ");
    UpperConcat("0x", a);
    assert Upper("0x") == "0X" && Upper(" ") == " ";
  }

  /** Deleting the spaces of three space-separated upper-case hex groups after a head. */
  lemma SpacesDropped(x: string, u: string, v: string, w: string)
    requires AllUpperHex(u) && AllUpperHex(v) && AllUpperHex(w)
    ensures ReplaceAll(x + " " + u + " " + v + " " + w, " ", "") == ReplaceAll(x, " ", "") + u + v + w
  {
    DeletionsKeepUpperHex(u);
    DeletionsKeepUpperHex(v);
    DeletionsKeepUpperHex(w);
    DropSpaceBetween(x, u);
    DropSpaceBetween(x + " " + u, v);
    DropSpaceBetween(x + " " + u + " " + v, w);
  }

  /** Regrouping four pieces behind a head. */
  lemma Regroup(h: string, a: string, b: string, c: string, d: string)
    ensures h + a + b + c + d == h + (a + b + c + d)
  {
  }

  /** Upper-casing a grouped entry and deleting its spaces leaves `0X` and the digits. */
  lemma GroupedSpaces(a: string, b: string, c: string, d: string)
    requires AllHex(a) && AllHex(b) && AllHex(c) && AllHex(d)
    ensures ReplaceAll(Upper("0x" + a + " " + b + " " + c + " " + d), " ", "")
         == "0X" + (Upper(a) + Upper(b) + Upper(c) + Upper(d))
    ensures AllUpperHex(Upper(a) + Upper(b) + Upper(c) + Upper(d))
  {
    UpperGrouped(a, b, c, d);
    var ua, ub, uc, ud := Upper(a), Upper(b), Upper(c), Upper(d);
    UpperOfHex(a);
    UpperOfHex(b);
    UpperOfHex(c);
    UpperOfHex(d);
    SpacesDropped("0X" + ua, ub, uc, ud);
    RemoveCharConcat("0X", ua, ' ');
    ReplaceAllAbsent("0X", " ", "", 0);
    DeletionsKeepUpperHex(ua);
    Regroup("0X", ua, ub, uc, ud);
    AllUpperHexConcat(ua, ub);
    AllUpperHexConcat(ua + ub, uc);
    AllUpperHexConcat(ua + ub + uc, ud);
  }

  /**
   * Entries typed with a `0x` prefix, in either case, and in space-separated groups are
   * accepted as the upper case of their digits.
   */
  lemma GroupedEntryAccepted(a: string, b: string, c: string, d: string)
    requires AllHex(a) && AllHex(b) && AllHex(c) && AllHex(d) && |d| > 0
    ensures AcceptHexInput("0x" + a + " " + b + " " + c + " " + d, |a| + |b| + |c| + |d|)
         == Some(Upper(a) + Upper(b) + Upper(c) + Upper(d))
  {
    var s := "0x" + a + " " + b + " " + c + " " + d;
    assert Strip(s) == s by {
      assert s[0] == '0';
      assert s[|s| - 1] == d[|d| - 1];
    }
    GroupedSpaces(a, b, c, d);
    var uh := Upper(a) + Upper(b) + Upper(c) + Upper(d);
    assert |uh| == |a| + |b| + |c| + |d|;
    ReplaceAllAtFront("0X", uh, "");
    DeletionsKeepUpperHex(uh);
    assert Normalise(s) == uh by {
      assert ReplaceAll(Upper(Strip(s)), " ", "") == "0X" + uh;
      assert ReplaceAll("0X" + uh, "0X", "") == "" + uh == uh;
    }
  }

  /** The groups of the entry `0x0123 4567 89ab cdef`. */
  lemma ExampleGroups()
    ensures "0x0123 4567 89ab cdef" == "0x" + "0123" + " " + "4567" + " " + "89ab" + " " + "cdef"
    ensures AllHex("0123") && AllHex("4567") && AllHex("89ab") && AllHex("cdef")
  {
  }

  /** The groups of `0123456789ABCDEF`. */
  lemma ExampleResult()
    ensures Upper("0123") == "0123" && Upper("4567") == "4567"
    ensures Upper("89ab") == "89AB" && Upper("cdef") == "CDEF"
    ensures "0123" + "4567" + "89AB" + "CDEF" == "0123456789ABCDEF"
  {
  }

  /** The entry `0x0123 4567 89ab cdef` is accepted as `0123456789ABCDEF`. */
  lemma NormaliseExample()
    ensures AcceptHexInput("0x0123 4567 89ab cdef", DEFAULT_HEX_LEN) == Some("0123456789ABCDEF")
  {
    ExampleGroups();
    GroupedEntryAccepted("0123", "4567", "89ab", "cdef");
    ExampleResult();
  }

  /**
   * Deleting `0X` once can create a new `0X`, so normalisation in general is not
   * idempotent; it is only on accepted values.
   */
  lemma NormaliseNotIdempotent()
    ensures Normalise("00XX") == "0X"
    ensures Normalise("0X") == []
  {
    var s, t := "00XX", "0X";
    assert Strip(s) == s && Strip(t) == t;
    UpperFixesNonLower(s);
    UpperFixesNonLower(t);
    ReplaceAllAbsent(s, " ", "", 0);
    ReplaceAllAbsent(t, " ", "", 0);
    assert s == "0" + (t + "X");
    StartsWithMismatch(s, t, 1);
    ReplaceAllMiss('0', t + "X", t, "");
    ReplaceAllAtFront(t, "X", "");
    StartsWithMismatch("X", t, 0);
    ReplaceAllMiss('X', "", t, "");
    ReplaceAllAtFront(t, "", "");
  }

  /** The outcome of `send_custom_data`. */
  datatype CustomOutcome = OddLength | BadHex | Sent(count: nat)

  /**
   * `send_custom_data`: the typed line is normalised as for `get_hex_input`; an odd
   * length is refused, text `bytes.fromhex` cannot read is refused, and otherwise the
   * decoded bytes are handed to `send_bytes`. The tool reports the count sent without
   * looking at what `send_bytes` returned, so a closed port still reports `Sent`.
   */
  function SendCustomData(p: Port, raw: string): (r: Step<CustomOutcome>)
    ensures |Normalise(raw)| % 2 != 0 ==> r == Step(p, OddLength)
    ensures r.value.OddLength? <==> |Normalise(raw)| % 2 != 0
    ensures r.value.Sent? <==> |Normalise(raw)| % 2 == 0 && FromHex(Normalise(raw)).Some?
    ensures r.value.BadHex? <==> |Normalise(raw)| % 2 == 0 && FromHex(Normalise(raw)).None?
    ensures !r.value.Sent? ==> r.port == p
    ensures r.value.Sent? ==> && FromHex(Normalise(raw)).Some?
                              && r.port == SendBytes(p, FromHex(Normalise(raw)).value).port
                              && r.value.count == |FromHex(Normalise(raw)).value|
                              && 2 * r.value.count <= |Normalise(raw)|
    ensures |Normalise(raw)| % 2 == 0 && AllHex(Normalise(raw)) ==>
              && r.value == Sent(|Normalise(raw)| / 2)
              && r.port == SendBytes(p, HexBytes(Normalise(raw))).port
  {
    var hex := Normalise(raw);
    if |hex| % 2 != 0 then Step(p, OddLength)
    else
      FromHexFullLength(hex, |hex| / 2);
      match FromHex(hex)
      case None => Step(p, BadHex)
      case Some(bytes) => Step(SendBytes(p, bytes).port, Sent(|bytes|))
  }

  /** The settings `change_settings` returns. */
  datatype Settings = Settings(port: string, baud: int)

  /**
   * `change_settings`: the port name is the stripped line; the baud rate is the default
   * 115200 when the stripped line is empty or Python's `int()` cannot read it (`parsed` is
   * what `int()` returned, `None` for `ValueError`), and otherwise the number read.
   */
  function ChangeSettings(portLine: string, baudLine: string, parsed: Option<int>): (r: Settings)
    ensures r.port == Strip(portLine)
    ensures r.baud == DEFAULT_BAUD || (parsed.Some? && r.baud == parsed.value)
    ensures parsed.None? ==> r.baud == DEFAULT_BAUD
    ensures Strip(baudLine) == [] ==> r.baud == DEFAULT_BAUD
    ensures Strip(baudLine) != [] && parsed.Some? ==> r.baud == parsed.value
  {
    var baud :=
      if Strip(baudLine) == [] then DEFAULT_BAUD
      else match parsed
        case Some(n) => n
        case None => DEFAULT_BAUD;
    Settings(Strip(portLine), baud)
  }

  /** A blank baud-rate entry, whitespace only, gives 115200 whatever `int()` would say. */
  lemma BlankBaudIsDefault(portLine: string, baudLine: string, parsed: Option<int>)
    requires forall i :: 0 <= i < |baudLine| ==> IsPySpace(baudLine[i])
    ensures ChangeSettings(portLine, baudLine, parsed).baud == DEFAULT_BAUD
  {
    StripEmpty(baudLine);
  }

  /** A non-blank entry that `int()` reads is used as it is. */
  lemma ReadableBaudIsUsed(portLine: string, baudLine: string, n: int)
    requires exists i :: 0 <= i < |baudLine| && !IsPySpace(baudLine[i])
    ensures ChangeSettings(portLine, baudLine, Some(n)).baud == n
  {
    StripEmpty(baudLine);
  }
}
