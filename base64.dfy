/**
 * Base64 with the standard alphabet and padding (section 4 of RFC 4648),
 * as Go's `base64.StdEncoding` decodes it: input is read in quanta of four
 * characters, "=" may only end the input, and the unused low bits of the
 * last character before padding are ignored (the encoding is not strict).
 * A failure carries the offset that Go's CorruptInputError reports.
 */
module Base64 {
  import opened Wrappers
  import opened GoBytes
  import GoStrings

  const Pad: char := '='

  /** The character for the 6-bit value `v` (Table 1 of RFC 4648). */
  function Char(v: nat): (c: char)
    requires v < 64
    ensures c != Pad
  {
    if v < 26 then ('A' as int + v) as char
    else if v < 52 then ('a' as int + (v - 26)) as char
    else if v < 62 then ('0' as int + (v - 52)) as char
    else if v == 62 then '+'
    else '/'
  }

  /** The 6-bit value of an alphabet character; None for anything else, "=" included. */
  function Value(c: char): (r: Option<nat>)
    ensures r.Some? ==> r.value < 64 && Char(r.value) == c
    ensures c == Pad ==> r.None?
  {
    if 'A' <= c <= 'Z' then Some(c as int - 'A' as int)
    else if 'a' <= c <= 'z' then Some(c as int - 'a' as int + 26)
    else if '0' <= c <= '9' then Some(c as int - '0' as int + 52)
    else if c == '+' then Some(62)
    else if c == '/' then Some(63)
    else None
  }

  lemma ValueOfChar(v: nat)
    requires v < 64
    ensures Value(Char(v)) == Some(v)
  {
  }

  predicate Valid(c: char) { Value(c).Some? }

  function V(c: char): nat
    requires Valid(c)
  {
    Value(c).value
  }

  /** The three bytes that four 6-bit values carry. */
  function Byte0(v0: nat, v1: nat): byte requires v0 < 64 && v1 < 64 { v0 * 4 + v1 / 16 }
  function Byte1(v1: nat, v2: nat): byte requires v1 < 64 && v2 < 64 { (v1 % 16) * 16 + v2 / 4 }
  function Byte2(v2: nat, v3: nat): byte requires v2 < 64 && v3 < 64 { (v2 % 4) * 64 + v3 }

  /** Encoding: three bytes to four characters, a short last group padded with "=". */
  function Encode(b: seq<byte>): (s: string)
    ensures |s| == 4 * ((|b| + 2) / 3)
  {
    if |b| == 0 then []
    else if |b| == 1 then
      [Char(b[0] / 4), Char((b[0] % 4) * 16), Pad, Pad]
    else if |b| == 2 then
      [Char(b[0] / 4), Char((b[0] % 4) * 16 + b[1] / 16), Char((b[1] % 16) * 4), Pad]
    else
      [Char(b[0] / 4), Char((b[0] % 4) * 16 + b[1] / 16), Char((b[1] % 16) * 4 + b[2] / 64), Char(b[2] % 64)]
        + Encode(b[3..])
  }

  /**
   * What the quantum at the front of the text yields in Go's decodeQuantum:
   * three bytes from four alphabet characters, the last one or two bytes of
   * a padded text, or the offset of the first corrupt character.
   */
  datatype Quantum = Full(bytes: seq<byte>) | Final(bytes: seq<byte>) | Corrupt(offset: nat)

  function FrontQuantum(s: string): (q: Quantum)
    requires |s| > 0
    ensures q.Full? ==> |s| >= 4 && |q.bytes| == 3
    ensures q.Final? ==> |s| == 4 && 1 <= |q.bytes| <= 2
    ensures q.Corrupt? ==> q.offset <= |s|
  {
    if !Valid(s[0]) then Corrupt(0)
    else if |s| == 1 then Corrupt(0)
    else if !Valid(s[1]) then Corrupt(1)
    else if |s| == 2 then Corrupt(0)
    else if !Valid(s[2]) then
      if s[2] != Pad then Corrupt(2)
      else if |s| == 3 then Corrupt(3)
      else if s[3] != Pad then Corrupt(2)
      else if |s| > 4 then Corrupt(4)
      else Final([Byte0(V(s[0]), V(s[1]))])
    else if |s| == 3 then Corrupt(0)
    else if !Valid(s[3]) then
      if s[3] != Pad then Corrupt(3)
      else if |s| > 4 then Corrupt(4)
      else Final([Byte0(V(s[0]), V(s[1])), Byte1(V(s[1]), V(s[2]))])
    else Full([Byte0(V(s[0]), V(s[1])), Byte1(V(s[1]), V(s[2])), Byte2(V(s[2]), V(s[3]))])
  }

  /**
   * DecodeString: the bytes, or the offset of the first character Go
   * reports as corrupt (the start of a truncated quantum, a character
   * outside the alphabet, misplaced padding, or anything after padding).
   */
  function Decode(s: string): (r: Result<seq<byte>, nat>)
    ensures r.Err? ==> r.error <= |s|
    decreases |s|
  {
    if |s| == 0 then Ok([])
    else match FrontQuantum(s)
      case Corrupt(k) => Err(k)
      case Final(b) => Ok(b)
      case Full(b) =>
        match Decode(s[4..])
        case Ok(rest) => Ok(b + rest)
        case Err(k) => Err(k + 4)
  }

  /**
   * The canonical form of section 3.5 of RFC 4648: the bits that padding
   * leaves unused in the last character are zero.
   */
  predicate PadBitsZero(s: string) {
    if |s| >= 4 && s[|s| - 2] == Pad then
      Valid(s[|s| - 3]) && V(s[|s| - 3]) % 16 == 0
    else if |s| >= 4 && s[|s| - 1] == Pad then
      Valid(s[|s| - 2]) && V(s[|s| - 2]) % 4 == 0
    else true
  }

  /** Cutting three bytes into four 6-bit values and joining them again is the identity. */
  lemma JoinSplitBytes(b0: byte, b1: byte, b2: byte)
    ensures Byte0(b0 / 4, (b0 % 4) * 16 + b1 / 16) == b0
    ensures Byte1((b0 % 4) * 16 + b1 / 16, (b1 % 16) * 4 + b2 / 64) == b1
    ensures Byte2((b1 % 16) * 4 + b2 / 64, b2 % 64) == b2
  {
  }

  /** The same for a last group of two bytes, whose third value has only zero bits from a third byte. */
  lemma JoinSplitTwo(b0: byte, b1: byte)
    ensures Byte0(b0 / 4, (b0 % 4) * 16 + b1 / 16) == b0
    ensures Byte1((b0 % 4) * 16 + b1 / 16, (b1 % 16) * 4) == b1
  {
  }

  /** Joining four 6-bit values into three bytes and cutting them again is the identity. */
  lemma SplitJoinValues(v0: nat, v1: nat, v2: nat, v3: nat)
    requires v0 < 64 && v1 < 64 && v2 < 64 && v3 < 64
    ensures Byte0(v0, v1) / 4 == v0
    ensures (Byte0(v0, v1) % 4) * 16 + Byte1(v1, v2) / 16 == v1
    ensures (Byte1(v1, v2) % 16) * 4 + Byte2(v2, v3) / 64 == v2
    ensures Byte2(v2, v3) % 64 == v3
    ensures v1 % 16 == 0 ==> (Byte0(v0, v1) % 4) * 16 == v1
    ensures v2 % 4 == 0 ==> (Byte1(v1, v2) % 16) * 4 == v2
  {
  }

  /** A last group of one byte decodes back to it. */
  lemma DecodeEncodeOne(b: seq<byte>)
    requires |b| == 1
    ensures Decode(Encode(b)) == Ok(b)
  {
    JoinSplitBytes(b[0], 0, 0);
    ValueOfChar(b[0] / 4);
    ValueOfChar((b[0] % 4) * 16);
    assert FrontQuantum(Encode(b)) == Final(b);
  }

  /** A last group of two bytes decodes back to them. */
  lemma DecodeEncodeTwo(b: seq<byte>)
    requires |b| == 2
    ensures Decode(Encode(b)) == Ok(b)
  {
    var v0, v1, v2 := b[0] / 4, (b[0] % 4) * 16 + b[1] / 16, (b[1] % 16) * 4;
    var s := Encode(b);
    assert s == [Char(v0), Char(v1), Char(v2), Pad];
    JoinSplitTwo(b[0], b[1]);
    ValueOfChar(v0);
    ValueOfChar(v1);
    ValueOfChar(v2);
    assert [Byte0(v0, v1), Byte1(v1, v2)] == b;
    assert FrontQuantum(s) == Final(b);
  }

  /** Four alphabet characters at the front make a full quantum. */
  lemma FrontQuantumOfValues(s: string, v0: nat, v1: nat, v2: nat, v3: nat)
    requires v0 < 64 && v1 < 64 && v2 < 64 && v3 < 64
    requires |s| >= 4 && s[0] == Char(v0) && s[1] == Char(v1) && s[2] == Char(v2) && s[3] == Char(v3)
    ensures FrontQuantum(s) == Full([Byte0(v0, v1), Byte1(v1, v2), Byte2(v2, v3)])
  {
    ValueOfChar(v0);
    ValueOfChar(v1);
    ValueOfChar(v2);
    ValueOfChar(v3);
  }

  /** A group of three bytes is a full quantum that decodes back to them. */
  lemma FrontOfEncodeFull(b: seq<byte>)
    requires |b| >= 3
    ensures |Encode(b)| >= 4 && FrontQuantum(Encode(b)) == Full(b[..3])
    ensures Encode(b)[4..] == Encode(b[3..])
  {
    var v0, v1, v2, v3 := b[0] / 4, (b[0] % 4) * 16 + b[1] / 16, (b[1] % 16) * 4 + b[2] / 64, b[2] % 64;
    var s := Encode(b);
    assert s == [Char(v0), Char(v1), Char(v2), Char(v3)] + Encode(b[3..]);
    FrontQuantumOfValues(s, v0, v1, v2, v3);
    RegroupThree(b);
  }

  lemma RegroupThree(b: seq<byte>)
    requires |b| >= 3
    ensures var v0, v1, v2, v3 := b[0] / 4, (b[0] % 4) * 16 + b[1] / 16, (b[1] % 16) * 4 + b[2] / 64, b[2] % 64;
      [Byte0(v0, v1), Byte1(v1, v2), Byte2(v2, v3)] == b[..3]
  {
    JoinSplitBytes(b[0], b[1], b[2]);
  }

  /** Whatever is encoded decodes back to the same bytes. */
  lemma {:induction false} DecodeEncode(b: seq<byte>)
    ensures Decode(Encode(b)) == Ok(b)
    decreases |b|
  {
    if |b| == 1 {
      DecodeEncodeOne(b);
    } else if |b| == 2 {
      DecodeEncodeTwo(b);
    } else if |b| >= 3 {
      FrontOfEncodeFull(b);
      DecodeEncode(b[3..]);
      assert b == b[..3] + b[3..];
    }
  }

  /** Whether text is canonical depends only on its last quantum. */
  lemma PadBitsZeroTail(u: string, t: string)
    requires |t| >= 4
    ensures PadBitsZero(u + t) == PadBitsZero(t)
  {
    var s := u + t;
    assert s[|s| - 1] == t[|t| - 1] && s[|s| - 2] == t[|t| - 2] && s[|s| - 3] == t[|t| - 3];
  }

  /** An encoding is canonical. */
  lemma {:induction false} EncodePadBitsZero(b: seq<byte>)
    ensures PadBitsZero(Encode(b))
    decreases |b|
  {
    var s := Encode(b);
    if |b| == 1 {
      ValueOfChar((b[0] % 4) * 16);
    } else if |b| == 2 {
      ValueOfChar((b[1] % 16) * 4);
    } else if |b| >= 3 {
      EncodePadBitsZero(b[3..]);
      var t := Encode(b[3..]);
      assert s == s[..4] + t;
      if |t| >= 4 {
        PadBitsZeroTail(s[..4], t);
      }
    }
  }

  /** A canonical final quantum is re-encoded as itself. */
  lemma EncodeFinal(s: string)
    requires |s| > 0 && FrontQuantum(s).Final? && PadBitsZero(s)
    ensures Encode(FrontQuantum(s).bytes) == s
  {
    var v0, v1 := V(s[0]), V(s[1]);
    if !Valid(s[2]) {
      SplitJoinValues(v0, v1, 0, 0);
    } else {
      SplitJoinValues(v0, v1, V(s[2]), 0);
    }
    assert s == [s[0], s[1], s[2], s[3]];
  }

  /** A full quantum is re-encoded as its four characters. */
  lemma EncodeFull(s: string, rest: seq<byte>)
    requires |s| > 0 && FrontQuantum(s).Full?
    ensures Encode(FrontQuantum(s).bytes + rest) == s[..4] + Encode(rest)
  {
    var v0, v1, v2, v3 := V(s[0]), V(s[1]), V(s[2]), V(s[3]);
    SplitJoinValues(v0, v1, v2, v3);
    var b := FrontQuantum(s).bytes + rest;
    assert b[3..] == rest;
    assert s[..4] == [s[0], s[1], s[2], s[3]];
  }

  /**
   * Text that decodes and is canonical is exactly the encoding of what it
   * decodes to: decoding followed by re-encoding gives the text back.
   */
  lemma {:induction false} EncodeDecode(s: string)
    requires Decode(s).Ok? && PadBitsZero(s)
    ensures Encode(Decode(s).value) == s
    decreases |s|
  {
    if |s| > 0 {
      match FrontQuantum(s)
      case Final(b) =>
        EncodeFinal(s);
      case Full(b) =>
        var t := s[4..];
        assert s == s[..4] + t;
        if |t| >= 4 {
          PadBitsZeroTail(s[..4], t);
        }
        EncodeDecode(t);
        EncodeFull(s, Decode(t).value);
    }
  }

  /** Go's StdEncoding is not strict: a non-canonical "QR==" decodes like "QQ==". */
  lemma NonCanonicalAccepted()
    ensures Decode("QQ==") == Decode("QR==") == Ok([65])
    ensures Encode([65]) == "QQ=="
  {
  }

  /** Some offsets Go reports: a truncated quantum, a lone "=", a stray character, data after padding. */
  lemma CorruptOffsets()
    ensures Decode("QUJD") == Ok([65, 66, 67])
    ensures Decode("QUJDR") == Err(4)
    ensures Decode("QQ=") == Err(3)
    ensures Decode("Q===") == Err(1)
    ensures Decode("QU*D") == Err(2)
    ensures Decode("QQ==QUJD") == Err(4)
  {
    var abc: seq<byte> := [65, 66, 67];
    assert FrontQuantum("QUJD") == Full(abc);
    assert Decode("QUJD"[4..]) == Ok([]);
    assert abc + [] == abc;
    assert "QUJDR"[4..] == "R";
    assert "QQ==QUJD"[4..] == "QUJD";
  }

  /** The fixed start of Go's CorruptInputError text; the offset follows it. */
  const CorruptInputPrefix := "illegal base64 data at input byte "

  /** The text of Go's CorruptInputError, which the wrapper logs before exiting: the offset can be read back from it. */
  function CorruptInputMessage(offset: nat): (m: string)
    ensures GoStrings.HasPrefix(m, CorruptInputPrefix)
    ensures var digits := m[|CorruptInputPrefix|..];
      && |digits| > 0
      && (forall i :: 0 <= i < |digits| ==> '0' <= digits[i] <= '9')
      && GoStrings.DigitsValue(digits) == offset
  {
    GoStrings.DecimalValue(offset);
    var m := CorruptInputPrefix + GoStrings.Decimal(offset);
    assert m[|CorruptInputPrefix|..] == GoStrings.Decimal(offset);
    m
  }
}
