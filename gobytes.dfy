/**
 * Bytes, and the conversion `[]byte(s)` of a Go string. A Go string read
 * from the environment holds UTF-8 text; here it is a `string` of Unicode
 * scalar values, so `[]byte(s)` is its UTF-8 encoding.
 */
module GoBytes {

  type byte = x: int | 0 <= x < 256

  /**
   * The scalar value a sequence of one to four bytes carries, read as UTF-8:
   * the payload bits of the lead byte followed by six bits from each
   * continuation byte.
   */
  function Utf8Value(r: seq<byte>): int
    requires 1 <= |r| <= 4
  {
    var b: seq<int> := r;
    if |b| == 1 then b[0]
    else if |b| == 2 then (b[0] - 0xC0) * 64 + (b[1] - 0x80)
    else if |b| == 3 then (b[0] - 0xE0) * 4096 + (b[1] - 0x80) * 64 + (b[2] - 0x80)
    else (b[0] - 0xF0) * 262144 + (b[1] - 0x80) * 4096 + (b[2] - 0x80) * 64 + (b[3] - 0x80)
  }

  /**
   * The UTF-8 encoding of one scalar value (section 3 of RFC 3629): the
   * length follows from the value, the lead byte announces the length,
   * every other byte is a continuation byte, and the bytes read back to
   * the value.
   */
  function Utf8Char(c: char): (r: seq<byte>)
    ensures 1 <= |r| <= 4
    ensures (c as int < 0x80) <==> (|r| == 1)
    ensures (0x80 <= c as int < 0x800) <==> (|r| == 2)
    ensures (0x800 <= c as int < 0x10000) <==> (|r| == 3)
    ensures c as int < 0x80 ==> r == [c as int]
    ensures |r| == 2 ==> 0xC2 <= r[0] < 0xE0
    ensures |r| == 3 ==> 0xE0 <= r[0] < 0xF0
    ensures |r| == 4 ==> 0xF0 <= r[0] <= 0xF4
    ensures forall i :: 1 <= i < |r| ==> 0x80 <= r[i] < 0xC0
    ensures Utf8Value(r) == c as int
  {
    var n := c as int;
    var q1 := n / 64;
    var q2 := q1 / 64;
    var q3 := q2 / 64;
    assert n == 64 * q1 + n % 64 && q1 == 64 * q2 + q1 % 64 && q2 == 64 * q3 + q2 % 64;
    if n < 0x80 then [n]
    else if n < 0x800 then [0xC0 + q1, 0x80 + n % 64]
    else if n < 0x10000 then [0xE0 + q2, 0x80 + q1 % 64, 0x80 + n % 64]
    else [0xF0 + q3, 0x80 + q2 % 64, 0x80 + q1 % 64, 0x80 + n % 64]
  }

  /** Different characters have different encodings. */
  lemma Utf8CharInjective(c: char, d: char)
    requires Utf8Char(c) == Utf8Char(d)
    ensures c == d
  {
    assert c as int == Utf8Value(Utf8Char(c)) == Utf8Value(Utf8Char(d)) == d as int;
  }

  /** The lead byte alone fixes how many bytes a character takes. */
  lemma LengthFromLead(c: char, d: char)
    requires Utf8Char(c)[0] == Utf8Char(d)[0]
    ensures |Utf8Char(c)| == |Utf8Char(d)|
  {
  }

  /** `[]byte(s)`: the bytes of the string, in order. */
  function Bytes(s: string): (r: seq<byte>)
    ensures |s| <= |r| <= 4 * |s|
  {
    if s == [] then [] else Utf8Char(s[0]) + Bytes(s[1..])
  }

  /** The conversion works character by character: it distributes over concatenation. */
  lemma {:induction false} BytesAppend(a: string, b: string)
    ensures Bytes(a + b) == Bytes(a) + Bytes(b)
  {
    if a != [] {
      assert (a + b)[0] == a[0] && (a + b)[1..] == a[1..] + b;
      BytesAppend(a[1..], b);
      calc {
        Bytes(a + b);
        Utf8Char(a[0]) + Bytes(a[1..] + b);
        Utf8Char(a[0]) + (Bytes(a[1..]) + Bytes(b));
        (Utf8Char(a[0]) + Bytes(a[1..])) + Bytes(b);
        Bytes(a) + Bytes(b);
      }
    } else {
      assert a + b == b;
    }
  }

  /** Different strings have different bytes, so no value is altered on the way to the pipe. */
  lemma {:induction false} BytesInjective(a: string, b: string)
    requires Bytes(a) == Bytes(b)
    ensures a == b
  {
    if a != [] && b != [] {
      var ca, cb := Utf8Char(a[0]), Utf8Char(b[0]);
      assert Bytes(a) == ca + Bytes(a[1..]) && Bytes(b) == cb + Bytes(b[1..]);
      assert ca[0] == Bytes(a)[0] == cb[0];
      LengthFromLead(a[0], b[0]);
      assert ca == Bytes(a)[..|ca|] == cb;
      Utf8CharInjective(a[0], b[0]);
      assert Bytes(a[1..]) == Bytes(a)[|ca|..] == Bytes(b[1..]);
      BytesInjective(a[1..], b[1..]);
      assert a == [a[0]] + a[1..] && b == [b[0]] + b[1..];
    }
  }

  predicate Ascii(s: string) {
    forall i :: 0 <= i < |s| ==> s[i] as int < 0x80
  }

  /** On ASCII text (PEM files are ASCII) the conversion is one byte per character. */
  lemma {:induction false} BytesOfAscii(s: string)
    requires Ascii(s)
    ensures |Bytes(s)| == |s|
    ensures forall i :: 0 <= i < |s| ==> Bytes(s)[i] == s[i] as int
  {
    if s != [] {
      assert Ascii(s[1..]) by {
        forall i | 0 <= i < |s| - 1 ensures s[1..][i] as int < 0x80 { assert s[1..][i] == s[i + 1]; }
      }
      BytesOfAscii(s[1..]);
    }
  }
}
