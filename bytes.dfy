// Byte-level decoding behind the DataView reads of the FILE cursor: unsigned
// integers in little- and big-endian order, two's-complement signed
// integers, the text decoding of a byte run, and the clean-up a 'string'
// read applies (NUL characters removed, surrounding whitespace trimmed).
// IEEE-754 decoding is not modelled: the three float widths are decoded by
// functions supplied as a parameter.

module Bytes {
  import opened JsValues

  type Byte = b: int | 0 <= b < 256

  /** 256^n. */
  function Pow256(n: nat): (r: nat)
    ensures r >= 1
  {
    if n == 0 then 1 else 256 * Pow256(n - 1)
  }

  /** The unsigned integer whose least significant byte comes first. */
  function LittleEndian(bs: seq<Byte>): nat
  {
    if bs == [] then 0 else bs[0] + 256 * LittleEndian(bs[1..])
  }

  /** The unsigned integer whose most significant byte comes first. */
  function BigEndian(bs: seq<Byte>): nat
  {
    if bs == [] then 0 else BigEndian(bs[..|bs| - 1]) * 256 + bs[|bs| - 1]
  }

  /** The unsigned value of the bytes in the order the cursor's flag says. */
  function Unsigned(bs: seq<Byte>, littleEndian: bool): nat
  {
    if littleEndian then LittleEndian(bs) else BigEndian(bs)
  }

  /** An n-byte unsigned value lies in [0, 256^n). */
  lemma {:induction false} LittleEndianBound(bs: seq<Byte>)
    ensures LittleEndian(bs) < Pow256(|bs|)
  {
    if bs != [] {
      LittleEndianBound(bs[1..]);
      MulLeMono(LittleEndian(bs[1..]), Pow256(|bs| - 1) - 1, 256);
    }
  }

  /** A big-endian read of some bytes is a little-endian read of the same bytes reversed. */
  lemma {:induction false} BigEndianIsReversed(bs: seq<Byte>)
    ensures BigEndian(bs) == LittleEndian(Reverse(bs))
  {
    if bs != [] {
      var n := |bs| - 1;
      BigEndianIsReversed(bs[..n]);
      var r := Reverse(bs);
      assert r[0] == bs[n];
      assert r[1..] == Reverse(bs[..n]);
    }
  }

  /** The n bytes, least significant first, of x modulo 256^n. */
  function EncodeLittleEndian(x: nat, n: nat): (r: seq<Byte>)
    ensures |r| == n
  {
    if n == 0 then [] else [x % 256] + EncodeLittleEndian(x / 256, n - 1)
  }

  /** Encoding a value that fits and decoding it gives the value back. */
  lemma {:induction false} DecodeEncode(x: nat, n: nat)
    requires x < Pow256(n)
    ensures LittleEndian(EncodeLittleEndian(x, n)) == x
  {
    if n > 0 {
      var e := EncodeLittleEndian(x, n);
      assert e[1..] == EncodeLittleEndian(x / 256, n - 1);
      DivBound(x, Pow256(n - 1));
      DecodeEncode(x / 256, n - 1);
    }
  }

  lemma DivBound(x: nat, p: nat)
    requires x < 256 * p
    ensures x / 256 < p
  {
  }

  /** Decoding some bytes and encoding the value at the same width gives the bytes back. */
  lemma {:induction false} EncodeDecode(bs: seq<Byte>)
    ensures EncodeLittleEndian(LittleEndian(bs), |bs|) == bs
  {
    if bs != [] {
      var x := LittleEndian(bs);
      DigitSplit(bs[0], LittleEndian(bs[1..]));
      EncodeDecode(bs[1..]);
    }
  }

  lemma DigitSplit(low: Byte, high: nat)
    ensures (low + 256 * high) % 256 == low && (low + 256 * high) / 256 == high
  {
  }

  /** The two's-complement reading of an n-byte unsigned value. */
  function ToSigned(u: int, n: nat): int
  {
    if u >= Pow256(n) / 2 then u - Pow256(n) else u
  }

  /** A signed n-byte value lies in [-256^n/2, 256^n/2), and reading it back as unsigned undoes the conversion. */
  lemma SignedRange(u: int, n: nat)
    requires n >= 1 && 0 <= u < Pow256(n)
    ensures -(Pow256(n) / 2) <= ToSigned(u, n) < Pow256(n) / 2
    ensures ToSigned(u, n) % Pow256(n) == u
  {
    var p := Pow256(n);
    HalfOf(p, Pow256(n - 1));
    if u >= p / 2 {
      ModShift(u, p);
    } else {
      ModSmall(u, p);
    }
  }

  lemma HalfOf(p: int, q: int)
    requires p == 256 * q
    ensures p / 2 == 128 * q && p == 2 * (p / 2)
  {
  }

  lemma ModShift(u: int, p: int)
    requires 0 <= u < p
    ensures (u - p) % p == u
  {
  }

  lemma ModSmall(u: int, p: int)
    requires 0 <= u < p
    ensures u % p == u
  {
  }

  // ----- text -----

  /**
   * TextDecoder('utf-8') on a byte run, for runs of ASCII bytes: each byte
   * becomes the character with that code. A byte of 128 or more becomes the
   * replacement character U+FFFD, multi-byte sequences being out of scope.
   */
  function DecodeText(bs: seq<Byte>): string
  {
    if bs == [] then [] else [DecodeByte(bs[0])] + DecodeText(bs[1..])
  }

  /** The character a single byte decodes to. */
  function DecodeByte(b: Byte): char
  {
    if b < 128 then b as char else '\U{FFFD}'
  }

  /** One character per byte; an ASCII byte becomes the character with its code. */
  lemma {:induction false} DecodeTextFacts(bs: seq<Byte>)
    ensures |DecodeText(bs)| == |bs|
    ensures forall i :: 0 <= i < |bs| && bs[i] < 128 ==> DecodeText(bs)[i] as int == bs[i]
  {
    if bs != [] {
      DecodeTextFacts(bs[1..]);
      assert forall i :: 1 <= i < |bs| ==> DecodeText(bs)[i] == DecodeText(bs[1..])[i - 1];
    }
  }

  /** `.replace(/\0/g, '')`. */
  function RemoveNul(s: string): string
  {
    if s == [] then [] else (if s[0] == '\0' then [] else [s[0]]) + RemoveNul(s[1..])
  }

  /** What is left holds no NUL and is no longer than the input. */
  lemma {:induction false} RemoveNulFacts(s: string)
    ensures |RemoveNul(s)| <= |s|
    ensures forall i :: 0 <= i < |RemoveNul(s)| ==> RemoveNul(s)[i] != '\0'
  {
    if s != [] {
      RemoveNulFacts(s[1..]);
    }
  }

  /** The whitespace `.trim()` removes, among the characters DecodeText can produce. */
  predicate IsSpace(c: char)
  {
    c == ' ' || c == '\t' || c == '\n' || c == '\r' || c == '\U{B}' || c == '\U{C}'
  }

  function TrimStart(s: string): string
  {
    if s != [] && IsSpace(s[0]) then TrimStart(s[1..]) else s
  }

  /** Trimming the start leaves a suffix that does not start with whitespace. */
  lemma {:induction false} TrimStartFacts(s: string)
    ensures |TrimStart(s)| <= |s| && TrimStart(s) == s[|s| - |TrimStart(s)|..]
    ensures TrimStart(s) != [] ==> !IsSpace(TrimStart(s)[0])
  {
    if s != [] && IsSpace(s[0]) {
      TrimStartFacts(s[1..]);
      assert s[1..][|s| - 1 - |TrimStart(s)|..] == s[|s| - |TrimStart(s)|..];
    }
  }

  function TrimEnd(s: string): string
  {
    if s != [] && IsSpace(s[|s| - 1]) then TrimEnd(s[..|s| - 1]) else s
  }

  /** Trimming the end leaves a prefix that does not end with whitespace. */
  lemma {:induction false} TrimEndFacts(s: string)
    ensures |TrimEnd(s)| <= |s| && TrimEnd(s) == s[..|TrimEnd(s)|]
    ensures TrimEnd(s) != [] ==> !IsSpace(TrimEnd(s)[|TrimEnd(s)| - 1])
  {
    if s != [] && IsSpace(s[|s| - 1]) {
      TrimEndFacts(s[..|s| - 1]);
      assert s[..|s| - 1][..|TrimEnd(s)|] == s[..|TrimEnd(s)|];
    }
  }

  /** `.trim()`. */
  function Trim(s: string): string
  {
    TrimEnd(TrimStart(s))
  }

  /** What a 'string' read returns for the bytes it covers. */
  function CleanText(bs: seq<Byte>): string
  {
    Trim(RemoveNul(DecodeText(bs)))
  }

  /** The cleaned text holds no NUL, does not start or end with whitespace, and is no longer than the run. */
  lemma CleanTextFacts(bs: seq<Byte>)
    ensures |CleanText(bs)| <= |bs|
    ensures forall i :: 0 <= i < |CleanText(bs)| ==> CleanText(bs)[i] != '\0'
    ensures CleanText(bs) != [] ==> !IsSpace(CleanText(bs)[0]) && !IsSpace(CleanText(bs)[|CleanText(bs)| - 1])
  {
    var d := DecodeText(bs);
    var s := RemoveNul(d);
    var t := TrimStart(s);
    var r := TrimEnd(t);
    assert CleanText(bs) == r;
    DecodeTextFacts(bs);
    RemoveNulFacts(d);
    TrimStartFacts(s);
    TrimEndFacts(t);
    assert |r| <= |t| <= |s| <= |d| == |bs|;
    NoNulSuffix(s, t);
    NoNulPrefix(t, r);
    if r != [] {
      assert r[0] == t[0];
    }
  }

  lemma NoNulSuffix(s: string, t: string)
    requires forall i :: 0 <= i < |s| ==> s[i] != '\0'
    requires |t| <= |s| && t == s[|s| - |t|..]
    ensures forall i :: 0 <= i < |t| ==> t[i] != '\0'
  {
    assert forall i :: 0 <= i < |t| ==> t[i] == s[|s| - |t| + i];
  }

  lemma NoNulPrefix(t: string, r: string)
    requires forall i :: 0 <= i < |t| ==> t[i] != '\0'
    requires |r| <= |t| && r == t[..|r|]
    ensures forall i :: 0 <= i < |r| ==> r[i] != '\0'
  {
    assert forall i :: 0 <= i < |r| ==> r[i] == t[i];
  }

  /** Text already free of NUL and surrounding whitespace comes back unchanged. */
  lemma {:induction false} CleanIsIdempotent(s: string)
    requires forall i :: 0 <= i < |s| ==> s[i] != '\0'
    requires s != [] ==> !IsSpace(s[0]) && !IsSpace(s[|s| - 1])
    ensures Trim(RemoveNul(s)) == s
  {
    NoNulUnchanged(s);
  }

  lemma {:induction false} NoNulUnchanged(s: string)
    requires forall i :: 0 <= i < |s| ==> s[i] != '\0'
    ensures RemoveNul(s) == s
  {
    if s != [] {
      NoNulUnchanged(s[1..]);
    }
  }

  // ----- floating point -----

  /**
   * IEEE-754 decoding of 2-, 4- and 8-byte runs given most significant byte
   * first. It is a parameter of the model: nothing here depends on how it
   * decodes.
   */
  datatype FloatFormat = FloatFormat(half: seq<Byte> -> real, single: seq<Byte> -> real, double: seq<Byte> -> real)

  /** The bytes of a run most significant first, given the byte order it is stored in. */
  function MostSignificantFirst(bs: seq<Byte>, littleEndian: bool): seq<Byte>
  {
    if littleEndian then Reverse(bs) else bs
  }
}
