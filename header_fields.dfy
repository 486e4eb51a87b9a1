// Typed field readers over the FILE cursor, used by the header parsers: one
// integer, a run of integers, one float, a run of floats, a text field. Each
// is a single fread whose result is given a record type, and each is stated
// against the bytes at an absolute position of the buffer.

module HeaderFields {
  import opened JsValues
  import opened Bytes
  import opened FileCursor

  predicate IsInteger(k: Kind)
  {
    k in {Int8, Uint8, Int16, Uint16, Int32, Uint32}
  }

  predicate IsFloat(k: Kind)
  {
    k in {Float16, Float32, Float64}
  }

  /** The integer an integer kind stores in `bs`. */
  function IntegerOf(bs: seq<Byte>, littleEndian: bool, k: Kind): int
    requires IsInteger(k) && |bs| == Width(k)
  {
    match k
    case Int8 => ToSigned(LittleEndian(bs), 1)
    case Uint8 => LittleEndian(bs)
    case Int16 => ToSigned(Unsigned(bs, littleEndian), 2)
    case Uint16 => Unsigned(bs, littleEndian)
    case Int32 => ToSigned(Unsigned(bs, littleEndian), 4)
    case Uint32 => Unsigned(bs, littleEndian)
  }

  /** The integer at absolute byte position `at`. */
  function IntAt(buf: seq<Byte>, at: nat, littleEndian: bool, k: Kind): int
    requires IsInteger(k) && at + Width(k) <= |buf|
  {
    IntegerOf(buf[at..at + Width(k)], littleEndian, k)
  }

  /** The float at absolute byte position `at`. */
  function RealAt(buf: seq<Byte>, at: nat, littleEndian: bool, k: Kind, fmt: FloatFormat): real
    requires IsFloat(k) && at + Width(k) <= |buf|
  {
    Decode(buf[at..at + Width(k)], littleEndian, k, fmt).x
  }

  /** `n` consecutive integers from `at`. */
  function IntsAt(buf: seq<Byte>, at: nat, n: nat, littleEndian: bool, k: Kind): (r: seq<int>)
    requires IsInteger(k) && at + n * Width(k) <= |buf|
    ensures |r| == n
  {
    seq(n, i requires 0 <= i < n => (MulLeMono(i + 1, n, Width(k)); IntAt(buf, at + i * Width(k), littleEndian, k)))
  }

  /** `n` consecutive floats from `at`. */
  function RealsAt(buf: seq<Byte>, at: nat, n: nat, littleEndian: bool, k: Kind, fmt: FloatFormat): (r: seq<real>)
    requires IsFloat(k) && at + n * Width(k) <= |buf|
    ensures |r| == n
  {
    seq(n, i requires 0 <= i < n => (MulLeMono(i + 1, n, Width(k)); RealAt(buf, at + i * Width(k), littleEndian, k, fmt)))
  }

  /** The cleaned text of `n` bytes from `at`. */
  function TextAt(buf: seq<Byte>, at: nat, n: nat): string
    requires at + n <= |buf|
  {
    CleanText(buf[at..at + n])
  }

  /** Where a read of `n` bytes at `at` fails: no buffer is a TypeError, a run outside it a RangeError. */
  function Access(content: Option<seq<Byte>>, at: int, n: nat): (r: Option<Exception>)
    ensures r == None <==> content.Some? && 0 <= at && at + n <= |content.value|
  {
    if content.None? then Some(TypeError)
    else if at < 0 || at + n > |content.value| then Some(RangeError)
    else None
  }

  // The readers below are called only for fields inside a block whose
  // extent the header reader has checked, so each read lies inside the buffer.

  /** `fid.fread(1, tag)` for the tag of an integer kind. */
  method ReadInt(fid: File, k: Kind, fmt: FloatFormat, ghost buf: seq<Byte>, ghost at: nat, ghost le: bool) returns (x: int)
    requires IsInteger(k) && fid.content == Some(buf) && fid.offset == at as real && fid.littleEndian == le && at + Width(k) <= |buf|
    modifies fid
    ensures fid.content == Some(buf) && fid.littleEndian == le
    ensures x == IntAt(buf, at, le, k)
    ensures fid.offset == (at + Width(k)) as real
  {
    TruncateWhole(at);
    var v := fid.Fread(1, TagOf(k), fmt);
    x := v.value.x.Floor;
  }

  /** `fid.fread(1, tag)` for the tag of a float kind. */
  method ReadReal(fid: File, k: Kind, fmt: FloatFormat, ghost buf: seq<Byte>, ghost at: nat, ghost le: bool) returns (x: real)
    requires IsFloat(k) && fid.content == Some(buf) && fid.offset == at as real && fid.littleEndian == le && at + Width(k) <= |buf|
    modifies fid
    ensures fid.content == Some(buf) && fid.littleEndian == le
    ensures x == RealAt(buf, at, le, k, fmt)
    ensures fid.offset == (at + Width(k)) as real
  {
    TruncateWhole(at);
    var v := fid.Fread(1, TagOf(k), fmt);
    x := v.value.x;
  }

  /** `fid.fread(n, tag)` for n >= 2 and the tag of an integer kind: the list as a sequence of integers. */
  method ReadInts(fid: File, n: nat, k: Kind, fmt: FloatFormat, ghost buf: seq<Byte>, ghost at: nat, ghost le: bool) returns (xs: seq<int>)
    requires IsInteger(k) && n >= 2
    requires fid.content == Some(buf) && fid.offset == at as real && fid.littleEndian == le && at + n * Width(k) <= |buf|
    modifies fid
    ensures fid.content == Some(buf) && fid.littleEndian == le
    ensures xs == IntsAt(buf, at, n, le, k)
    ensures fid.offset == (at + n * Width(k)) as real
  {
    RunRead(fid.content, at, fid.littleEndian, n, k, fmt);
    var v := fid.Fread(n, TagOf(k), fmt);
    var items := v.value.items;
    ghost var goal := IntsAt(buf, at, n, le, k);
    IntsElements(buf, at, n, le, k, fmt, items);
    xs := seq(n, i requires 0 <= i < n => items[i].x.Floor);
    assert xs == goal by {
      forall i | 0 <= i < n
        ensures xs[i] == goal[i]
      {
        assert items[i].x.Floor == goal[i];
      }
    }
  }

  /** `fid.fread(n, tag)` for n >= 2 and the tag of a float kind: the list as a sequence of reals. */
  method ReadReals(fid: File, n: nat, k: Kind, fmt: FloatFormat, ghost buf: seq<Byte>, ghost at: nat, ghost le: bool) returns (xs: seq<real>)
    requires IsFloat(k) && n >= 2
    requires fid.content == Some(buf) && fid.offset == at as real && fid.littleEndian == le && at + n * Width(k) <= |buf|
    modifies fid
    ensures fid.content == Some(buf) && fid.littleEndian == le
    ensures xs == RealsAt(buf, at, n, le, k, fmt)
    ensures fid.offset == (at + n * Width(k)) as real
  {
    RunRead(fid.content, at, fid.littleEndian, n, k, fmt);
    var v := fid.Fread(n, TagOf(k), fmt);
    var items := v.value.items;
    ghost var goal := RealsAt(buf, at, n, le, k, fmt);
    RealsElements(buf, at, n, le, k, fmt, items);
    xs := seq(n, i requires 0 <= i < n => items[i].x);
    assert xs == goal by {
      forall i | 0 <= i < n
        ensures xs[i] == goal[i]
      {
        assert items[i] == Num(goal[i]);
      }
    }
  }

  /** `fid.fread(n, 'string')`. */
  method ReadText(fid: File, n: nat, fmt: FloatFormat, ghost buf: seq<Byte>, ghost at: nat, ghost le: bool) returns (s: string)
    requires fid.content == Some(buf) && fid.offset == at as real && fid.littleEndian == le && at + n <= |buf|
    modifies fid
    ensures fid.content == Some(buf) && fid.littleEndian == le
    ensures s == TextAt(buf, at, n)
    ensures fid.offset == (at + n) as real
  {
    TruncateWhole(at);
    var v := fid.Fread(n, "string", fmt);
    s := v.value.s;
  }

  /** fread of n >= 2 numbers fails as Access says, and otherwise returns one get per position. */
  lemma RunRead(content: Option<seq<Byte>>, at: int, littleEndian: bool, n: nat, k: Kind, fmt: FloatFormat)
    requires IsNumeric(k) && n >= 2
    ensures var (r, end) := ReadSpec(content, at as real, littleEndian, n, k, fmt);
      match Access(content, at, n * Width(k))
      case Some(e) => r == Err(e)
      case None => r.Ok? && r.value.Arr? && |r.value.items| == n && end == (at + n * Width(k)) as real &&
                   forall i :: 0 <= i < n ==> GetAt(content.value, at + i * Width(k), littleEndian, k, fmt) == Ok(r.value.items[i])
  {
    RunStart(content, at as real, littleEndian, n, k, fmt);
    WholeRunFacts(content, at, littleEndian, n, k, fmt);
    var run := ReadRun(content, at as real, littleEndian, n, k, fmt);
    if run.0.Ok? {
      assert [] + run.0.value == run.0.value;
    }
  }

  lemma IntsElements(buf: seq<Byte>, at: nat, n: nat, littleEndian: bool, k: Kind, fmt: FloatFormat, items: seq<Value>)
    requires IsInteger(k) && at + n * Width(k) <= |buf| && |items| == n
    requires forall i :: 0 <= i < n ==> GetAt(buf, at + i * Width(k), littleEndian, k, fmt) == Ok(items[i])
    ensures forall i :: 0 <= i < n ==> items[i].Num? && items[i].x.Floor == IntsAt(buf, at, n, littleEndian, k)[i]
  {
    forall i | 0 <= i < n
      ensures items[i].Num? && items[i].x.Floor == IntsAt(buf, at, n, littleEndian, k)[i]
    {
      MulLeMono(i + 1, n, Width(k));
      assert GetAt(buf, at + i * Width(k), littleEndian, k, fmt) == Ok(items[i]);
    }
  }

  lemma RealsElements(buf: seq<Byte>, at: nat, n: nat, littleEndian: bool, k: Kind, fmt: FloatFormat, items: seq<Value>)
    requires IsFloat(k) && at + n * Width(k) <= |buf| && |items| == n
    requires forall i :: 0 <= i < n ==> GetAt(buf, at + i * Width(k), littleEndian, k, fmt) == Ok(items[i])
    ensures forall i :: 0 <= i < n ==> items[i] == Num(RealsAt(buf, at, n, littleEndian, k, fmt)[i])
  {
    forall i | 0 <= i < n
      ensures items[i] == Num(RealsAt(buf, at, n, littleEndian, k, fmt)[i])
    {
      MulLeMono(i + 1, n, Width(k));
      assert GetAt(buf, at + i * Width(k), littleEndian, k, fmt) == Ok(items[i]);
    }
  }
}
