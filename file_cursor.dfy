// The FILE class: a read cursor over a byte buffer in the manner of MATLAB's
// fopen/fread/fseek. The cursor keeps an offset and a byte-order flag; each
// fread decodes values at the offset through the buffer's DataView and
// advances the offset by what it consumed.

module FileCursor {
  import opened JsValues
  import opened Bytes

  /** The type tags fread distinguishes. */
  datatype Kind = Int8 | Uint8 | Int16 | Uint16 | Int32 | Uint32 | Float16 | Float32 | Float64 | Text | Unknown

  /** The `switch (type)` of fread: 'char' reads as int8, and '' and 'uchar' as uint8. */
  function KindOf(tag: string): (k: Kind)
    ensures k == Unknown <==>
      tag !in {"int32", "int16", "char", "int8", "uint32", "uint16", "", "uchar", "uint8", "float64", "float32", "float16", "string"}
  {
    if tag == "int32" then Int32
    else if tag == "int16" then Int16
    else if tag == "char" || tag == "int8" then Int8
    else if tag == "uint32" then Uint32
    else if tag == "uint16" then Uint16
    else if tag == "" || tag == "uchar" || tag == "uint8" then Uint8
    else if tag == "float64" then Float64
    else if tag == "float32" then Float32
    else if tag == "float16" then Float16
    else if tag == "string" then Text
    else Unknown
  }

  /** A tag the source passes for each kind; KindOf maps it back. */
  function TagOf(k: Kind): (tag: string)
    ensures k != Unknown ==> KindOf(tag) == k
  {
    match k
    case Int8 => "char"
    case Uint8 => "uchar"
    case Int16 => "int16"
    case Uint16 => "uint16"
    case Int32 => "int32"
    case Uint32 => "uint32"
    case Float16 => "float16"
    case Float32 => "float32"
    case Float64 => "float64"
    case Text => "string"
    case Unknown => "unknown"
  }

  predicate IsNumeric(k: Kind)
  {
    k != Text && k != Unknown
  }

  /** The number of bytes one value of a numeric kind takes. */
  function Width(k: Kind): (w: nat)
    ensures IsNumeric(k) ==> w in {1, 2, 4, 8}
  {
    match k
    case Int8 => 1
    case Uint8 => 1
    case Int16 => 2
    case Uint16 => 2
    case Float16 => 2
    case Int32 => 4
    case Uint32 => 4
    case Float32 => 4
    case Float64 => 8
    case _ => 0
  }

  /** The value DataView's get method of a numeric kind returns for the bytes it covers. */
  function Decode(bs: seq<Byte>, littleEndian: bool, k: Kind, fmt: FloatFormat): Value
    requires IsNumeric(k) && |bs| == Width(k)
  {
    match k
    case Int8 => Num(ToSigned(LittleEndian(bs), 1) as real)
    case Uint8 => Num(LittleEndian(bs) as real)
    case Int16 => Num(ToSigned(Unsigned(bs, littleEndian), 2) as real)
    case Uint16 => Num(Unsigned(bs, littleEndian) as real)
    case Int32 => Num(ToSigned(Unsigned(bs, littleEndian), 4) as real)
    case Uint32 => Num(Unsigned(bs, littleEndian) as real)
    case Float16 => Num(fmt.half(MostSignificantFirst(bs, littleEndian)))
    case Float32 => Num(fmt.single(MostSignificantFirst(bs, littleEndian)))
    case Float64 => Num(fmt.double(MostSignificantFirst(bs, littleEndian)))
  }

  /**
   * The byte index DataView takes from a position: the position truncated
   * toward zero. A position in (-1, 0) becomes 0; one at -1 or below stays
   * negative, and the access rejects it.
   */
  function Truncate(x: real): int
  {
    if x >= 0.0 then x.Floor else -((-x).Floor)
  }

  /** A position that is a whole number of bytes. */
  predicate Whole(x: real)
  {
    x == x.Floor as real
  }

  /**
   * The byte index of get i of a run that starts at `offset`: the cursor
   * moves by whole widths and each get truncates its own position.
   */
  function Pos(offset: real, i: int, k: Kind): int
  {
    Truncate(offset + (i * Width(k)) as real)
  }

  /** One DataView get at byte index `offset`: a RangeError unless the value lies inside the buffer. */
  function GetAt(buf: seq<Byte>, offset: int, littleEndian: bool, k: Kind, fmt: FloatFormat): (r: Outcome<Value>)
    requires IsNumeric(k)
    ensures r.Err? ==> r.error == RangeError
  {
    if offset < 0 || offset + Width(k) > |buf| then Err(RangeError)
    else Ok(Decode(buf[offset..offset + Width(k)], littleEndian, k, fmt))
  }

  /**
   * The loop of fread for a count other than 1: `count` gets one after the
   * other, each advancing the offset by the width. The offset returned is
   * where the cursor stands afterwards, also when a get throws.
   */
  function ReadRun(content: Option<seq<Byte>>, offset: real, littleEndian: bool, count: nat, k: Kind, fmt: FloatFormat): (r: (Outcome<seq<Value>>, real))
    requires IsNumeric(k)
    decreases count
  {
    if count == 0 then (Ok([]), offset)
    else if content.None? then (Err(TypeError), offset)
    else match GetAt(content.value, Truncate(offset), littleEndian, k, fmt)
      case Err(e) => (Err(e), offset)
      case Ok(v) =>
        var (rest, end) := ReadRun(content, offset + Width(k) as real, littleEndian, count - 1, k, fmt);
        match rest
        case Err(e) => (Err(e), end)
        case Ok(vs) => (Ok([v] + vs), end)
  }

  /**
   * `fread(number, type)` on a cursor at `offset`: the value it returns (or
   * the exception it throws) and the offset afterwards. The offset is any
   * number fseek was given; each access truncates it to a byte index. A
   * missing buffer (before fopen, after fclose) makes every access a
   * TypeError; an unrecognised tag matches no case and returns undefined.
   */
  function ReadSpec(content: Option<seq<Byte>>, offset: real, littleEndian: bool, number: int, k: Kind, fmt: FloatFormat): (r: (Outcome<Value>, real))
  {
    if k == Unknown then (Ok(Undefined), offset)
    else if k == Text then
      var at := Truncate(offset);
      if content.None? then (Err(TypeError), offset)
      else if at < 0 || number < 0 || at + number > |content.value| then (Err(RangeError), offset)
      else (Ok(Str(CleanText(content.value[at..at + number]))), offset + number as real)
    else if number == 1 then
      if content.None? then (Err(TypeError), offset)
      else match GetAt(content.value, Truncate(offset), littleEndian, k, fmt)
        case Err(e) => (Err(e), offset)
        case Ok(v) => (Ok(v), offset + Width(k) as real)
    else
      var (vs, end) := ReadRun(content, offset, littleEndian, if number < 0 then 0 else number, k, fmt);
      match vs
      case Err(e) => (Err(e), end)
      case Ok(items) => (Ok(Arr(items)), end)
  }

  /** The origins fseek distinguishes. */
  datatype Origin = Bof | Cof | Eof | OtherOrigin

  function OriginOf(origin: string): (o: Origin)
    ensures o == Bof <==> origin == "bof"
    ensures o == Cof <==> origin == "cof"
    ensures o == Eof <==> origin == "eof"
  {
    if origin == "bof" then Bof else if origin == "cof" then Cof else if origin == "eof" then Eof else OtherOrigin
  }

  class File {
    var filename: string
    var offset: real
    var littleEndian: bool
    var content: Option<seq<Byte>>

    /** `new FILE(filename, machine)`: offset 0, little-endian exactly for 'ieee-le', no buffer yet. */
    constructor(filename: string, machine: string)
      ensures this.filename == filename && offset == 0.0 && content == None
      ensures littleEndian <==> machine == "ieee-le"
    {
      this.filename := filename;
      offset := 0.0;
      littleEndian := machine == "ieee-le";
      content := None;
    }

    /** `fopen(data)`: bind the buffer and go to its start. */
    method Fopen(data: seq<Byte>)
      modifies this
      ensures content == Some(data) && offset == 0.0
      ensures filename == old(filename) && littleEndian == old(littleEndian)
    {
      content := Some(data);
      offset := 0.0;
    }

    /** `fclose()`: drop the buffer and go back to offset 0. */
    method Fclose()
      modifies this
      ensures content == None && offset == 0.0
      ensures filename == old(filename) && littleEndian == old(littleEndian)
    {
      content := None;
      offset := 0.0;
    }

    /** `fread(number, type)`. */
    method Fread(number: int, tag: string, fmt: FloatFormat) returns (r: Outcome<Value>)
      modifies this
      ensures (r, offset) == ReadSpec(old(content), old(offset), littleEndian, number, KindOf(tag), fmt)
      ensures content == old(content) && filename == old(filename) && littleEndian == old(littleEndian)
    {
      var k := KindOf(tag);
      if k == Unknown {
        r := Ok(Undefined);
      } else if k == Text {
        r := ReadText(number, fmt);
      } else if number == 1 {
        r := ReadOne(k, fmt);
      } else {
        RunStart(content, offset, littleEndian, number, k, fmt);
        r := ReadValues(number, k, fmt);
      }
    }

    /** The 'string' case: a view of `number` bytes at the truncated offset, decoded and cleaned. */
    method ReadText(number: int, fmt: FloatFormat) returns (r: Outcome<Value>)
      modifies this
      ensures (r, offset) == ReadSpec(old(content), old(offset), littleEndian, number, Text, fmt)
      ensures content == old(content) && filename == old(filename) && littleEndian == old(littleEndian)
    {
      if content.None? {
        return Err(TypeError);
      }
      var buf := content.value;
      var at := Truncate(offset);
      if at < 0 || number < 0 || at + number > |buf| {
        return Err(RangeError);
      }
      r := Ok(Str(CleanText(buf[at..at + number])));
      offset := offset + number as real;
    }

    /** A numeric case with number == 1: one get, returned as a scalar. */
    method ReadOne(k: Kind, fmt: FloatFormat) returns (r: Outcome<Value>)
      requires IsNumeric(k)
      modifies this
      ensures (r, offset) == ReadSpec(old(content), old(offset), littleEndian, 1, k, fmt)
      ensures content == old(content) && filename == old(filename) && littleEndian == old(littleEndian)
    {
      if content.None? {
        return Err(TypeError);
      }
      var x := GetAt(content.value, Truncate(offset), littleEndian, k, fmt);
      if x.Err? {
        return Err(x.error);
      }
      offset := offset + Width(k) as real;
      return Ok(x.value);
    }

    /** A numeric case with any other number: the loop pushing `number` gets into a list. */
    method ReadValues(number: int, k: Kind, fmt: FloatFormat) returns (r: Outcome<Value>)
      requires IsNumeric(k)
      modifies this
      ensures (r, offset) == Continue([], ReadRun(old(content), old(offset), littleEndian, if number < 0 then 0 else number, k, fmt))
      ensures content == old(content) && filename == old(filename) && littleEndian == old(littleEndian)
    {
      var items: seq<Value> := [];
      var i := 0;
      ghost var count: nat := if number < 0 then 0 else number;
      ghost var goal := Continue([], ReadRun(content, offset, littleEndian, count, k, fmt));
      while i < number
        invariant 0 <= i && (i <= number || i == 0)
        invariant goal == Continue(items, ReadRun(content, offset, littleEndian, count - i, k, fmt))
        invariant content == old(content) && filename == old(filename) && littleEndian == old(littleEndian)
        decreases number - i
      {
        var x := ReadNext(count - i, items, k, fmt);
        if x.Err? {
          return Err(x.error);
        }
        items := items + [x.value];
        i := i + 1;
      }
      assert count - i == 0 && items + [] == items;
      r := Ok(Arr(items));
    }

    /**
     * One pass of that loop: the get at the truncated offset, pushed, and
     * the offset moved one width on; what is left of the run is one get shorter.
     */
    method ReadNext(ghost n: nat, ghost items: seq<Value>, k: Kind, fmt: FloatFormat) returns (x: Outcome<Value>)
      requires IsNumeric(k) && n > 0
      modifies this
      ensures x.Err? ==> Continue(items, ReadRun(content, old(offset), littleEndian, n, k, fmt)) == (Err(x.error), offset)
      ensures x.Ok? ==>
        Continue(items, ReadRun(content, old(offset), littleEndian, n, k, fmt))
        == Continue(items + [x.value], ReadRun(content, offset, littleEndian, n - 1, k, fmt))
      ensures content == old(content) && filename == old(filename) && littleEndian == old(littleEndian)
    {
      if content.None? {
        return Err(TypeError);
      }
      x := GetAt(content.value, Truncate(offset), littleEndian, k, fmt);
      if x.Err? {
        RunFail(content, offset, littleEndian, n, k, fmt, items);
        return;
      }
      RunStep(content, offset, littleEndian, n, k, fmt, items, x.value);
      offset := offset + Width(k) as real;
    }

    /**
     * `fseek(offset, origin)`: the offset is stored as given, fraction and
     * sign included; 'eof' reads the buffer length, which throws when there
     * is no buffer.
     */
    method Fseek(target: real, origin: string) returns (r: Outcome<()>)
      modifies this
      ensures OriginOf(origin) == Bof ==> r == Ok(()) && offset == target
      ensures OriginOf(origin) == Cof ==> r == Ok(()) && offset == old(offset) + target
      ensures OriginOf(origin) == Eof && content.Some? ==> r == Ok(()) && offset == |content.value| as real + target
      ensures OriginOf(origin) == Eof && content.None? ==> r == Err(TypeError) && offset == old(offset)
      ensures OriginOf(origin) == OtherOrigin ==> r == Ok(()) && offset == old(offset)
      ensures content == old(content) && filename == old(filename) && littleEndian == old(littleEndian)
    {
      if origin == "bof" {
        offset := target;
      } else if origin == "cof" {
        offset := offset + target;
      } else if origin == "eof" {
        if content.None? {
          return Err(TypeError);
        }
        offset := |content.value| as real + target;
      }
      r := Ok(());
    }

    /** `frewind()`: fseek(0, 'bof'). */
    method Frewind()
      modifies this
      ensures offset == 0.0
      ensures content == old(content) && filename == old(filename) && littleEndian == old(littleEndian)
    {
      var _ := Fseek(0.0, "bof");
    }

    /** `ftell()`. */
    method Ftell() returns (position: real)
      ensures position == offset
    {
      position := offset;
    }
  }

  /** What is left of the loop's result once `items` have been read. */
  function Continue(items: seq<Value>, rest: (Outcome<seq<Value>>, real)): (Outcome<Value>, real)
  {
    match rest.0
    case Err(e) => (Err(e), rest.1)
    case Ok(vs) => (Ok(Arr(items + vs)), rest.1)
  }

  lemma RunStart(content: Option<seq<Byte>>, offset: real, littleEndian: bool, number: int, k: Kind, fmt: FloatFormat)
    requires IsNumeric(k) && number != 1
    ensures ReadSpec(content, offset, littleEndian, number, k, fmt)
         == Continue([], ReadRun(content, offset, littleEndian, if number < 0 then 0 else number, k, fmt))
  {
    var rest := ReadRun(content, offset, littleEndian, if number < 0 then 0 else number, k, fmt);
    if rest.0.Ok? {
      assert [] + rest.0.value == rest.0.value;
    }
  }

  lemma RunFail(content: Option<seq<Byte>>, offset: real, littleEndian: bool, n: nat, k: Kind, fmt: FloatFormat,
                items: seq<Value>)
    requires IsNumeric(k) && n > 0 && content.Some?
    requires GetAt(content.value, Truncate(offset), littleEndian, k, fmt).Err?
    ensures Continue(items, ReadRun(content, offset, littleEndian, n, k, fmt)) == (Err(RangeError), offset)
  {
  }

  lemma RunStep(content: Option<seq<Byte>>, offset: real, littleEndian: bool, n: nat, k: Kind, fmt: FloatFormat,
                items: seq<Value>, v: Value)
    requires IsNumeric(k) && n > 0 && content.Some?
    requires GetAt(content.value, Truncate(offset), littleEndian, k, fmt) == Ok(v)
    ensures Continue(items, ReadRun(content, offset, littleEndian, n, k, fmt))
         == Continue(items + [v], ReadRun(content, offset + Width(k) as real, littleEndian, n - 1, k, fmt))
  {
    var rest := ReadRun(content, offset + Width(k) as real, littleEndian, n - 1, k, fmt);
    var whole := ReadRun(content, offset, littleEndian, n, k, fmt);
    if rest.0.Ok? {
      assert whole == (Ok([v] + rest.0.value), rest.1);
      assert items + ([v] + rest.0.value) == (items + [v]) + rest.0.value;
    } else {
      assert whole == (Err(rest.0.error), rest.1);
    }
  }

  // ----- what fread promises -----

  /** Moving the start one width on moves every get of the run one place on. */
  lemma StepPos(offset: real, i: int, k: Kind)
    ensures Pos(offset + Width(k) as real, i, k) == Pos(offset, i + 1, k)
  {
    var w := Width(k);
    assert w + i * w == (i + 1) * w;
    assert offset + w as real + (i * w) as real == offset + ((i + 1) * w) as real;
  }

  /**
   * A run of `count` gets succeeds exactly when the buffer is there and
   * every get's truncated position lies inside it; it then holds one value
   * per get, the i-th decoded at byte Pos(offset, i), and ends count * width
   * further on. A failed run throws TypeError without a buffer and
   * RangeError otherwise.
   */
  lemma {:induction false} ReadRunFacts(content: Option<seq<Byte>>, offset: real, littleEndian: bool, count: nat, k: Kind, fmt: FloatFormat)
    requires IsNumeric(k)
    ensures RunFacts(content, offset, littleEndian, count, k, fmt)
    decreases count
  {
    if count > 0 && content.Some? {
      ReadRunFacts(content, offset + Width(k) as real, littleEndian, count - 1, k, fmt);
      RunCons(content, offset, littleEndian, count, k, fmt);
    }
  }

  /** What ReadRunFacts promises about one run. */
  ghost predicate RunFacts(content: Option<seq<Byte>>, offset: real, littleEndian: bool, count: nat, k: Kind, fmt: FloatFormat)
    requires IsNumeric(k)
  {
    var (r, end) := ReadRun(content, offset, littleEndian, count, k, fmt);
    (r.Ok? <==> count == 0 || (content.Some? && forall i :: 0 <= i < count ==> GetAt(content.value, Pos(offset, i, k), littleEndian, k, fmt).Ok?)) &&
    (r.Ok? ==> |r.value| == count && end == offset + (count * Width(k)) as real) &&
    (r.Ok? ==> forall i :: 0 <= i < count ==> GetAt(content.value, Pos(offset, i, k), littleEndian, k, fmt) == Ok(r.value[i])) &&
    (r.Err? ==> r.error == if content.None? then TypeError else RangeError)
  }

  /** The facts about a run follow from those about the run one get shorter that starts one width on. */
  lemma RunCons(content: Option<seq<Byte>>, offset: real, littleEndian: bool, count: nat, k: Kind, fmt: FloatFormat)
    requires IsNumeric(k) && count > 0 && content.Some?
    requires RunFacts(content, offset + Width(k) as real, littleEndian, count - 1, k, fmt)
    ensures RunFacts(content, offset, littleEndian, count, k, fmt)
  {
    var first := GetAt(content.value, Truncate(offset), littleEndian, k, fmt);
    var rest := ReadRun(content, offset + Width(k) as real, littleEndian, count - 1, k, fmt).0;
    if first.Err? {
      RunConsFirst(content, offset, littleEndian, count, k, fmt);
    } else if rest.Err? {
      RunConsRest(content, offset, littleEndian, count, k, fmt);
    } else {
      RunConsOk(content, offset, littleEndian, count, k, fmt);
    }
  }

  /** A run whose first get fails throws that get's RangeError. */
  lemma RunConsFirst(content: Option<seq<Byte>>, offset: real, littleEndian: bool, count: nat, k: Kind, fmt: FloatFormat)
    requires IsNumeric(k) && count > 0 && content.Some?
    requires GetAt(content.value, Truncate(offset), littleEndian, k, fmt).Err?
    ensures RunFacts(content, offset, littleEndian, count, k, fmt)
  {
    assert Pos(offset, 0, k) == Truncate(offset);
    assert ReadRun(content, offset, littleEndian, count, k, fmt) == (Err(RangeError), offset);
  }

  /** A run whose first get succeeds and whose rest fails throws the rest's exception. */
  lemma RunConsRest(content: Option<seq<Byte>>, offset: real, littleEndian: bool, count: nat, k: Kind, fmt: FloatFormat)
    requires IsNumeric(k) && count > 0 && content.Some?
    requires RunFacts(content, offset + Width(k) as real, littleEndian, count - 1, k, fmt)
    requires GetAt(content.value, Truncate(offset), littleEndian, k, fmt).Ok?
    requires ReadRun(content, offset + Width(k) as real, littleEndian, count - 1, k, fmt).0.Err?
    ensures RunFacts(content, offset, littleEndian, count, k, fmt)
  {
    var next := offset + Width(k) as real;
    var (rest, e2) := ReadRun(content, next, littleEndian, count - 1, k, fmt);
    assert ReadRun(content, offset, littleEndian, count, k, fmt) == (Err(rest.error), e2);
    var i :| 0 <= i < count - 1 && GetAt(content.value, Pos(next, i, k), littleEndian, k, fmt).Err?;
    StepPos(offset, i, k);
    assert GetAt(content.value, Pos(offset, i + 1, k), littleEndian, k, fmt).Err?;
  }

  /** A run whose first get and rest succeed holds the first value followed by the rest. */
  lemma RunConsOk(content: Option<seq<Byte>>, offset: real, littleEndian: bool, count: nat, k: Kind, fmt: FloatFormat)
    requires IsNumeric(k) && count > 0 && content.Some?
    requires RunFacts(content, offset + Width(k) as real, littleEndian, count - 1, k, fmt)
    requires GetAt(content.value, Truncate(offset), littleEndian, k, fmt).Ok?
    requires ReadRun(content, offset + Width(k) as real, littleEndian, count - 1, k, fmt).0.Ok?
    ensures RunFacts(content, offset, littleEndian, count, k, fmt)
  {
    var w := Width(k);
    var next := offset + w as real;
    var (rest, e2) := ReadRun(content, next, littleEndian, count - 1, k, fmt);
    var first := GetAt(content.value, Truncate(offset), littleEndian, k, fmt);
    assert ReadRun(content, offset, littleEndian, count, k, fmt) == (Ok([first.value] + rest.value), e2);
    assert w + (count - 1) * w == count * w;
    assert e2 == offset + (count * w) as real;
    RunIndexes(content.value, offset, littleEndian, count, k, fmt, first.value, rest.value);
  }

  /** The i-th value of a run is the get at Pos(offset, i), when the rest of the run starts one width on. */
  lemma RunIndexes(buf: seq<Byte>, offset: real, littleEndian: bool, count: nat, k: Kind, fmt: FloatFormat, v: Value, vs: seq<Value>)
    requires IsNumeric(k) && count > 0 && |vs| == count - 1
    requires GetAt(buf, Truncate(offset), littleEndian, k, fmt) == Ok(v)
    requires forall i :: 0 <= i < count - 1 ==> GetAt(buf, Pos(offset + Width(k) as real, i, k), littleEndian, k, fmt) == Ok(vs[i])
    ensures forall i :: 0 <= i < count ==> GetAt(buf, Pos(offset, i, k), littleEndian, k, fmt) == Ok(([v] + vs)[i])
  {
    forall i | 0 <= i < count
      ensures GetAt(buf, Pos(offset, i, k), littleEndian, k, fmt) == Ok(([v] + vs)[i])
    {
      if i > 0 {
        StepPos(offset, i - 1, k);
        assert ([v] + vs)[i] == vs[i - 1];
      } else {
        assert Pos(offset, 0, k) == Truncate(offset);
      }
    }
  }

  /** Truncation rounds toward zero: down for a position that is not negative, up otherwise. */
  lemma TruncateBounds(x: real)
    ensures x >= 0.0 ==> Truncate(x) >= 0 && Truncate(x) as real <= x < Truncate(x) as real + 1.0
    ensures x < 0.0 ==> Truncate(x) <= 0 && Truncate(x) as real - 1.0 < x <= Truncate(x) as real
  {
  }

  /** Adding a whole number m moves the floor by m. */
  lemma FloorShift(x: real, m: int)
    ensures (x + m as real).Floor == x.Floor + m
  {
  }

  /** A whole position truncates to itself. */
  lemma TruncateWhole(n: int)
    ensures Truncate(n as real) == n
  {
  }

  /**
   * Where a get lands m bytes past the cursor. From a whole byte position,
   * or from any position that is not negative, it reads at the truncated
   * start plus m. From a negative position with a fraction it reads one
   * byte before that once its own position is past 0.
   */
  lemma TruncateShift(x: real, m: nat)
    ensures Whole(x) || x >= 0.0 ==> Truncate(x + m as real) == Truncate(x) + m
    ensures !Whole(x) && x < 0.0 && x + m as real > 0.0 ==> Truncate(x + m as real) == Truncate(x) + m - 1
  {
    FloorShift(x, m);
    if Whole(x) {
      TruncateWhole(x.Floor);
      TruncateWhole(x.Floor + m);
      assert x + m as real == (x.Floor + m) as real;
    } else if x < 0.0 {
      assert (-x).Floor == -x.Floor - 1;
    }
  }

  /** The position of get i of a run, in the terms of TruncateShift. */
  lemma PosFacts(offset: real, i: nat, k: Kind)
    ensures Whole(offset) || offset >= 0.0 ==> Pos(offset, i, k) == Truncate(offset) + i * Width(k)
    ensures !Whole(offset) && offset < 0.0 && offset + (i * Width(k)) as real > 0.0 ==>
      Pos(offset, i, k) == Truncate(offset) + i * Width(k) - 1
  {
    MulLeMono(0, i, Width(k));
    TruncateShift(offset, i * Width(k));
  }

  /**
   * From position -0.5 an int16 run reads bytes 0-1, 1-2, 3-4, 5-6 and so
   * on: the first get is rounded up to byte 0 and every later one down.
   */
  lemma NegativeFraction(i: nat)
    ensures Pos(-0.5, i, Int16) == if i == 0 then 0 else 2 * i - 1
  {
  }

  /** From a whole byte position, get i of a run reads at that position plus i widths. */
  lemma WholePos(at: int, i: int, k: Kind)
    ensures Pos(at as real, i, k) == at + i * Width(k)
  {
    TruncateWhole(at + i * Width(k));
  }

  /** Every get of a run lies in the buffer exactly when the whole run does. */
  lemma RunInBuffer(buf: seq<Byte>, at: int, littleEndian: bool, count: nat, k: Kind, fmt: FloatFormat)
    requires IsNumeric(k) && count > 0
    ensures (forall i :: 0 <= i < count ==> GetAt(buf, at + i * Width(k), littleEndian, k, fmt).Ok?) <==>
      0 <= at && at + count * Width(k) <= |buf|
  {
    var w := Width(k);
    if forall i :: 0 <= i < count ==> GetAt(buf, at + i * w, littleEndian, k, fmt).Ok? {
      assert GetAt(buf, at + 0 * w, littleEndian, k, fmt).Ok?;
      assert GetAt(buf, at + (count - 1) * w, littleEndian, k, fmt).Ok?;
      MulSucc(count - 1, w);
    }
    if 0 <= at && at + count * w <= |buf| {
      forall i | 0 <= i < count
        ensures GetAt(buf, at + i * w, littleEndian, k, fmt).Ok?
      {
        MulLeMono(i + 1, count, w);
        MulSucc(i, w);
        MulLeMono(0, i, w);
      }
    }
  }

  /**
   * A run from a whole byte position reads at that position plus i widths,
   * and succeeds exactly when the whole run lies inside the buffer.
   */
  lemma WholeRunFacts(content: Option<seq<Byte>>, at: int, littleEndian: bool, count: nat, k: Kind, fmt: FloatFormat)
    requires IsNumeric(k)
    ensures var (r, end) := ReadRun(content, at as real, littleEndian, count, k, fmt);
      (r.Ok? <==> count == 0 || (content.Some? && 0 <= at && at + count * Width(k) <= |content.value|)) &&
      (r.Ok? ==> |r.value| == count && end == (at + count * Width(k)) as real) &&
      (r.Ok? ==> forall i :: 0 <= i < count ==> GetAt(content.value, at + i * Width(k), littleEndian, k, fmt) == Ok(r.value[i])) &&
      (r.Err? ==> r.error == if content.None? then TypeError else RangeError)
  {
    ReadRunFacts(content, at as real, littleEndian, count, k, fmt);
    forall i | 0 <= i < count
      ensures Pos(at as real, i, k) == at + i * Width(k)
    {
      WholePos(at, i, k);
    }
    if count > 0 && content.Some? {
      RunInBuffer(content.value, at, littleEndian, count, k, fmt);
    }
  }

  /** The number of values a numeric fread returns: one scalar for number == 1, else a list of max(number, 0). */
  function Count(number: int): nat
  {
    if number == 1 then 1 else if number < 0 then 0 else number
  }

  /**
   * fread of a numeric type returns a number when number == 1 and an array
   * of max(number, 0) numbers otherwise; it succeeds exactly when each
   * get's truncated position lies inside the buffer, and then advances the
   * offset by the count times the width (1, 2, 4 or 8 bytes).
   */
  lemma NumericRead(content: Option<seq<Byte>>, offset: real, littleEndian: bool, number: int, k: Kind, fmt: FloatFormat)
    requires IsNumeric(k)
    ensures var (r, end) := ReadSpec(content, offset, littleEndian, number, k, fmt);
      (r.Ok? <==> (number != 1 && number <= 0) ||
                  (content.Some? && forall i :: 0 <= i < Count(number) ==> GetAt(content.value, Pos(offset, i, k), littleEndian, k, fmt).Ok?)) &&
      (r.Ok? ==> end == offset + (Count(number) * Width(k)) as real) &&
      (r.Ok? && number == 1 ==> r.value == GetAt(content.value, Truncate(offset), littleEndian, k, fmt).value && r.value.Num?) &&
      (r.Ok? && number != 1 ==> r.value.Arr? && |r.value.items| == Count(number)) &&
      (r.Err? ==> r.error == if content.None? then TypeError else RangeError)
  {
    if number == 1 {
      SingleRead(content, offset, littleEndian, k, fmt);
    } else {
      ListRead(content, offset, littleEndian, number, k, fmt);
    }
  }

  /** The case number == 1 of NumericRead: one get at the truncated offset, unwrapped. */
  lemma SingleRead(content: Option<seq<Byte>>, offset: real, littleEndian: bool, k: Kind, fmt: FloatFormat)
    requires IsNumeric(k)
    ensures var (r, end) := ReadSpec(content, offset, littleEndian, 1, k, fmt);
      (r.Ok? <==> content.Some? && GetAt(content.value, Pos(offset, 0, k), littleEndian, k, fmt).Ok?) &&
      (r.Ok? ==> end == offset + Width(k) as real && r.value == GetAt(content.value, Truncate(offset), littleEndian, k, fmt).value && r.value.Num?) &&
      (r.Err? ==> r.error == if content.None? then TypeError else RangeError)
  {
    assert Pos(offset, 0, k) == Truncate(offset);
  }

  /** The case number != 1 of NumericRead: the list the run of Count(number) gets returns. */
  lemma ListRead(content: Option<seq<Byte>>, offset: real, littleEndian: bool, number: int, k: Kind, fmt: FloatFormat)
    requires IsNumeric(k) && number != 1
    ensures var (r, end) := ReadSpec(content, offset, littleEndian, number, k, fmt);
      var (run, e) := ReadRun(content, offset, littleEndian, Count(number), k, fmt);
      end == e && (r.Ok? <==> run.Ok?) && (r.Ok? ==> r.value == Arr(run.value)) && (r.Err? ==> r.error == run.error)
    ensures RunFacts(content, offset, littleEndian, Count(number), k, fmt)
  {
    RunStart(content, offset, littleEndian, number, k, fmt);
    ReadRunFacts(content, offset, littleEndian, Count(number), k, fmt);
    var rest := ReadRun(content, offset, littleEndian, Count(number), k, fmt);
    if rest.0.Ok? {
      assert [] + rest.0.value == rest.0.value;
    }
  }

  /**
   * The same from a whole byte position: the read succeeds exactly when
   * its count of values lies inside the buffer from there.
   */
  lemma WholeRead(content: Option<seq<Byte>>, at: int, littleEndian: bool, number: int, k: Kind, fmt: FloatFormat)
    requires IsNumeric(k)
    ensures var (r, end) := ReadSpec(content, at as real, littleEndian, number, k, fmt);
      (r.Ok? <==> (number != 1 && number <= 0) ||
                  (content.Some? && 0 <= at && at + Count(number) * Width(k) <= |content.value|)) &&
      (r.Ok? ==> end == (at + Count(number) * Width(k)) as real) &&
      (r.Err? ==> r.error == if content.None? then TypeError else RangeError)
  {
    if number != 1 {
      RunStart(content, at as real, littleEndian, number, k, fmt);
      WholeRunFacts(content, at, littleEndian, Count(number), k, fmt);
    }
  }

  /** A numeric read of two or more values that succeeds is a flat array of that many numbers. */
  lemma ReadNumbers(content: Option<seq<Byte>>, offset: real, littleEndian: bool, number: int, k: Kind, fmt: FloatFormat)
    requires IsNumeric(k) && number >= 2 && ReadSpec(content, offset, littleEndian, number, k, fmt).0.Ok?
    ensures var v := ReadSpec(content, offset, littleEndian, number, k, fmt).0.value;
      v.Arr? && |v.items| == number && forall j :: 0 <= j < number ==> v.items[j].Num?
  {
    ReadRunFacts(content, offset, littleEndian, number, k, fmt);
    var run := ReadRun(content, offset, littleEndian, number, k, fmt).0;
    assert ReadSpec(content, offset, littleEndian, number, k, fmt).0 == Ok(Arr(run.value));
    forall j | 0 <= j < number
      ensures run.value[j].Num?
    {
      var g := GetAt(content.value, Pos(offset, j, k), littleEndian, k, fmt);
      assert g == Ok(run.value[j]);
      assert g.value.Num?;
    }
  }

  /** fread with a tag the switch does not list returns undefined and leaves the offset alone. */
  lemma UnknownRead(content: Option<seq<Byte>>, offset: real, littleEndian: bool, number: int, tag: string, fmt: FloatFormat)
    requires KindOf(tag) == Unknown
    ensures ReadSpec(content, offset, littleEndian, number, KindOf(tag), fmt) == (Ok(Undefined), offset)
  {
  }

  /**
   * A 'string' read of n bytes succeeds exactly when they lie inside the
   * buffer from the truncated offset, advances by exactly n, and returns
   * text with no NUL character and no surrounding whitespace.
   */
  lemma TextRead(content: Option<seq<Byte>>, offset: real, littleEndian: bool, number: int, fmt: FloatFormat)
    ensures var (r, end) := ReadSpec(content, offset, littleEndian, number, Text, fmt);
      var at := Truncate(offset);
      (r.Ok? <==> content.Some? && 0 <= at && 0 <= number && at + number <= |content.value|) &&
      (r.Ok? ==> end == offset + number as real && r.value.Str? && |r.value.s| <= number &&
                 (forall i :: 0 <= i < |r.value.s| ==> r.value.s[i] != '\0') &&
                 (r.value.s != [] ==> !IsSpace(r.value.s[0]) && !IsSpace(r.value.s[|r.value.s| - 1]))) &&
      (r.Err? ==> r.error == if content.None? then TypeError else RangeError)
  {
    var at := Truncate(offset);
    if content.Some? && 0 <= at && 0 <= number && at + number <= |content.value| {
      CleanTextFacts(content.value[at..at + number]);
    }
  }

  /** A big-endian get of some bytes returns what a little-endian get of the reversed bytes returns. */
  lemma BigEndianGet(bs: seq<Byte>, k: Kind, fmt: FloatFormat)
    requires IsNumeric(k) && |bs| == Width(k)
    ensures Decode(bs, false, k, fmt) == Decode(Reverse(bs), true, k, fmt)
  {
    BigEndianIsReversed(bs);
    assert Reverse(Reverse(bs)) == bs;
    if |bs| == 1 {
      assert Reverse(bs) == bs;
    }
  }

  /** The integer kinds return whole numbers in the range of their width. */
  lemma IntegerRange(bs: seq<Byte>, littleEndian: bool, k: Kind, fmt: FloatFormat)
    requires k in {Int8, Uint8, Int16, Uint16, Int32, Uint32} && |bs| == Width(k)
    ensures var v := Decode(bs, littleEndian, k, fmt);
      v.Num? && v.x == v.x.Floor as real &&
      (k == Int8 ==> -128.0 <= v.x < 128.0) && (k == Uint8 ==> 0.0 <= v.x < 256.0) &&
      (k == Int16 ==> -32768.0 <= v.x < 32768.0) && (k == Uint16 ==> 0.0 <= v.x < 65536.0) &&
      (k == Int32 ==> -2147483648.0 <= v.x < 2147483648.0) && (k == Uint32 ==> 0.0 <= v.x < 4294967296.0)
  {
    var u := Unsigned(bs, littleEndian);
    LittleEndianBound(bs);
    if !littleEndian {
      BigEndianIsReversed(bs);
      LittleEndianBound(Reverse(bs));
    }
    assert Pow256(1) == 256 && Pow256(2) == 65536 && Pow256(4) == 4294967296;
    SignedRange(u, |bs|);
    SignedRange(LittleEndian(bs), |bs|);
  }
}
