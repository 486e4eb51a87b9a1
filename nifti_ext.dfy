// load_nii_ext: the header extension of a NIfTI-1 file. After the usage,
// extension and byte-order checks it looks up where the extension ends and
// reads the four extender bytes at 348; as written it always returns an
// empty list, and its big-endian branch stops at an undeclared name.

module NiftiExtension {
  import opened JsValues
  import opened Bytes
  import opened FileCursor
  import opened HeaderFields
  import opened NiftiHeader

  const ExtUsageMessage := "Usage: ext = load_nii_ext(filename, data)"
  /** Where the extender bytes start, and where they end. */
  const ExtenderAt: nat := 348
  const ExtenderEnd: nat := 352

  /** end_of_ext: vox_offset when it is non-zero, else the length of the buffer (which a missing buffer cannot give). */
  function ExtensionEnd(content: Option<seq<Byte>>, voxOffset: real): Outcome<real>
  {
    if voxOffset != 0.0 then Ok(voxOffset)
    else if content.None? then Err(TypeError)
    else Ok(|content.value| as real)
  }

  /** What read_extension returns: the empty list, unless the read of the extender bytes throws. */
  function ReadExtensionSpec(content: Option<seq<Byte>>, voxOffset: real): Outcome<Value>
  {
    var end :- ExtensionEnd(content, voxOffset);
    if end > ExtenderEnd as real then
      match Access(content, ExtenderAt, ExtenderEnd - ExtenderAt)
      case Some(e) => Err(e)
      case None => Ok(Arr([]))
    else Ok(Arr([]))
  }

  /**
   * `read_extension(fid, vox_offset)`. The result is a fresh empty array
   * whose length stays 0, so the test `ext.length == 0` always holds and the
   * section loop after it is never reached.
   */
  method ReadExtension(fid: File, voxOffset: real, fmt: FloatFormat) returns (r: Outcome<Value>)
    modifies fid
    ensures fid.content == old(fid.content) && fid.littleEndian == old(fid.littleEndian)
    ensures r == ReadExtensionSpec(old(fid.content), voxOffset)
    ensures r.Ok? ==>
      fid.offset == (if ExtensionEnd(old(fid.content), voxOffset).value > ExtenderEnd as real then ExtenderEnd as real
                     else if voxOffset != 0.0 then old(fid.offset)
                     else |fid.content.value| as real)
  {
    var ext: seq<Value> := [];
    var endOfExt: real;
    if voxOffset != 0.0 {
      endOfExt := voxOffset;
    } else {
      var _ :- fid.Fseek(0.0, "eof");
      endOfExt := fid.Ftell();
    }
    if endOfExt > ExtenderEnd as real {
      var _ := fid.Fseek(ExtenderAt as real, "bof");
      WholeRead(fid.content, ExtenderAt, fid.littleEndian, 4, Uint8, fmt);
      var extension :- fid.Fread(4, TagOf(Uint8), fmt);
    }
    if |ext| == 0 {
      return Ok(Arr([]));
    }
    // `ext` is still the empty array here, so the section loop is unreachable.
    assert false;
  }

  /**
   * load_nii_ext(filename, data): the usage and extension errors, then, when
   * sizeof_hdr is 348 little-endian, read_extension with vox_offset (the
   * float32 at 108 for a .nii name, 0 otherwise); when it is 348 only
   * big-endian, the ReferenceError of the undeclared `new_ext`.
   */
  function LoadNiiExtSpec(filename: string, data: seq<Byte>, fmt: FloatFormat): Outcome<Value>
  {
    if filename == "" then Err(Thrown(ExtUsageMessage))
    else if !IsImageName(filename) then Err(Thrown(ExtensionMessage))
    else if |data| < 4 then Err(RangeError)
    else if FirstWord(data, true) == SizeofHdr then
      if Extension(filename) != ".nii" then ReadExtensionSpec(Some(data), 0.0)
      else if |data| < 112 then Err(RangeError)
      else ReadExtensionSpec(Some(data), RealAt(data, 108, true, Float32, fmt))
    else if FirstWord(data, false) != SizeofHdr then Err(Thrown(CorruptedMessage))
    else Err(ReferenceError)
  }

  /** `load_nii_ext(filename, data)`. */
  method LoadNiiExt(filename: string, data: seq<Byte>, fmt: FloatFormat) returns (r: Outcome<Value>)
    ensures r == LoadNiiExtSpec(filename, data, fmt)
  {
    if filename == "" {
      return Err(Thrown(ExtUsageMessage));
    }
    var machine := "ieee-le";
    var extension := Extension(filename);
    if extension != ".nii" && extension != ".hdr" && extension != ".img" {
      return Err(Thrown(ExtensionMessage));
    }
    var fid := new File("", machine);
    fid.Fopen(data);
    var voxOffset := 0.0;
    fid.Frewind();
    var ext;
    FirstRead(data, true, fmt);
    var first :- fid.Fread(1, TagOf(Int32), fmt);
    if StrictEq(first, Num(SizeofHdr as real)) {
      if extension == ".nii" {
        var _ := fid.Fseek(108.0, "bof");
        var v :- ReadOffset(fid, fmt);
        voxOffset := v;
      }
      ext :- ReadExtension(fid, voxOffset, fmt);
    } else {
      machine := "ieee-be";
      fid.littleEndian := false;
      fid.Frewind();
      FirstRead(data, false, fmt);
      // The first read succeeded, so this one, over the same four bytes, does too.
      var again := fid.Fread(1, TagOf(Int32), fmt);
      if !StrictEq(again.value, Num(SizeofHdr as real)) {
        return Err(Thrown(CorruptedMessage));
      }
      // `if (new_ext)`: the name is declared nowhere.
      return Err(ReferenceError);
    }
    fid.Fclose();
    return Ok(ext);
  }

  /** `fid.fread(1, 'float32')` at byte 108: vox_offset, or the RangeError of a buffer too short for it. */
  method ReadOffset(fid: File, fmt: FloatFormat) returns (r: Outcome<real>)
    requires fid.content.Some? && fid.offset == 108.0
    modifies fid
    ensures fid.content == old(fid.content) && fid.littleEndian == old(fid.littleEndian)
    ensures |fid.content.value| < 112 ==> r == Err(RangeError)
    ensures |fid.content.value| >= 112 ==> r == Ok(RealAt(fid.content.value, 108, fid.littleEndian, Float32, fmt))
  {
    TruncateWhole(108);
    var v :- fid.Fread(1, TagOf(Float32), fmt);
    return Ok(v.x);
  }

  // ----- what load_nii_ext promises -----

  /** Whatever the file holds, load_nii_ext never returns an extension section: it returns [] or throws. */
  lemma ExtensionAlwaysEmpty(filename: string, data: seq<Byte>, fmt: FloatFormat)
    ensures LoadNiiExtSpec(filename, data, fmt).Ok? ==> LoadNiiExtSpec(filename, data, fmt).value == Arr([])
  {
  }

  /**
   * A file whose sizeof_hdr is 348 only big-endian never loads: it fails with
   * the ReferenceError of `new_ext`; one where it is 348 in neither order is
   * reported as corrupted.
   */
  lemma BigEndianFails(filename: string, data: seq<Byte>, fmt: FloatFormat)
    requires filename != "" && IsImageName(filename) && |data| >= 4 && FirstWord(data, true) != SizeofHdr
    ensures FirstWord(data, false) == SizeofHdr ==> LoadNiiExtSpec(filename, data, fmt) == Err(ReferenceError)
    ensures FirstWord(data, false) != SizeofHdr ==> LoadNiiExtSpec(filename, data, fmt) == Err(Thrown(CorruptedMessage))
  {
  }

  /**
   * On the little-endian path the extender bytes are read only when the
   * extension's end lies past 352, and that read throws exactly when the
   * buffer ends before 352; a .hdr or .img name takes the end from the
   * buffer length, since vox_offset stays 0.
   */
  lemma ExtenderRead(content: seq<Byte>, voxOffset: real)
    ensures var end := if voxOffset != 0.0 then voxOffset else |content| as real;
      ReadExtensionSpec(Some(content), voxOffset) ==
        if end > ExtenderEnd as real && |content| < ExtenderEnd then Err(RangeError) else Ok(Arr([]))
  {
  }
}
