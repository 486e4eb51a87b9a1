# A verified model of the NIfTI loader of an sEEG planning application

This project models, in Dafny, the part of a stereo-EEG planning web
application that has real algorithmic content: the loader for NIfTI-1 and
Analyze 7.5 brain volumes under `src/utils/Nifti_viewer/`, with its two
orientation passes. It also models the small rules buried in the
contact-designation and stimulation-planning pages. The JavaScript is
modelled as written. Where it throws, the model returns the same error.
Where it misbehaves, lemmas state the behaviour as it is. The floating-point
construction of the affine matrix R in `change_hdr` is not modelled: R is a
parameter, and what the loader then does with it (inverting it, then
`get_orient`) is.

The model follows the source file by file:

| Dafny file | module | models |
|---|---|---|
| js_values.dfy | JsValues | the JavaScript values the loader passes around (numbers, strings, booleans, null, undefined, nested arrays) and the errors it can throw |
| bytes.dfy | Bytes | little- and big-endian integers over bytes, and ASCII text with NULs removed and whitespace trimmed |
| file_cursor.dfy | FileCursor | the `FILE` class: a byte buffer, a real offset (kept as given, truncated toward zero by each get) and a byte order, with `fopen`, `fclose`, `fread`, `fseek`, `frewind` and `ftell` |
| header_fields.dfy | HeaderFields | typed reads at fixed header positions |
| nifti_header.dfy | NiftiHeader | `load_nii_hdr`: extension check, byte-order detection from `sizeof_hdr == 348`, the three header blocks, and the file type from the magic string |
| analyze_header.dfy | AnalyzeHeader | the Analyze 7.5 header reader |
| nifti_ext.dfy | NiftiExtension | `load_nii_ext` and `read_extension` |
| matlab.dfy, matlab_layout.dfy, matlab_permute.dfy, matrix.dfy, inverse.dfy | Matlab, MatlabLayout, MatlabPermute, MatlabMatrix, MatlabInverse | the MATLAB-compatibility library: `isnumeric`, `unique`, `sub2ind`, `reshape`, `isequal`, `permute`, `transpose`, in-place `flip`, `prod`, `size`, `ndims`, `find`, `det`, `diag`, `bitset` and `inv` |
| image_read.dfy | NiftiImage | the parts of `read_image` both loaders share: argument checks, dimension clamping, frame offsets, the glmax/glmin range and unwrapping |
| untouch_loader.dfy | UntouchLoader | `load_untouch_nifti.js`, the loader the viewer uses |
| load_nifti.dfy | NiftiLoader | `load_nifti.js`: `load_nii_img`, `check_argin` and `read_image` |
| xform_nii.dfy | XformNii | `xform_nii` and `change_hdr`: scaling, the sform/qform choice, the quaternion check, units, and the reordering along `rot_orient` and `flip_orient` |
| load_nii.dfy | NiftiLoad | `load_nii`: header, then image, then `xform_nii` |
| anatomical.dfy | AnatomicalConvention | `nifti_anatomical_convention` as a class whose fields are the header rows, `dim`, `pixdim`, the image and the added `rotation`, `rot_dim` and `flip` |
| seq_ops.dfy | SeqOps | `Array.prototype.filter` and the stable `Array.prototype.sort` |
| electrodes.dfy | Electrodes | the electrode and contact records of the pages |
| contact_designation.dfy, designation_page.dfy, resection_page.dfy | ContactDesignation, DesignationPage, ResectionPage | the contact-designation pages |
| contact_csv.dfy | ContactCsv | the `contact` record of `contact_csv.js` |
| functional_tests.dfy, contact_selection.dfy | FunctionalTestSelection, ContactSelection | the stimulation-planning pages |

Code that changes state step by step is written as imperative Dafny, and
each such method is proved equal to a specification function. This
covers:

- the `FILE` cursor;
- the header readers;
- the frame loops of `read_image`;
- the in-place `flip`, `permute` and `inv`;
- the gathering loops of `xform_nii`;
- the anatomical conversion.

Recursive and expression-only code is written as functions, with lemmas
relating them.

A few behaviours of the JavaScript as written are recorded as lemmas
rather than corrected:

- `'Q'` tests `sform_code`.
- `get_units` returns a pair that is then compared with 1.
- `flip` returns `undefined`, and that result is assigned.
- The scaling branch of `xform_nii` reads `hdr` before its declaration.
- The `!filetype` usage checks reject Analyze files.
- `load_nifti.js` uses an undeclared `img_tmp` and passes scalar orders to `permute`.
- The `contact` constructor reads the undeclared `_x`.

## Model

| member | source | states |
|---|---|---|
| FileCursor.KindOf | src/utils/Nifti_viewer/FILE.js:59-221 | the tag selects a case of the switch: 'char' reads as int8, '', 'uchar' and 'uint8' as uint8, 'string' as text, and any other tag matches no case |
| FileCursor.Width | src/utils/Nifti_viewer/FILE.js:61-213 | each numeric kind advances the offset by 1, 2, 4 or 8 bytes per value |
| FileCursor.GetAt | src/utils/Nifti_viewer/FILE.js:64 | one DataView get fails with a RangeError, and only with that, when its bytes do not all lie in the buffer |
| FileCursor.OriginOf | src/utils/Nifti_viewer/FILE.js:233-245 | the origin string 'bof', 'cof' or 'eof' selects its case; any other string selects none |
| FileCursor.File.constructor | src/utils/Nifti_viewer/FILE.js:24-29 | a new cursor is at offset 0 with no buffer, and is little-endian exactly when machine is 'ieee-le' |
| FileCursor.File.Fopen | src/utils/Nifti_viewer/FILE.js:35-39 | binds the buffer and resets the offset to 0; the byte order stays |
| FileCursor.File.Fclose | src/utils/Nifti_viewer/FILE.js:44-48 | clears the buffer and resets the offset to 0 |
| FileCursor.File.Fread | src/utils/Nifti_viewer/FILE.js:56-224 | the value returned (or the exception thrown) and the new offset are those of the reference definition ReadSpec; buffer and byte order stay |
| FileCursor.File.ReadText | src/utils/Nifti_viewer/FILE.js:217-221 | the 'string' case agrees with ReadSpec: `number` bytes decoded and cleaned, offset advanced by `number` |
| FileCursor.File.ReadOne | src/utils/Nifti_viewer/FILE.js:62-66 | a numeric read with number == 1 agrees with ReadSpec: one get, returned as a scalar |
| FileCursor.File.ReadValues | src/utils/Nifti_viewer/FILE.js:67-76 | the loop pushing `number` gets agrees with the run ReadRun describes, including where the offset stands when a get throws |
| FileCursor.File.ReadNext | src/utils/Nifti_viewer/FILE.js:70-73 | one pass of the loop gets at the truncated offset and moves the real offset one width on, leaving a run one get shorter, or stops with the get's exception |
| FileCursor.File.Fseek | src/utils/Nifti_viewer/FILE.js:231-247 | 'bof' sets the offset to the target as given, fraction and sign included, 'cof' adds the target to it, 'eof' sets buffer length + target (a TypeError without a buffer), any other origin changes nothing |
| FileCursor.File.Frewind | src/utils/Nifti_viewer/FILE.js:252-255 | the offset becomes 0 and nothing else changes, as fseek(0, 'bof') does |
| FileCursor.File.Ftell | src/utils/Nifti_viewer/FILE.js:261-264 | returns the offset and changes nothing |
| FileCursor.ReadRunFacts | src/utils/Nifti_viewer/FILE.js:67-76 | a run of gets from a real offset succeeds exactly when the buffer is there and every get at trunc(offset + i·width) lies inside it; the i-th value is the get at that byte; the run ends count·width further on; a failure is a TypeError without a buffer and a RangeError otherwise |
| FileCursor.WholeRunFacts | src/utils/Nifti_viewer/FILE.js:67-76 | from a whole byte position `at`, the run succeeds exactly when bytes at .. at + count·width lie in the buffer, and the i-th value is the get at at + i·width |
| FileCursor.RunInBuffer | src/utils/Nifti_viewer/FILE.js:70-73 | every get of a run lies in the buffer exactly when the run's whole extent does |
| FileCursor.TruncateBounds | src/utils/Nifti_viewer/FILE.js:64 | DataView turns a real position into the whole number next to it toward zero |
| FileCursor.TruncateShift | src/utils/Nifti_viewer/FILE.js:64-65 | from a whole or non-negative position, a get m bytes on lands at the truncated position + m; from a negative position with a fraction, once past 0 it lands one byte before that |
| FileCursor.PosFacts | src/utils/Nifti_viewer/FILE.js:70-73 | the i-th get of a run lands at trunc(offset) + i·width from a whole or non-negative offset, and one byte earlier from a negative offset with a fraction once past 0 |
| FileCursor.NegativeFraction | src/utils/Nifti_viewer/FILE.js:70-73 | an int16 run from offset -0.5 reads at bytes 0, 1, 3, 5, … |
| FileCursor.NumericRead | src/utils/Nifti_viewer/FILE.js:56-216 | a numeric read returns a scalar for number == 1 and a list of max(number, 0) values otherwise, succeeds exactly when every get at trunc(offset + i·width) lies in the buffer, and then advances the real offset by count × width |
| FileCursor.SingleRead | src/utils/Nifti_viewer/FILE.js:62-66 | a read of one number succeeds exactly when the get at the truncated offset does, returns that number and advances by one width |
| FileCursor.ListRead | src/utils/Nifti_viewer/FILE.js:67-76 | a read of number ≠ 1 values is the run of max(number, 0) gets, wrapped as a list, with the run's exception on failure |
| FileCursor.WholeRead | src/utils/Nifti_viewer/FILE.js:56-216 | from a whole byte position, a numeric read succeeds exactly when its count × width bytes lie in the buffer, and then ends that far on |
| FileCursor.ReadNumbers | src/utils/Nifti_viewer/FILE.js:67-76 | a successful read of two or more numbers is a flat list of exactly that many numbers |
| FileCursor.UnknownRead | src/utils/Nifti_viewer/FILE.js:58-223 | an unrecognised tag returns undefined and leaves the offset unchanged |
| FileCursor.TextRead | src/utils/Nifti_viewer/FILE.js:217-221 | a 'string' read succeeds exactly when its n bytes from the truncated offset lie in the buffer, advances the real offset by exactly n, and returns text with no NUL and no surrounding whitespace |
| FileCursor.BigEndianGet | src/utils/Nifti_viewer/FILE.js:64 | a big-endian get returns what a little-endian get of the reversed bytes returns |
| FileCursor.IntegerRange | src/utils/Nifti_viewer/FILE.js:61-164 | the integer kinds return whole numbers within the range of their width and signedness |
| Bytes.LittleEndianBound | src/utils/Nifti_viewer/FILE.js:113-164 | an unsigned n-byte value lies in [0, 256^n) |
| Bytes.BigEndianIsReversed | src/utils/Nifti_viewer/FILE.js:64 | reading bytes big-endian equals reading them reversed little-endian |
| Bytes.EncodeLittleEndian | src/utils/Nifti_viewer/FILE.js:147-164 | the inverse of the unsigned little-endian read: n bytes for a value modulo 256^n |
| Bytes.DecodeEncode | src/utils/Nifti_viewer/FILE.js:147-164 | encoding a value that fits and reading it back gives the value |
| Bytes.EncodeDecode | src/utils/Nifti_viewer/FILE.js:147-164 | reading bytes and encoding the value at the same width gives the bytes back |
| Bytes.SignedRange | src/utils/Nifti_viewer/FILE.js:61-112 | a signed n-byte read lies in [−256^n/2, 256^n/2) and agrees with the unsigned read modulo 256^n |
| Bytes.DecodeTextFacts | src/utils/Nifti_viewer/FILE.js:219 | the decoder gives one character per byte, and an ASCII byte becomes the character with its code |
| Bytes.RemoveNulFacts | src/utils/Nifti_viewer/FILE.js:219 | removing NULs leaves no NUL anywhere, not only at the end |
| Bytes.TrimStartFacts | src/utils/Nifti_viewer/FILE.js:219 | trimming the start leaves a suffix that does not start with whitespace |
| Bytes.TrimEndFacts | src/utils/Nifti_viewer/FILE.js:219 | trimming the end leaves a prefix that does not end with whitespace |
| Bytes.CleanTextFacts | src/utils/Nifti_viewer/FILE.js:217-221 | the text of a 'string' read has no NUL, does not start or end with whitespace, and is no longer than the bytes read |
| Bytes.CleanIsIdempotent | src/utils/Nifti_viewer/FILE.js:219 | text already free of NULs and surrounding whitespace is returned unchanged |
| HeaderFields.Access | src/utils/Nifti_viewer/FILE.js:64 | a read of n bytes at a position fails exactly when there is no buffer (TypeError) or the bytes leave it (RangeError) |
| HeaderFields.ReadInt | src/utils/Nifti_viewer/FILE.js:62-66 | reading one integer field returns the integer stored at that byte position and advances by its width |
| HeaderFields.ReadReal | src/utils/Nifti_viewer/FILE.js:184-188 | reading one float field returns the float stored at that byte position and advances by its width |
| HeaderFields.ReadInts | src/utils/Nifti_viewer/FILE.js:67-76 | reading n integers returns the n integers stored from that position and advances by n × width |
| HeaderFields.ReadReals | src/utils/Nifti_viewer/FILE.js:189-197 | reading n floats returns the n floats stored from that position and advances by n × width |
| HeaderFields.ReadText | src/utils/Nifti_viewer/FILE.js:217-221 | reading an n-byte text field returns the cleaned text of those bytes and advances by n |
| HeaderFields.RunRead | src/utils/Nifti_viewer/FILE.js:67-76 | a read of n ≥ 2 numbers fails exactly where Access says and otherwise returns one get per position |
| NiftiHeader.CodeGuard | src/utils/Nifti_viewer/load_nii_hdr.js:65 | the guard compares a boolean with a string, so it never holds |
| NiftiHeader.ApplyCodeGuard | src/utils/Nifti_viewer/load_nii_hdr.js:65-68 | qform_code and sform_code are returned exactly as read, whatever the magic string |
| NiftiHeader.FileType | src/utils/Nifti_viewer/load_nii_hdr.js:47-52 | filetype is 2 exactly for magic 'n+1', 1 exactly for 'ni1' and 0 for every other magic |
| NiftiHeader.ReadHeaderKeyIn | src/utils/Nifti_viewer/load_nii_hdr.js:92-102 | on a buffer that holds them, the header_key fields are the values stored at their nifti_1_header positions, ending at byte 40 |
| NiftiHeader.ReadHeaderKey | src/utils/Nifti_viewer/load_nii_hdr.js:73-103 | rewinds, then returns the header_key block read from byte 0 (or the exception of a short buffer), leaving the cursor at 40 |
| NiftiHeader.ReadDimensions | src/utils/Nifti_viewer/load_nii_hdr.js:149-156 | dim, intent_p1..3, intent_code, datatype, bitpix and slice_start are the values at byte offsets 0..34 of the block |
| NiftiHeader.ReadScaling | src/utils/Nifti_viewer/load_nii_hdr.js:157-160 | pixdim, vox_offset, scl_slope and scl_inter are the values at offsets 36..76 of the block |
| NiftiHeader.ReadTiming | src/utils/Nifti_viewer/load_nii_hdr.js:161-167 | slice_end, slice_code, xyzt_units, cal_max, cal_min, slice_duration and toffset are the values at offsets 80..96 |
| NiftiHeader.ReadImageDimensionIn | src/utils/Nifti_viewer/load_nii_hdr.js:147-171 | on a buffer that holds it, the image_dimension block is read field by field and the cursor ends 108 bytes on |
| NiftiHeader.ReadImageDimension | src/utils/Nifti_viewer/load_nii_hdr.js:105-172 | returns the 108-byte image_dimension block at the cursor's whole byte position, or the exception of a short buffer |
| NiftiHeader.ReadDescription | src/utils/Nifti_viewer/load_nii_hdr.js:197-200 | descrip, aux_file, qform_code and sform_code are the values at offsets 0..106 of the block |
| NiftiHeader.ReadQuaternion | src/utils/Nifti_viewer/load_nii_hdr.js:201-206 | quatern_b..qoffset_z are the six floats at offsets 108..128 of the block |
| NiftiHeader.ReadAffineRows | src/utils/Nifti_viewer/load_nii_hdr.js:207-209 | srow_x, srow_y and srow_z are the three rows of four floats at offsets 132, 148 and 164 |
| NiftiHeader.ReadDataHistoryIn | src/utils/Nifti_viewer/load_nii_hdr.js:195-216 | on a buffer that holds it, the data_history block is read field by field, then the originator from byte 253, ending at 263 |
| NiftiHeader.ReadDataHistory | src/utils/Nifti_viewer/load_nii_hdr.js:174-217 | returns the 200-byte data_history block at the cursor's whole byte position plus the originator re-read from byte 253, or the exception of a short buffer |
| NiftiHeader.ReadHeader | src/utils/Nifti_viewer/load_nii_hdr.js:58-71 | returns the three blocks read back to back from byte 0 in the cursor's byte order |
| NiftiHeader.FirstRead | src/utils/Nifti_viewer/load_nii_hdr.js:33 | the int32 read at byte 0 of an opened buffer gives sizeof_hdr in the chosen byte order, or a RangeError on a buffer shorter than 4 bytes |
| NiftiHeader.LoadNiiHdr | src/utils/Nifti_viewer/load_nii_hdr.js:9-56 | agrees with the reference definition LoadNiiHdrSpec: the usage and extension errors, then little-endian when sizeof_hdr reads 348 that way, else big-endian when it does so, else the corrupted-file error |
| NiftiHeader.PrefixAndExtension | src/utils/Nifti_viewer/load_nii_hdr.js:17-25 | a supported name is at least four characters long and is its prefix followed by its extension |
| NiftiHeader.HeaderExtent | src/utils/Nifti_viewer/load_nii_hdr.js:58-71 | the header is read exactly when the buffer holds all 348 bytes, and a RangeError is thrown otherwise |
| NiftiHeader.HeaderOffsets | src/utils/Nifti_viewer/load_nii_hdr.js:94-214 | dim lies at byte 40, datatype at 70, bitpix at 72, pixdim at 76, vox_offset at 108, glmax at 140, qform_code at 252, srow_x at 280, magic at 344 and the originator at 253, as in nifti_1_header |
| NiftiHeader.LoadedByteOrder | src/utils/Nifti_viewer/load_nii_hdr.js:14-55 | a loaded header comes in the byte order in which sizeof_hdr reads 348 ('ieee-le' first); its sizeof_hdr is 348, its filetype follows the magic and its prefix is the name minus the last four characters |
| NiftiHeader.LoadFailures | src/utils/Nifti_viewer/load_nii_hdr.js:10-45 | load fails with the usage error for an empty name, the extension error for other endings, a RangeError for a short buffer, and the literal corrupted-file message when sizeof_hdr is 348 in neither byte order |
| AnalyzeHeader.ReadAnalyzeDims | src/utils/Nifti_viewer/load_untouch0_nii_hdr.js:103-109 | dim, vox_units, cal_units, unused1, datatype, bitpix and dim_un0 are the values at offsets 0..34 of the dbh.h block |
| AnalyzeHeader.ReadAnalyzeScaling | src/utils/Nifti_viewer/load_untouch0_nii_hdr.js:110-116 | pixdim, vox_offset, roi_scale, funused1, funused2, cal_max and cal_min are the values at offsets 36..88 |
| AnalyzeHeader.ReadAnalyzeDimensionIn | src/utils/Nifti_viewer/load_untouch0_nii_hdr.js:101-122 | on a buffer that holds it, the Analyze image_dimension block is read field by field and the cursor ends 108 bytes on |
| AnalyzeHeader.ReadAnalyzeDimension | src/utils/Nifti_viewer/load_untouch0_nii_hdr.js:62-123 | returns the 108-byte Analyze image_dimension block at the cursor's whole byte position, or the exception of a short buffer |
| AnalyzeHeader.ReadAnalyzeIdentity | src/utils/Nifti_viewer/load_untouch0_nii_hdr.js:151-154 | descrip, aux_file, orient (one signed byte) and the five int16 originator values are read at offsets 0..105 |
| AnalyzeHeader.ReadAnalyzeScan | src/utils/Nifti_viewer/load_untouch0_nii_hdr.js:155-160 | generated, scannum, patient_id, exp_date, exp_time and hist_un0 are the texts at offsets 115..165 |
| AnalyzeHeader.ReadAnalyzeCounts | src/utils/Nifti_viewer/load_untouch0_nii_hdr.js:161-168 | views through smin are the eight int32 values at offsets 168..196 |
| AnalyzeHeader.ReadAnalyzeHistoryIn | src/utils/Nifti_viewer/load_untouch0_nii_hdr.js:149-170 | on a buffer that holds it, the Analyze data_history block is read field by field and the cursor ends 200 bytes on |
| AnalyzeHeader.ReadAnalyzeHistory | src/utils/Nifti_viewer/load_untouch0_nii_hdr.js:125-171 | returns the 200-byte Analyze data_history block at the cursor's whole byte position, or the exception of a short buffer |
| AnalyzeHeader.ReadAnalyzeHeader | src/utils/Nifti_viewer/load_untouch0_nii_hdr.js:20-28 | returns the three Analyze blocks read back to back from byte 0, with no guard on any field, ending at 348 |
| AnalyzeHeader.LoadUntouch0NiiHdr | src/utils/Nifti_viewer/load_untouch0_nii_hdr.js:9-18 | reads the Analyze header from byte 0 in the byte order the caller names, with no sizeof_hdr check |
| AnalyzeHeader.AnalyzeExtent | src/utils/Nifti_viewer/load_untouch0_nii_hdr.js:20-28 | the Analyze header is read exactly when the buffer holds all 348 bytes, and a RangeError is thrown otherwise |
| AnalyzeHeader.AnalyzeOffsets | src/utils/Nifti_viewer/load_untouch0_nii_hdr.js:103-154 | datatype lies at byte 70, pixdim at 76, vox_offset at 108, glmax at 140, orient at 252 and the originator at 253, as in dbh.h |
| AnalyzeHeader.SharedFields | src/utils/Nifti_viewer/load_untouch0_nii_hdr.js:51-154 | on the same bytes the Analyze and NIfTI-1 readers agree on sizeof_hdr, dim, datatype, bitpix, pixdim, vox_offset, glmax and glmin, and on the originator at 253 |
| NiftiExtension.ReadExtension | src/utils/Nifti_viewer/load_nii_ext.js:89-130 | agrees with ReadExtensionSpec: end_of_ext is vox_offset when non-zero, else the buffer length; the extender bytes at 348 are read only past 352; the result is always [] unless that read throws |
| NiftiExtension.LoadNiiExt | src/utils/Nifti_viewer/load_nii_ext.js:33-87 | agrees with the reference definition LoadNiiExtSpec: the usage and extension errors, the little-endian path with vox_offset from byte 108 only for '.nii', and the ReferenceError on the big-endian path |
| NiftiExtension.ReadOffset | src/utils/Nifti_viewer/load_nii_ext.js:59-60 | vox_offset is the float32 at byte 108, or a RangeError when the buffer ends before byte 112 |
| NiftiExtension.ExtensionAlwaysEmpty | src/utils/Nifti_viewer/load_nii_ext.js:92-114 | whatever the file holds, a successful load returns [] |
| NiftiExtension.BigEndianFails | src/utils/Nifti_viewer/load_nii_ext.js:66-83 | sizeof_hdr 348 only big-endian always fails with the ReferenceError of `new_ext`; 348 in neither order gives the corrupted-file message |
| NiftiExtension.ExtenderRead | src/utils/Nifti_viewer/load_nii_ext.js:92-108 | the extender bytes are read only when end_of_ext exceeds 352, and that read throws exactly when the buffer ends before 352; for a .hdr/.img name end_of_ext is the buffer length |
| Matlab.IsNumericLeaves | src/utils/Nifti_viewer/matlab_functions.js:40-58 | isnumeric holds exactly for numbers and for arrays all of whose nested leaves are numbers |
| Matlab.IsNumericSeqLeaves | src/utils/Nifti_viewer/matlab_functions.js:48-55 | the element loop accepts an array exactly when every nested leaf of every element is a number |
| Matlab.Unique | src/utils/Nifti_viewer/matlab_functions.js:68-71 | unique keeps every element of its input and no other, with no duplicates and no more elements than the input |
| Matlab.UniqueFirstOccurrenceOrder | src/utils/Nifti_viewer/matlab_functions.js:68-71 | the result lists the distinct elements in the order of their first occurrence in the input |
| Matlab.UniqueKeepsLength | src/utils/Nifti_viewer/matlab_functions.js:68-71 | the result has the input's length exactly when the input has no duplicates, the test callers use to detect repeats |
| Matlab.ProdAppend | src/utils/Nifti_viewer/matlab_functions.js:300-302 | the product of a concatenation is the product of the products |
| Matlab.ProdReverse | src/utils/Nifti_viewer/matlab_functions.js:300-302 | the product does not depend on the order of the factors, so reversing the sizes keeps it |
| Matlab.ProdPositive | src/utils/Nifti_viewer/matlab_functions.js:300-302 | the product of positive sizes is at least 1 (and prod([]) is 1) |
| Matlab.FirstBadSubscript | src/utils/Nifti_viewer/matlab_functions.js:92-98 | names the first dimension whose subscript is negative or not below its size, every earlier one being in bounds, and names none exactly when all are in bounds |
| Matlab.Sub2ind | src/utils/Nifti_viewer/matlab_functions.js:83-103 | the index/multiplier loop agrees with the reference definition: the count-mismatch error, the first out-of-bounds error, or Σ subs[i]·Π_{j<i} sizes[j] |
| Matlab.FirstBadIsFirst | src/utils/Nifti_viewer/matlab_functions.js:92-98 | the error names dimension i when subscript i is out of bounds and every earlier one is in bounds |
| Matlab.LinearIndexBounds | src/utils/Nifti_viewer/matlab_functions.js:83-103 | in-bounds subscripts give an index in [0, Π sizes) |
| Matlab.LinearIndexFirstFastest | src/utils/Nifti_viewer/matlab_functions.js:92-100 | the first subscript varies fastest: index = s0 + d0 · index(rest) |
| Matlab.LinearIndexInjective | src/utils/Nifti_viewer/matlab_functions.js:83-103 | distinct in-bounds subscript lists never share a linear index |
| Matlab.Sub2indSpecCases | src/utils/Nifti_viewer/matlab_functions.js:83-103 | sub2ind throws exactly on a count mismatch or an out-of-bounds subscript, and otherwise returns an index in [0, Π sizes) |
| Matlab.SizeOfShape | src/utils/Nifti_viewer/matlab_functions.js:311-334 | size of a regular array with no empty level is its shape, outermost first, and ndims is max(2, rank) |
| Matlab.TraverseFacts | src/utils/Nifti_viewer/matlab_functions.js:347-353 | traverse advances the linear index by the number of leaves it visits and pushes, in increasing order, exactly the positions of the non-zero leaves |
| Matlab.TraverseSeqFacts | src/utils/Nifti_viewer/matlab_functions.js:352 | the reduce over an array's elements threads the linear index through them in order, with the same facts as traverse |
| Matlab.FindNonzeroLeaves | src/utils/Nifti_viewer/matlab_functions.js:343-360 | find returns, in increasing order, exactly the depth-first linear positions of the leaves that are not 0 |
| Matlab.Flip | src/utils/Nifti_viewer/matlab_functions.js:275-292 | the array's new contents are Flipped of the old: reversed in place at level 0 (n <= 0), each element flipped one level down otherwise; nothing is returned |
| Matlab.FlipTwice | src/utils/Nifti_viewer/matlab_functions.js:275-292 | flipping twice along the same level restores the array |
| Matlab.FlipKeepsShape | src/utils/Nifti_viewer/matlab_functions.js:275-292 | flipping keeps a regular array's shape |
| Matlab.FlipKeepsLeaves | src/utils/Nifti_viewer/matlab_functions.js:275-292 | flipping only reorders: the multiset of leaves is unchanged |
| Matlab.IsEqualNumericArrays | src/utils/Nifti_viewer/matlab_functions.js:153-174 | two numeric arrays are isequal exactly when they are the same nested array |
| Matlab.IsEqualReflexive | src/utils/Nifti_viewer/matlab_functions.js:155-159 | isequal(a, a) holds exactly when a is truthy |
| Matlab.IsEqualSymmetric | src/utils/Nifti_viewer/matlab_functions.js:153-174 | isequal does not depend on the order of its arguments |
| MatlabLayout.ShapeExtensionality | src/utils/Nifti_viewer/matlab_functions.js:118-143 | two regular arrays of one shape that agree at every position are equal, so reshape's result is determined by its element map |
| MatlabLayout.ChunkCountTest | src/utils/Nifti_viewer/matlab_functions.js:131-132 | the loop test `i < tmp.length / size` holds for exactly ⌈length / size⌉ passes |
| MatlabLayout.ChunkRunAt | src/utils/Nifti_viewer/matlab_functions.js:132-135 | pass t pushes the slice [t·size, (t+1)·size), clamped to the length |
| MatlabLayout.FlatSize | src/utils/Nifti_viewer/matlab_functions.js:121-122 | prod(size(tmp)) of the flattened copy is its number of elements |
| MatlabLayout.LevelCount | src/utils/Nifti_viewer/matlab_functions.js:126-139 | when a level holds Π sizes elements, chunking at sizes[0] leaves Π sizes[1..] chunks, and a zero size only meets an empty level, so the chunk loop ends |
| MatlabLayout.ChunkLevel | src/utils/Nifti_viewer/matlab_functions.js:128-138 | one pass of the outer loop pushes exactly the chunks of the current level at that size |
| MatlabLayout.Reshape | src/utils/Nifti_viewer/matlab_functions.js:118-143 | reverses the caller's sizes array in place and returns what the reference definition ReshapeSpec gives: the element-count error, or the leaves chunked at every size but the last, sizes[0] innermost |
| MatlabLayout.ChunkLevels | src/utils/Nifti_viewer/matlab_functions.js:126-139 | the outer loop, from the last reversed size down to index 1, nests the flat list at every original size but the last |
| MatlabLayout.ReshapeCounts | src/utils/Nifti_viewer/matlab_functions.js:120-123 | the two counts compared are the number of leaves and Π sizes, which the in-place reversal keeps |
| MatlabLayout.ChunkSlices | src/utils/Nifti_viewer/matlab_functions.js:131-135 | chunking m·s elements at s gives m slices of s consecutive elements |
| MatlabLayout.ReshapeIndexIsLinearIndex | src/utils/Nifti_viewer/matlab_functions.js:83-143 | the flat position reshape puts at a path is sub2ind's linear index of the reversed path: reshape and sub2ind agree |
| MatlabLayout.NestShape | src/utils/Nifti_viewer/matlab_functions.js:126-139 | the nesting levels have the chunk sizes, the last chunked outermost |
| MatlabLayout.NestAtPath | src/utils/Nifti_viewer/matlab_functions.js:126-139 | after chunking, the element at a path is the item at the reshape position of the path's outer part, followed by the rest of the path |
| MatlabLayout.ReshapeNest | src/utils/Nifti_viewer/matlab_functions.js:118-143 | for sizes all at least 1 with the right element count, reshape returns the leaves nested at every size but the last |
| MatlabLayout.ReshapeShape | src/utils/Nifti_viewer/matlab_functions.js:118-143 | for sizes all at least 1 with the right element count, reshape succeeds with shape reverse(sizes) |
| MatlabLayout.ReshapeAt | src/utils/Nifti_viewer/matlab_functions.js:118-143 | at every position, reshape holds the flat element at sub2ind(sizes, reversed position): sizes[0] varies fastest |
| MatlabLayout.ChunkRunLeaves | src/utils/Nifti_viewer/matlab_functions.js:131-135 | the first n chunks hold, in order, the first n·s elements |
| MatlabLayout.ChunksLeaves | src/utils/Nifti_viewer/matlab_functions.js:131-135 | chunking a level keeps its elements and their order |
| MatlabLayout.NestLeaves | src/utils/Nifti_viewer/matlab_functions.js:126-139 | nesting at any sizes keeps the elements and their order |
| MatlabLayout.ReshapeKeepsLeaves | src/utils/Nifti_viewer/matlab_functions.js:118-143 | for sizes that are not negative, a successful reshape keeps the elements and their depth-first order |
| JsValues.ReverseInPlace | src/utils/Nifti_viewer/matlab_functions.js:282 | the array holds its old entries in reverse order |
| MatlabPermute.SwapTwice | src/utils/Nifti_viewer/matlab_functions.js:209 | exchanging the same two order entries twice restores the order |
| MatlabPermute.Transposed | src/utils/Nifti_viewer/matlab_functions.js:254-261 | the result has `cols` rows, row j holding arr[i][j] for every i |
| MatlabPermute.TransposeSpec | src/utils/Nifti_viewer/matlab_functions.js:248-264 | transpose fails only with a TypeError: on null or undefined, or when a row read is null or undefined |
| MatlabPermute.Transpose | src/utils/Nifti_viewer/matlab_functions.js:248-264 | the nested loops agree with the reference definition TransposeSpec: non-matrices come back unchanged, otherwise result[j][i] = arr[i][j] |
| MatlabPermute.TransposeShape | src/utils/Nifti_viewer/matlab_functions.js:248-264 | transpose of an m-by-n (by rest) array with m at least 1 succeeds and is n-by-m (by rest) |
| MatlabPermute.TransposeAt | src/utils/Nifti_viewer/matlab_functions.js:256-260 | element [j][i]… of the transpose is element [i][j]… of the input |
| MatlabPermute.TransposeTwice | src/utils/Nifti_viewer/matlab_functions.js:248-264 | transposing an m-by-n array with m, n ≥ 1 twice gives it back |
| MatlabPermute.CollectOk | src/utils/Nifti_viewer/matlab_functions.js:226-235 | the element loop succeeds exactly when every element's transpose does, keeping them in order, and otherwise throws the first element's exception |
| MatlabPermute.TransposeNthDim | src/utils/Nifti_viewer/matlab_functions.js:218-238 | the recursion agrees with the reference definition TransposeNthDimSpec: transpose at level 0, and each element transposed one level down otherwise |
| MatlabPermute.TransposeEach | src/utils/Nifti_viewer/matlab_functions.js:226-235 | the loop replaces each element by its transpose at level n − 1, stopping at the first exception |
| MatlabPermute.TransposeNthDimShape | src/utils/Nifti_viewer/matlab_functions.js:218-238 | on a regular array with no empty level, transpose_nth_dim(_, j) succeeds and exchanges the lengths of levels j and j + 1 |
| MatlabPermute.TransposeNthDimItems | src/utils/Nifti_viewer/matlab_functions.js:224-235 | above level 0 the result keeps the number of elements and holds each element's transpose one level down |
| MatlabPermute.TransposeNthDimAt | src/utils/Nifti_viewer/matlab_functions.js:218-238 | the element at a path of the result is the input element at the path with entries j and j + 1 exchanged |
| MatlabPermute.StrLeTotal | src/utils/Nifti_viewer/matlab_functions.js:191 | the code-unit order of the default sort compares any two texts |
| MatlabPermute.DefaultSort | src/utils/Nifti_viewer/matlab_functions.js:191 | the comparator-less sort keeps the number of entries |
| MatlabPermute.DefaultSortFacts | src/utils/Nifti_viewer/matlab_functions.js:191 | the sorted copy holds the same numbers, in ascending order of their decimal texts |
| MatlabPermute.KeyLeDigits | src/utils/Nifti_viewer/matlab_functions.js:191 | on single digits, text order is numeric order |
| MatlabPermute.SortedPermutationIsRange | src/utils/Nifti_viewer/matlab_functions.js:191-193 | a sorted rearrangement of 0..n−1 is 0..n−1 |
| MatlabPermute.NumArrayEqual | src/utils/Nifti_viewer/matlab_functions.js:192 | isequal of two number lists holds exactly when they are equal |
| MatlabPermute.OrderOfThree | src/utils/Nifti_viewer/matlab_functions.js:187-193 | three distinct entries drawn from 0, 1 and 2 pass both checks |
| MatlabPermute.SortCheck | src/utils/Nifti_viewer/matlab_functions.js:191-193 | for an order without repeats, the check passes exactly when it is a rearrangement of 0..n−1 with n ≤ 10, since from 11 entries on "10" sorts before "2" |
| MatlabPermute.SortedValidOrder | src/utils/Nifti_viewer/matlab_functions.js:191-193 | a valid order sorts by text to 0..n−1 |
| MatlabPermute.Inverse | src/utils/Nifti_viewer/matlab_functions.js:187-216 | for a valid order, entry k of the inverse is the position of k in the order |
| MatlabPermute.PermutePathMoves | src/utils/Nifti_viewer/matlab_functions.js:196-212 | input level q lands at output level order[q] |
| MatlabPermute.PermutePathInverse | src/utils/Nifti_viewer/matlab_functions.js:187-216 | moving a path by an order and then by its inverse gives the path back |
| MatlabPermute.PermuteInverse | src/utils/Nifti_viewer/matlab_functions.js:187-216 | permuting by an order and then by its inverse gives back the array |
| MatlabPermute.TracksSwap | src/utils/Nifti_viewer/matlab_functions.js:204-209 | each exchange transposes levels j and j + 1 and swaps the matching order entries, so the array stays the input with its levels moved as the order says |
| MatlabPermute.TracksEnd | src/utils/Nifti_viewer/matlab_functions.js:196-215 | once the order is sorted, the array is the input permuted by the original order |
| MatlabPermute.SwapMultiset | src/utils/Nifti_viewer/matlab_functions.js:209 | an exchange keeps the order's entries |
| MatlabPermute.SortPass | src/utils/Nifti_viewer/matlab_functions.js:199-211 | one pass keeps the order's entries and the level tracking, and leaves the largest of order[0..b) at b − 1 |
| MatlabPermute.Exchange | src/utils/Nifti_viewer/matlab_functions.js:202-210 | an out-of-order pair is transposed and swapped; a transpose that throws leaves the order as it was |
| MatlabPermute.Permute | src/utils/Nifti_viewer/matlab_functions.js:187-216 | throws the repeated-index error, then the invalid-index error when the text-sorted copy is not 0..n−1; otherwise the order is sorted in place to 0..n−1, and a regular input comes back permuted, an identity order giving an equal copy |
| MatlabPermute.SortLevels | src/utils/Nifti_viewer/matlab_functions.js:195-215 | the bubble sort keeps the order's entries, ends with 0..n−1, returns the input for an identity order, and the permuted array for a regular input |
| MatlabMatrix.Identity | src/utils/Nifti_viewer/matlab_functions.js:446-447 | the identity matrix inv starts from is n-by-n |
| MatlabMatrix.RemoveAt | src/utils/Nifti_viewer/matlab_functions.js:384 | filtering out column j keeps the other columns, in order |
| MatlabMatrix.Minor | src/utils/Nifti_viewer/matlab_functions.js:384 | the submatrix without row 0 and column j is square and one smaller |
| MatlabMatrix.Det | src/utils/Nifti_viewer/matlab_functions.js:369-389 | agrees with the reference definition DetSpec: the entry for 1-by-1, ad − bc for 2-by-2, else the cofactor expansion along row 0 |
| MatlabMatrix.ExpandRow | src/utils/Nifti_viewer/matlab_functions.js:380-388 | the loop accumulates exactly the cofactor expansion along row 0 |
| MatlabMatrix.DetSarrus | src/utils/Nifti_viewer/matlab_functions.js:369-389 | for 3-by-3 matrices the expansion is the rule of Sarrus |
| MatlabMatrix.Diag | src/utils/Nifti_viewer/matlab_functions.js:398-408 | an n-by-n matrix, n the length of v, with v on the diagonal and 0 elsewhere; diag([]) is [] |
| MatlabMatrix.DetDiag | src/utils/Nifti_viewer/matlab_functions.js:369-408 | the determinant of a non-empty diagonal matrix is the product of its diagonal |
| MatlabMatrix.DetIdentity | src/utils/Nifti_viewer/matlab_functions.js:369-389 | the determinant of the identity is 1 |
| MatlabMatrix.Signed | src/utils/Nifti_viewer/matlab_functions.js:421-423 | bitwise or and and return a signed 32-bit integer |
| MatlabMatrix.Bitset | src/utils/Nifti_viewer/matlab_functions.js:419-425 | bitset returns a signed 32-bit integer |
| MatlabMatrix.SetBitOn | src/utils/Nifti_viewer/matlab_functions.js:421 | setting makes the masked bit 1, keeps the others, and setting again changes nothing |
| MatlabMatrix.SetBitOff | src/utils/Nifti_viewer/matlab_functions.js:423 | clearing makes the masked bit 0, keeps the others, and clearing again changes nothing |
| MatlabMatrix.BitsetSetsBit | src/utils/Nifti_viewer/__tests__/bitset.test.js:4-10 | bitset(5, 1, 1) is 7 |
| MatlabMatrix.BitsetClearsBit | src/utils/Nifti_viewer/__tests__/bitset.test.js:12-18 | bitset(5, 2, 0) is 1 |
| MatlabMatrix.BitsetAlreadySet | src/utils/Nifti_viewer/__tests__/bitset.test.js:20-26 | bitset(7, 0, 1) is 7 |
| MatlabMatrix.BitsetClearsOneOfSeveral | src/utils/Nifti_viewer/__tests__/bitset.test.js:28-34 | bitset(12, 2, 0) is 8 |
| MatlabMatrix.BitsetSetsLowestBit | src/utils/Nifti_viewer/__tests__/bitset.test.js:36-42 | bitset(4, 0, 1) is 5 |
| MatlabMatrix.BitsetSetsBit30 | src/utils/Nifti_viewer/__tests__/bitset.test.js:44-50 | bitset(0, 30, 1) is 2^30 |
| MatlabMatrix.BitsetShiftWraps | src/utils/Nifti_viewer/matlab_functions.js:421 | the shift count is taken modulo 32: bitset(0, 33, 1) is 2 |
| MatlabMatrix.BitsetSignBit | src/utils/Nifti_viewer/matlab_functions.js:421 | bit 31 makes the int32 result negative: bitset(0, 31, 1) is −2^31 |
| MatlabInverse.MulIdentityLeft | src/utils/Nifti_viewer/matlab_functions.js:439-447 | the identity that inv starts from is a left unit of the product |
| MatlabInverse.MulIdentityRight | src/utils/Nifti_viewer/matlab_functions.js:439-447 | the identity is a right unit of the product |
| MatlabInverse.SwapRows | src/utils/Nifti_viewer/matlab_functions.js:453-460 | exchanging two rows keeps an n-by-n matrix n-by-n |
| MatlabInverse.ScaleRow | src/utils/Nifti_viewer/matlab_functions.js:467-470 | dividing a row by the pivot keeps an n-by-n matrix n-by-n |
| MatlabInverse.SubtractRow | src/utils/Nifti_viewer/matlab_functions.js:474-477 | subtracting a multiple of the pivot row keeps an n-by-n matrix n-by-n |
| MatlabInverse.MulSwap | src/utils/Nifti_viewer/matlab_functions.js:453-460 | a row exchange is undone by the matching column exchange: the product is unchanged |
| MatlabInverse.MulScale | src/utils/Nifti_viewer/matlab_functions.js:467-470 | dividing row i by e is undone by multiplying column i by e |
| MatlabInverse.MulSubtract | src/utils/Nifti_viewer/matlab_functions.js:474-477 | subtracting e times row i from row k is undone by adding e times column k to column i |
| MatlabInverse.LeftSwap | src/utils/Nifti_viewer/matlab_functions.js:453-460 | the same exchange applied to I and to C keeps I · A = C |
| MatlabInverse.LeftScale | src/utils/Nifti_viewer/matlab_functions.js:467-470 | the same division applied to I and to C keeps I · A = C |
| MatlabInverse.LeftSubtract | src/utils/Nifti_viewer/matlab_functions.js:474-477 | the same subtraction applied to I and to C keeps I · A = C |
| MatlabInverse.KernelAfterSwap | src/utils/Nifti_viewer/matlab_functions.js:453-460 | a row exchange keeps the set of vectors C sends to zero |
| MatlabInverse.KernelAfterScale | src/utils/Nifti_viewer/matlab_functions.js:467-470 | dividing a row by a non-zero pivot keeps the set of vectors C sends to zero |
| MatlabInverse.KernelAfterSubtract | src/utils/Nifti_viewer/matlab_functions.js:474-477 | subtracting a multiple of another row keeps the set of vectors C sends to zero |
| MatlabInverse.TracksStart | src/utils/Nifti_viewer/matlab_functions.js:439-447 | before the first pass, C is A and I is the identity, and the elimination invariant holds |
| MatlabInverse.TracksSwap | src/utils/Nifti_viewer/matlab_functions.js:453-460 | a row exchange keeps the elimination invariant |
| MatlabInverse.TracksScale | src/utils/Nifti_viewer/matlab_functions.js:467-470 | a pivot division keeps the elimination invariant |
| MatlabInverse.TracksSubtract | src/utils/Nifti_viewer/matlab_functions.js:474-477 | a row subtraction keeps the elimination invariant |
| MatlabInverse.TracksEnd | src/utils/Nifti_viewer/matlab_functions.js:480 | once C is the identity, I is a two-sided inverse of A and only 0 goes to 0 |
| MatlabInverse.UnitAfterSwap | src/utils/Nifti_viewer/matlab_functions.js:451-461 | exchanging row i with a later row keeps the columns already cleared |
| MatlabInverse.UnitAfterScale | src/utils/Nifti_viewer/matlab_functions.js:467-470 | dividing row i by its pivot keeps the cleared columns and puts 1 on the diagonal |
| MatlabInverse.UnitAfterSubtract | src/utils/Nifti_viewer/matlab_functions.js:471-478 | clearing entry (k, i) keeps the cleared columns, makes the entry 0 and changes only row k |
| MatlabInverse.StuckIsSingular | src/utils/Nifti_viewer/matlab_functions.js:464-465 | when no row from i down has a non-zero entry in column i, A is singular, so returning undefined there is right |
| MatlabInverse.PivotSearch | src/utils/Nifti_viewer/matlab_functions.js:451-463 | the search stops at the first row with a non-zero entry in column i, or reports none, every row passed having 0 there |
| MatlabInverse.Pivoted | src/utils/Nifti_viewer/matlab_functions.js:449-466 | a zero pivot is replaced by swapping in the first row below with a non-zero entry in column i |
| MatlabInverse.Normalized | src/utils/Nifti_viewer/matlab_functions.js:467-470 | row i of C and of I is divided by the pivot |
| MatlabInverse.Cleared | src/utils/Nifti_viewer/matlab_functions.js:471-478 | every row but i, in order, has its column-i entry times row i subtracted, in C and in I |
| MatlabInverse.ClearRow | src/utils/Nifti_viewer/matlab_functions.js:473-477 | one row k of C and of I has C[k][i] times row i subtracted |
| MatlabInverse.Eliminated | src/utils/Nifti_viewer/matlab_functions.js:448-479 | one pass of the outer loop keeps the work matrices n-by-n, and gives up when there is no usable pivot |
| MatlabInverse.PivotedKeeps | src/utils/Nifti_viewer/matlab_functions.js:449-466 | the pivot step keeps the invariant, and a pivot still 0 means column i is 0 from row i down |
| MatlabInverse.NormalizedKeeps | src/utils/Nifti_viewer/matlab_functions.js:467-470 | the division keeps the invariant and puts 1 on the diagonal |
| MatlabInverse.ClearedKeeps | src/utils/Nifti_viewer/matlab_functions.js:471-478 | clearing keeps the invariant and leaves column i zero except on the diagonal |
| MatlabInverse.ClearRowKeeps | src/utils/Nifti_viewer/matlab_functions.js:473-477 | clearing one row keeps the invariant, zeroes its entry and changes no other row |
| MatlabInverse.EliminatedKeeps | src/utils/Nifti_viewer/matlab_functions.js:448-479 | a pass that finds a pivot keeps the invariant with one more unit column; a pass that gives up means A is singular |
| MatlabInverse.GaussJordanInverse | src/utils/Nifti_viewer/matlab_functions.js:448-480 | when every pass finds a pivot, the result is a two-sided inverse (A · inv(A) = I) |
| MatlabInverse.GaussJordanSingular | src/utils/Nifti_viewer/matlab_functions.js:448-480 | when a pass finds no pivot, the matrix is singular |
| MatlabInverse.InvSpecCorrect | src/utils/Nifti_viewer/matlab_functions.js:435-481 | inv throws exactly for the empty matrix, is undefined for a non-square one, and for a square one returns a two-sided inverse, or undefined exactly when the matrix is singular |
| MatlabInverse.FindPivot | src/utils/Nifti_viewer/matlab_functions.js:451-463 | the search loop returns the first row below i with a non-zero entry in column i, or n |
| MatlabInverse.SwapRowsOf | src/utils/Nifti_viewer/matlab_functions.js:453-460 | the entry-by-entry swap exchanges rows i and k of C and of I |
| MatlabInverse.ScaleRowOf | src/utils/Nifti_viewer/matlab_functions.js:467-470 | the loop divides row i of C and of I by the pivot |
| MatlabInverse.SubtractRowOf | src/utils/Nifti_viewer/matlab_functions.js:474-477 | the loop subtracts e times row i from row k, in C and in I, reading e before the row changes |
| MatlabInverse.EliminateColumn | src/utils/Nifti_viewer/matlab_functions.js:471-478 | the loop clears column i in every row but i |
| MatlabInverse.ProcessColumn | src/utils/Nifti_viewer/matlab_functions.js:448-479 | one pass finds a pivot (swapping if C[i][i] is 0), divides and clears, and reports failure exactly when there is no usable pivot |
| MatlabInverse.Inv | src/utils/Nifti_viewer/matlab_functions.js:435-481 | the loops agree with the reference definition InvSpec, whose correctness InvSpecCorrect states |
| NiftiImage.LongArrayIsNaN | src/utils/Nifti_viewer/load_untouch_nifti.js:154 | an array of two or more elements never compares as a number |
| NiftiImage.MathMinFacts | src/utils/Nifti_viewer/load_untouch_nifti.js:154 | Math.min is a number exactly when every element is one, and is then the least of them |
| NiftiImage.MathMaxFacts | src/utils/Nifti_viewer/load_untouch_nifti.js:154 | Math.max is a number exactly when every element is one, and is then the greatest of them |
| NiftiImage.SetKeys | src/utils/Nifti_viewer/matlab_functions.js:68-71 | `new Set` keys a primitive entry by its value and an array entry by its identity, one object per position |
| NiftiImage.ArraysNeverRepeat | src/utils/Nifti_viewer/matlab_functions.js:68-71 | a list of arrays is never reported as holding a repeat, whatever the arrays contain |
| NiftiImage.EqualArraysPass | src/utils/Nifti_viewer/load_untouch_nifti.js:140-167 | `check_argin([[1], [1]])` against dim[4] = 1 passes: arrays of equal content are distinct set members |
| NiftiImage.CheckArginIntegers | src/utils/Nifti_viewer/load_untouch_nifti.js:140-167 | on a list of integers check_argin passes exactly when the entries are distinct and lie in [1, dim[4]]; a repeat is reported first, and the range message names dim[4] unless it is 1 |
| NiftiImage.IndicesFacts | src/utils/Nifti_viewer/load_untouch_nifti.js:143-148 | an integer list is numeric, and has a repeat exactly when its values do |
| NiftiImage.IndicesRange | src/utils/Nifti_viewer/load_untouch_nifti.js:154 | the Math.min/Math.max test fires exactly when some entry lies outside [1, dim[4]] |
| NiftiImage.Clamped | src/utils/Nifti_viewer/load_untouch_nifti.js:222 | dim[0] is kept and every later dim[i] becomes max(dim[i], 1) |
| NiftiImage.ClampedIdempotent | src/utils/Nifti_viewer/load_untouch_nifti.js:222 | clamping twice is clamping once |
| NiftiImage.SelectedDims | src/utils/Nifti_viewer/load_untouch_nifti.js:312-314 | dim[0..3] are kept and dim[4+k] becomes the length of list k when that is non-zero |
| NiftiImage.SelectedDimsIdempotent | src/utils/Nifti_viewer/load_untouch_nifti.js:312-314 | updating the dimensions with the same lengths again changes nothing |
| NiftiImage.Defaulted | src/utils/Nifti_viewer/load_untouch_nifti.js:247-248 | a non-empty list is kept and an empty one becomes 0..d−1 |
| NiftiImage.Row | src/utils/Nifti_viewer/load_untouch_nifti.js:260-269 | the innermost loop visits one frame per entry t, with the outer subscripts fixed |
| NiftiImage.SelectionCount | src/utils/Nifti_viewer/load_untouch_nifti.js:254-272 | a selective read visits as many frames as the product of the lengths of the four lists |
| NiftiImage.SelectionOrder | src/utils/Nifti_viewer/load_untouch_nifti.js:254-272 | t varies fastest and i7 slowest: frame ((k7·n6 + k6)·n5 + k5)·nt + kt, with n6, n5 and nt the lengths of l6, l5 and ts, has subscripts (ts[kt], l5[k5], l6[k6], l7[k7]) |
| NiftiImage.EmptyListSelectsNothing | src/utils/Nifti_viewer/load_untouch_nifti.js:254-272 | on the selective path an empty list is not defaulted, so no frame is read |
| NiftiImage.ReadFramesFacts | src/utils/Nifti_viewer/load_untouch_nifti.js:254-272 | the frame reads succeed exactly when each frame's does, holding the frames in visiting order, and otherwise fail with the first failing frame's error |
| NiftiImage.ReadFramesOk | src/utils/Nifti_viewer/load_untouch_nifti.js:254-272 | the frame reads succeed exactly when each frame's does, and then hold those frames in order |
| NiftiImage.ReadFramesFirstError | src/utils/Nifti_viewer/load_untouch_nifti.js:254-272 | when frame k is the first that fails, the whole read fails with its error |
| NiftiImage.FrameStep | src/utils/Nifti_viewer/load_untouch_nifti.js:265-268 | one more frame either ends the read with its error or is stored at the next free position |
| NiftiImage.AfterAppend | src/utils/Nifti_viewer/load_untouch_nifti.js:253-268 | reading two selections one after the other, with the running currentIndex, is reading their concatenation |
| NiftiImage.ReadFrame | src/utils/Nifti_viewer/load_untouch_nifti.js:265-268 | seeks to the real position sub2ind(dim[1..7], 1, 1, 1, t, i5, i6, i7)·bitpix/8 + start (vox_offset, fraction included, for filetype 2) and reads img_siz values, each get truncating its own position |
| NiftiImage.ReadRow | src/utils/Nifti_viewer/load_untouch_nifti.js:260-269 | the loop over t appends the frames of its row, or stops at the first error |
| NiftiImage.ReadLevel5 | src/utils/Nifti_viewer/load_untouch_nifti.js:258-270 | the loop over i5 appends the frames of its block in order |
| NiftiImage.ReadLevel6 | src/utils/Nifti_viewer/load_untouch_nifti.js:256-271 | the loop over i6 appends the frames of its block in order |
| NiftiImage.ReadSelection | src/utils/Nifti_viewer/load_untouch_nifti.js:252-272 | the four nested loops read exactly the frames of the selection, in visiting order |
| NiftiImage.LastFrameRejected | src/utils/Nifti_viewer/load_untouch_nifti.js:265 | the frame t = dim[4], which check_argin admits, is rejected by sub2ind's bound for the fourth dimension |
| NiftiImage.ThinSliceRejected | src/utils/Nifti_viewer/load_untouch_nifti.js:265 | the three fixed subscripts are 1, so a selective read of an image one voxel thick in some spatial axis fails on its first frame |
| NiftiImage.ExtremesFacts | src/utils/Nifti_viewer/load_untouch_nifti.js:276-288 | the new glmax is the greatest of the old one and every item that compares as a number, glmin the least; both bound every such item and each is the old value or an item |
| NiftiImage.ExtremesOfNaN | src/utils/Nifti_viewer/load_untouch_nifti.js:277-288 | items that never compare as numbers (such as whole frames of several values) leave glmax and glmin as they were |
| NiftiImage.UpdateRange | src/utils/Nifti_viewer/load_untouch_nifti.js:277-288 | the loop computes exactly the extremes of the items, starting from the header's glmax and glmin |
| NiftiImage.UnwrappedFacts | src/utils/Nifti_viewer/load_untouch_nifti.js:316 | unwrapping keeps the leaves and never returns a one-element array; an array of another length is returned as it is |
| NiftiImage.Unwrap | src/utils/Nifti_viewer/load_untouch_nifti.js:316 | the loop returns what Unwrapped gives, a TypeError included |
| UntouchLoader.VoxelTable | src/utils/Nifti_viewer/load_untouch_nifti.js:200-219 | exactly the twelve listed datatypes are accepted (complex 32 and 1792 are not); int64 and uint64 read as no FILE type; for every other accepted type bitpix is the width of the value read, three times over for RGB |
| UntouchLoader.LayoutOf | src/utils/Nifti_viewer/load_untouch_nifti.js:216-240 | the layout read_image settles on: the clamped dims, bitpix from the table and the table's precision |
| UntouchLoader.RangeBounds | src/utils/Nifti_viewer/load_untouch_nifti.js:276-288 | glmax and glmin only widen, and afterwards bound every top-level item that compares as a number, so on the whole-block path every value read |
| UntouchLoader.WholeBlockInt64Fails | src/utils/Nifti_viewer/load_untouch_nifti.js:212-213 | datatypes 1024 and 1280 read as undefined, so a whole-block read of them fails at `img.flat` |
| UntouchLoader.FrameIsFlat | src/utils/Nifti_viewer/load_untouch_nifti.js:268 | a frame of at least two numeric values is a flat array of img_siz numbers |
| UntouchLoader.FlatFramesLeaves | src/utils/Nifti_viewer/load_untouch_nifti.js:252-272 | frames that are flat arrays of m values have m leaves per frame |
| UntouchLoader.ImageSizeSplit | src/utils/Nifti_viewer/load_untouch_nifti.js:239-240 | img_siz is d1·d2·d3 times the product of dim[4..7] (times 3 for RGB), and that product is at least 2 when dim[4..7] are not all 1 |
| UntouchLoader.VolumeSizesProd | src/utils/Nifti_viewer/load_untouch_nifti.js:308 | the sizes of the final non-RGB reshape multiply to d1·d2·d3 times the number of frames selected |
| UntouchLoader.SelectiveLeaves | src/utils/Nifti_viewer/load_untouch_nifti.js:250-273 | the per-frame path yields one frame of img_siz values for every entry of the selection |
| UntouchLoader.SelectiveReshapeFails | src/utils/Nifti_viewer/load_untouch_nifti.js:239-308 | as written, each selected frame holds the whole volume Π dim[1..7] while the reshape expects d1·d2·d3 values per frame, so a non-empty selective read of a non-RGB image never yields an image: the reshape throws |
| UntouchLoader.ArgsCheckedLists | src/utils/Nifti_viewer/load_untouch_nifti.js:131-135 | lists that pass the argument checks hold distinct indices in [1, dim[4]] |
| UntouchLoader.DefaultedLengths | src/utils/Nifti_viewer/load_untouch_nifti.js:243-249 | after a whole-block read every list is as long as its dimension, for lists that pass the checks |
| UntouchLoader.WholeBlockKeepsDims | src/utils/Nifti_viewer/load_untouch_nifti.js:243-314 | on the whole-block path with lists that pass the checks, the final dim is the clamped header dim |
| UntouchLoader.WholeBlockVoxels | src/utils/Nifti_viewer/load_untouch_nifti.js:243-249 | a whole-block read keeps the clamped dims and leaves the lists defaulted |
| UntouchLoader.SelectedOwnDims | src/utils/Nifti_viewer/load_untouch_nifti.js:312-314 | updating clamped dims with their own dim[4..7] changes nothing |
| UntouchLoader.ArrangeRgb | src/utils/Nifti_viewer/load_untouch_nifti.js:293-305 | an RGB image is reshaped and then permuted: a reshape error is passed on, and a successful reshape to sizes of at least 1 with a valid order gives the reshaped image with its levels permuted |
| UntouchLoader.RgbOrderValid | src/utils/Nifti_viewer/load_untouch_nifti.js:297-303 | both RGB permute orders, [0, 1, 3, 2, 4, 5, 6, 7] and [1, 2, 3, 0, 4, 5, 6, 7], are permutations of the eight levels |
| UntouchLoader.ReshapedShape | src/utils/Nifti_viewer/load_untouch_nifti.js:295-308 | a successful reshape to sizes of at least 1 has the reversed sizes as its shape |
| UntouchLoader.ReadVoxelsFrom | src/utils/Nifti_viewer/load_untouch_nifti.js:225-273 | seeks to the start (vox_offset as stored, fraction included, for filetype 2), then does the one whole-block read or reads the frames of the selection, as ReadVoxels describes |
| UntouchLoader.ArrangeImage | src/utils/Nifti_viewer/load_untouch_nifti.js:292-309 | a non-RGB image is reshaped to [d1, d2, d3] followed by the list lengths; datatype 128 is reshaped to [3, d1, d2, d3] (or [d1, d2, 3, d3] with old_RGB) followed by the list lengths and permuted to put the colour level fourth; datatype 511 the same after normalising every value |
| UntouchLoader.ReadImage | src/utils/Nifti_viewer/load_untouch_nifti.js:169-319 | read_image returns what ReadImageMeets describes: an error before the arrangement as it is; a non-RGB image reshaped, with dim[4..7] set to the list lengths and unwrapped; an RGB image reshaped and permuted as ArrangeImage states (a reshape error passed on), then finished the same way |
| UntouchLoader.LoadUntouchNiiImg | src/utils/Nifti_viewer/load_untouch_nifti.js:122-138 | throws the usage error for a falsy argument (filetype 0 among them), then the first check_argin error, each list checked against the unclamped dim[4]; otherwise returns read_image's result |
| UntouchLoader.LoadUntouchNii | src/utils/Nifti_viewer/load_untouch_nifti.js:90-120 | header errors are passed on; only a little-endian NIfTI file can load, with filetype 1 or 2 and an empty extension list |
| UntouchLoader.LoadUntouchPrelude | src/utils/Nifti_viewer/load_untouch_nifti.js:93-111 | agrees with PreludeSpec: load_nii_hdr, then the Analyze header for filetype 0 with no extension, otherwise the NIfTI header and load_nii_ext; the extension list is always empty and a NIfTI file that gets this far is little-endian |
| NiftiLoader.NiiVoxelTable | src/utils/Nifti_viewer/load_nifti.js:205-250 | exactly fourteen datatypes are accepted, complex 32 → 64 and 1792 → 128 among them; int64 and uint64 read as no FILE type; every other accepted type has bitpix = the width of one value times the values per voxel |
| NiftiLoader.NiiLayout | src/utils/Nifti_viewer/load_nifti.js:252-366 | the clamped dims, bitpix and precision from the switch, and img_siz = Π dim[1..7] on the whole-block path, d1·d2·d3 per frame otherwise, times 2 for complex and 3 for RGB |
| NiftiLoader.DefaultedNonEmpty | src/utils/Nifti_viewer/load_nifti.js:336-346 | the lists filled in before the per-frame loop are never empty |
| NiftiLoader.NumericLeaves | src/utils/Nifti_viewer/load_nifti.js:307 | a numeric fread that succeeds yields the requested count of numbers, as an array exactly when that count is not 1 |
| NiftiLoader.NiiSizePositive | src/utils/Nifti_viewer/load_nifti.js:292-366 | img_siz is at least 1 on either path |
| NiftiLoader.FrameLeaves | src/utils/Nifti_viewer/load_nifti.js:400 | a frame that reads holds img_siz values |
| NiftiLoader.SelectionLeaves | src/utils/Nifti_viewer/load_nifti.js:371-405 | the per-frame path yields one frame of img_siz values for every subscript of the filled-in selection |
| NiftiLoader.NiiReadLeaves | src/utils/Nifti_viewer/load_nifti.js:287-406 | the whole-block path reads img_siz values, the per-frame path one volume per frame of the filled-in selection, and either way the lists come back filled in |
| NiftiLoader.ComplexFails | src/utils/Nifti_viewer/load_nifti.js:410-416 | a complex image never loads: the split into real and imaginary rows succeeds, and the assignment to the undeclared img_tmp throws a ReferenceError |
| NiftiLoader.ComplexEven | src/utils/Nifti_viewer/load_nifti.js:296-360 | a complex read delivers two values per voxel, so an even number of them |
| NiftiLoader.ComplexSplits | src/utils/Nifti_viewer/load_nifti.js:412-413 | an even number of values reshapes into a real row and an imaginary row |
| NiftiLoader.UnknownFrames | src/utils/Nifti_viewer/load_nifti.js:239-244 | on the per-frame path every frame of a 64-bit integer type reads as undefined |
| NiftiLoader.Int64SelectiveShort | src/utils/Nifti_viewer/load_nifti.js:371-405 | a per-frame read of a 64-bit integer type fails on its first frame for a volume one voxel thin, and otherwise yields fewer values than the final reshape needs |
| NiftiLoader.Int64NeverLoads | src/utils/Nifti_viewer/load_nifti.js:239-244 | an int64 or uint64 image never loads |
| NiftiLoader.Int64WholeFails | src/utils/Nifti_viewer/load_nifti.js:307-458 | a whole-block read of a 64-bit integer type is undefined, which has no `flat` |
| NiftiLoader.Int64FramesFail | src/utils/Nifti_viewer/load_nifti.js:371-500 | a per-frame read of a 64-bit integer type fails before an image is returned |
| NiftiLoader.Int64ReadShort | src/utils/Nifti_viewer/load_nifti.js:371-405 | what a per-frame read of a 64-bit integer type delivers is an array of too few values |
| NiftiLoader.NiiSpecRead | src/utils/Nifti_viewer/load_nifti.js:173-470 | a successful read of a non-complex type keeps what the reads delivered and the clamped dims |
| NiftiLoader.FramesRead | src/utils/Nifti_viewer/load_nifti.js:336-405 | the per-frame reads deliver the frames of the filled-in selection and the filled-in lists |
| NiftiLoader.WholeBlockCount | src/utils/Nifti_viewer/load_nifti.js:292-324 | the reshape sizes multiply to the values read when the lists keep the dims they fill in |
| NiftiLoader.FinalDims | src/utils/Nifti_viewer/load_nifti.js:499-512 | with every list non-empty, the final dim[1..7] are the reshape sizes |
| NiftiLoader.ReadCountMatches | src/utils/Nifti_viewer/load_nifti.js:287-406 | for one value per voxel, the values read are as many as the final reshape asks for, for lists that pass the argument checks |
| NiftiLoader.VoxelsShape | src/utils/Nifti_viewer/load_nifti.js:499-512 | an image with as many values as the volume and the lists ask for reshapes to that shape, and its final dim[1..7] are those sizes |
| NiftiLoader.NiiShapeAgrees | src/utils/Nifti_viewer/load_nifti.js:173-520 | for a plain numeric datatype whose values read, with lists that pass the checks, the reshape succeeds with the shape of the volume and the list lengths, and dim[1..7] are exactly those sizes, each at least 1 |
| NiftiLoader.OneVoxelRejected | src/utils/Nifti_viewer/load_nifti.js:307-458 | a single-voxel image of a plain numeric type never loads: the one fread returns a number, which has no `flat` |
| NiftiLoader.LoadableTypes | src/utils/Nifti_viewer/load_nifti.js:205-500 | only the eight plain numeric datatypes ever load; RGB fails in permute, complex at img_tmp, 64-bit integers at the reads |
| NiftiLoader.NiiRangeBounds | src/utils/Nifti_viewer/load_nifti.js:455-468 | glmax only grows and glmin only shrinks, both bound every value read that compares as a number, and each is its old value or one of them |
| NiftiLoader.NormaliseItems | src/utils/Nifti_viewer/load_nifti.js:487-490 | every item of img is rescaled in place with the final glmax and glmin |
| NiftiLoader.ReshapeThenPermute | src/utils/Nifti_viewer/load_nifti.js:473-495 | an RGB arrangement passes on a reshape error, and otherwise fails with the TypeError of permute given a single number as its order |
| NiftiLoader.ArrangeNii | src/utils/Nifti_viewer/load_nifti.js:473-500 | the arrangement after the reads agrees with the reference definition ArrangedNii |
| NiftiLoader.ReadNiiImage | src/utils/Nifti_viewer/load_nifti.js:173-520 | read_image agrees with the reference definition ReadNii: the reads, the arrangement, the dim update and the unwrapping |
| NiftiLoader.LoadNiiImg | src/utils/Nifti_viewer/load_nifti.js:127-142 | throws the usage error for a falsy argument (filetype 0 among them), then the first check_argin error, and otherwise returns read_image's result |
| XformNii.UseForm | src/utils/Nifti_viewer/xform_nii.js:291-350 | the form choice fails exactly for "S" or "Q" with sform_code 0; no form is chosen only for a lower-case or unknown preference |
| XformNii.LowerCasePreference | src/utils/Nifti_viewer/xform_nii.js:326-350 | "s" and "q" never fail; each uses its own form exactly when that code is positive, falls back to the other, and uses none exactly when neither code is positive |
| XformNii.UpperCaseTestsSform | src/utils/Nifti_viewer/xform_nii.js:304-324 | "S" throws exactly when sform_code is 0; "Q", as written, tests sform_code too: it throws the qform message when sform_code is 0 and picks the qform otherwise, whatever qform_code is |
| XformNii.QuaternionRadicand | src/utils/Nifti_viewer/xform_nii.js:419-432 | the value under the square root giving quaternion a is never negative when the quaternion is accepted |
| XformNii.QuaternionNorm | src/utils/Nifti_viewer/xform_nii.js:419-432 | the quaternion is accepted exactly when b² + c² + d² < 1 + 1e-5, and then a² + b² + c² + d² lies in [1, 1 + 1e-5), exactly 1 when b² + c² + d² ≤ 1 |
| XformNii.Qfac | src/utils/Nifti_viewer/xform_nii.js:434-435 | qfac is never 0, and is pixdim[0] whenever that is not 0 |
| XformNii.QfacSign | src/utils/Nifti_viewer/xform_nii.js:434-438 | for qfac 1, -1 or 0, the scales are pixdim[1], pixdim[2], and pixdim[3] negated exactly when qfac is -1 |
| XformNii.GetUnits | src/utils/Nifti_viewer/xform_nii.js:611-642 | get_units returns a pair: a space factor among 1000, 0.001, 1 and a time factor among 0.001, 0.000001, 1 |
| XformNii.UnitCodes | src/utils/Nifti_viewer/xform_nii.js:611-642 | for xyzt_units = space + 8·time, the space factor depends only on the space code and the time factor only on the time code, as NIfTI-1 assigns them |
| XformNii.UnitsPairIsNaN | src/utils/Nifti_viewer/xform_nii.js:555-562 | the pair get_units returns reads as NaN in `space_unit != 1`, so the test always holds and pixdim[1..3] are multiplied by NaN |
| XformNii.CharAsInt | src/utils/Nifti_viewer/xform_nii.js:565-567 | a one-character string read as a bitset operand is a digit value 0 to 9 |
| XformNii.UnitsBecomeNul | src/utils/Nifti_viewer/xform_nii.js:565-567 | whatever xyzt_units was, the three bitset steps leave it the NUL character, whose units read as millimetre and second |
| XformNii.SumMatrix | src/utils/Nifti_viewer/xform_nii.js:716-718 | one entry per row, the sum of that row |
| XformNii.SumOfStraightRows | src/utils/Nifti_viewer/xform_nii.js:371 | on a matrix with one non-zero entry per row the row sums are those entries, which is what the orthogonality test compares |
| XformNii.HomogeneousMatrix | src/utils/Nifti_viewer/xform_nii.js:720-728 | the result is 4 by 4 |
| XformNii.HomogeneousApplies | src/utils/Nifti_viewer/xform_nii.js:720-728 | the homogeneous matrix maps [p, 1] to [p·R + T, 1], the affine map of R and T |
| XformNii.MultiplyMatrix | src/utils/Nifti_viewer/xform_nii.js:730-748 | the triple loop computes the 3-by-3 matrix product |
| XformNii.EntryProduct | src/utils/Nifti_viewer/xform_nii.js:738-740 | the innermost loop computes one entry of the product |
| XformNii.MulDiagScalesColumns | src/utils/Nifti_viewer/xform_nii.js:490 | multiplying by diag([i, j, k]) scales each column by its factor |
| XformNii.Applied | src/utils/Nifti_viewer/xform_nii.js:530-552 | applying a form keeps the header arrays' lengths |
| XformNii.Rescaled | src/utils/Nifti_viewer/xform_nii.js:555-568 | rescaling to millimetres keeps the header arrays' lengths |
| XformNii.AbsAll | src/utils/Nifti_viewer/xform_nii.js:570 | every entry replaced by its magnitude, the length kept |
| XformNii.IndexArray | src/utils/Nifti_viewer/xform_nii.js:700-714 | indexArray on a nullish array throws a TypeError; a result is always an array |
| XformNii.IndexRows | src/utils/Nifti_viewer/xform_nii.js:709-712 | mapping the selected rows yields one entry per row, or the first row's exception |
| XformNii.SelectRow | src/utils/Nifti_viewer/xform_nii.js:580 | `indexArray(R, i, ":")` yields an array or throws |
| XformNii.IndexNumbers | src/utils/Nifti_viewer/xform_nii.js:700-714 | on a row of numbers every selection is [], since `rest != []` always holds and a number is indexed again with nothing left to select |
| XformNii.IndexOneRow | src/utils/Nifti_viewer/xform_nii.js:709-712 | selecting one row of an array maps that row alone |
| XformNii.IndexMatrixRow | src/utils/Nifti_viewer/xform_nii.js:700-714 | row i of a matrix selects as [[[], ..., []]], one [] per column, never the row's numbers |
| XformNii.IndexMissingRow | src/utils/Nifti_viewer/xform_nii.js:700-714 | a row the matrix does not have is undefined, and indexing it throws a TypeError |
| XformNii.EmptiesProduct | src/utils/Nifti_viewer/xform_nii.js:581 | the product of such a selection is 0 for one column and NaN for more |
| XformNii.EmptiesCode | src/utils/Nifti_viewer/xform_nii.js:582-603 | such a selection matches no case of the switch, whatever find returns |
| XformNii.OrientStep | src/utils/Nifti_viewer/xform_nii.js:578-605 | one more turn of the loop appends the row's code, or passes on the first exception |
| XformNii.OrientRowEmpty | src/utils/Nifti_viewer/xform_nii.js:578-605 | a row present in the matrix adds no code |
| XformNii.OrientRowMissing | src/utils/Nifti_viewer/xform_nii.js:578-605 | the first row missing from the matrix throws a TypeError |
| XformNii.GetOrientAsWritten | src/utils/Nifti_viewer/xform_nii.js:576-608 | get_orient as written returns [] for every matrix of three rows or more, and throws a TypeError for fewer rows or for undefined |
| XformNii.OrientErrorKept | src/utils/Nifti_viewer/xform_nii.js:578-605 | once a row has thrown, get_orient's result is that exception |
| XformNii.GetOrient | src/utils/Nifti_viewer/xform_nii.js:576-608 | the loop over the three rows agrees with OrientUpTo |
| XformNii.OrientOfInverse | src/utils/Nifti_viewer/xform_nii.js:535-539 | `get_orient(inv(R))` throws a TypeError exactly when R is singular (inv returns undefined), and returns [] otherwise |
| XformNii.AffineOrient | src/utils/Nifti_viewer/xform_nii.js:539 | the orientation change_hdr computes: a TypeError exactly for a singular R, [] otherwise |
| XformNii.ChangedHdr | src/utils/Nifti_viewer/xform_nii.js:291-573 | a successful change_hdr keeps the header arrays' lengths and returns [1, 2, 3] or the [] that get_orient yields as written |
| XformNii.FormApplied | src/utils/Nifti_viewer/xform_nii.js:528-573 | once the form is settled the header arrays' lengths are kept |
| XformNii.FormAppliedFields | src/utils/Nifti_viewer/xform_nii.js:540-551 | with no form the originator and both codes are kept; with a form both codes become 0 and originator[0..2] are undefined |
| XformNii.ChangeHdrForm | src/utils/Nifti_viewer/xform_nii.js:291-573 | change_hdr fails exactly when the form choice does, when a chosen qform has a rejected quaternion, or when a form is chosen and R is singular (then with a TypeError from get_orient); with no form orient is [1, 2, 3] and the originator and codes are kept; with a form orient is [], both codes become 0 and originator[0..2] are undefined |
| XformNii.ChangeHdrUnits | src/utils/Nifti_viewer/xform_nii.js:555-570 | after a successful change_hdr pixdim[1..3] are NaN, the other pixdim entries are their magnitudes, and xyzt_units is the NUL character |
| XformNii.AbsInPlace | src/utils/Nifti_viewer/xform_nii.js:570 | the array is overwritten with the magnitudes of its old entries |
| XformNii.ChangeHdr | src/utils/Nifti_viewer/xform_nii.js:291-573 | change_hdr on the header arrays agrees with ChangedHdr: the same error, or the new pixdim, originator, codes, xyzt_units and orientation |
| XformNii.AxisAndFlip | src/utils/Nifti_viewer/xform_nii.js:169-173 | rot_orient is the axis a code lies along (1 to 3) and flip_orient is non-zero exactly for the reversed codes 4 to 6 |
| XformNii.Rots | src/utils/Nifti_viewer/xform_nii.js:171 | one axis per orientation code |
| XformNii.Flips | src/utils/Nifti_viewer/xform_nii.js:172 | one flip per orientation code |
| XformNii.RotFlip | src/utils/Nifti_viewer/xform_nii.js:164-173 | the loop fills rot_orient and flip_orient with the axis and the flip of every code |
| XformNii.Ranked | src/utils/Nifti_viewer/xform_nii.js:191-193 | indexOf after sort gives every entry a position inside the list |
| XformNii.ThreeAxesOrder | src/utils/Nifti_viewer/xform_nii.js:193 | three distinct positions 0 to 2 are an order permute accepts |
| XformNii.RankedAxes | src/utils/Nifti_viewer/xform_nii.js:191-193 | for three distinct axes the sort-and-indexOf step gives the 0-based permutation rot_orient[i] - 1, which permute accepts |
| XformNii.Gather | src/utils/Nifti_viewer/xform_nii.js:200-208 | gathering keeps the length |
| XformNii.GatherInverse | src/utils/Nifti_viewer/xform_nii.js:200-208 | gathering along a permutation and then along its inverse gives the sequence back |
| XformNii.MirrorFacts | src/utils/Nifti_viewer/xform_nii.js:210-217 | mirroring keeps an originator inside 1..dim, and mirroring twice gives it back |
| XformNii.Overwrite | src/utils/Nifti_viewer/xform_nii.js:200-216 | the entries from a position on are replaced, every other entry and the length are kept |
| XformNii.MirrorAll | src/utils/Nifti_viewer/xform_nii.js:210-217 | three originator entries come out |
| XformNii.Regathered | src/utils/Nifti_viewer/xform_nii.js:191-220 | the regathering keeps 8 dims, 8 pixdims, 5 originator entries and one flip per rank entry |
| XformNii.GatherAxes | src/utils/Nifti_viewer/xform_nii.js:196-208 | dim[1..3] and pixdim[1..3] are gathered in place through the rank, every other entry kept; the originator copy and flip_orient are gathered the same way |
| XformNii.GatherInPlace | src/utils/Nifti_viewer/xform_nii.js:200-203 | entries 1 to 3 of the array are gathered through the rank, the rest kept |
| XformNii.MirrorOriginator | src/utils/Nifti_viewer/xform_nii.js:210-217 | the originator's first three entries become the gathered ones, mirrored on flipped axes, the rest kept |
| XformNii.Regather | src/utils/Nifti_viewer/xform_nii.js:191-220 | the rank, dim, pixdim, originator and flip_orient after lines 191-220 agree with Regathered |
| XformNii.RegatheredAt | src/utils/Nifti_viewer/xform_nii.js:200-217 | entry i of each regathered array is the old entry at rank[i], mirrored on a flipped axis for the originator |
| XformNii.RegatherPermutes | src/utils/Nifti_viewer/xform_nii.js:169-220 | for three codes along distinct axes the new axis i is the old axis rot_orient[i] for dim, pixdim, flip_orient and the (mirrored) originator, and the rank is a valid permute order |
| XformNii.RegatherKeepsVolume | src/utils/Nifti_viewer/xform_nii.js:200-203 | the voxel count dim[1]·dim[2]·dim[3] is kept along three distinct axes |
| XformNii.RegatherIdentity | src/utils/Nifti_viewer/xform_nii.js:169-220 | on the identity orientation the general branch would keep dim, pixdim and the originator, with rank [0, 1, 2] and no flips |
| XformNii.ScaledFacts | src/utils/Nifti_viewer/xform_nii.js:86-137 | the scaling step fails exactly on a rescalable plain image that is not an array or has elements (the undeclared hdr); otherwise it changes nothing or switches scaling off and makes the image float32 or float64, and a second pass changes nothing |
| XformNii.AfterChangeIdentity | src/utils/Nifti_viewer/xform_nii.js:155-158 | after change_hdr the identity orientation only records empty rot_orient and flip_orient; every other orientation goes to the rotation step |
| XformNii.AfterChangeRotation | src/utils/Nifti_viewer/xform_nii.js:158-277 | a non-identity orientation over the three axes yields a rank permute accepts, keeps the voxel count, and leaves the image undefined exactly when an axis is reversed (flip returns undefined) |
| XformNii.AnalyzeKeepsOrientation | src/utils/Nifti_viewer/xform_nii.js:139-144 | an Analyze file returns after scaling with empty rot_orient and flip_orient and pixdim and the originator as read |
| XformNii.XformPreparedErrors | src/utils/Nifti_viewer/xform_nii.js:71-155 | before the rotation xform_nii fails only in the scaling step or in change_hdr; every other outcome carries the header as it arrived in `original` |
| XformNii.NumberArray | src/utils/Nifti_viewer/xform_nii.js:191 | a fresh array holding the values |
| XformNii.IntArray | src/utils/Nifti_viewer/xform_nii.js:196 | a fresh array holding the values |
| XformNii.Rotate | src/utils/Nifti_viewer/xform_nii.js:275-277 | permute's errors for an invalid rank, the image unchanged for a rank in order, and otherwise the permuted image |
| XformNii.Reorient | src/utils/Nifti_viewer/xform_nii.js:158-284 | the reorientation on the header arrays agrees with AfterChange |
| XformNii.Orient | src/utils/Nifti_viewer/xform_nii.js:153-284 | change_hdr followed by the reorientation agrees with Oriented |
| XformNii.XformNii | src/utils/Nifti_viewer/xform_nii.js:71-289 | xform_nii agrees with XformPrepared up to the rotation (so it throws get_orient's TypeError for a singular R), and the rotation step with what permute does to the image |
| NiftiLoad.HeaderLengths | src/utils/Nifti_viewer/load_nii_hdr.js:105-217 | a header that loads has eight dims, eight pixdims and five originator entries, the lengths xform_nii relies on |
| NiftiLoad.ReadKeepsDatatype | src/utils/Nifti_viewer/load_nifti.js:173-520 | read_image keeps the header's datatype |
| NiftiLoad.ReadFacts | src/utils/Nifti_viewer/load_nifti.js:104-142 | before the transform, an Analyze file (filetype 0) has already been refused by load_nii_img's usage check; the header keeps its lengths and the datatype is one of the eight plain numeric ones |
| NiftiLoad.XformKeepsPlain | src/utils/Nifti_viewer/xform_nii.js:86-117 | the scaling step keeps a plain datatype plain, turning it only into float32 or float64 |
| NiftiLoad.LoadNii | src/utils/Nifti_viewer/load_nifti.js:104-125 | load_nii throws the usage error for an empty filename, then the header reader's, load_nii_img's and xform_nii's errors in turn, and otherwise returns what xform_nii makes of the header and image read |
| AnatomicalConvention.MaxAbsPos | src/utils/Nifti_viewer/nifti_anatomical_conversion.js:202-215 | the position found is in range, its magnitude is at least every entry's, and strictly greater than every entry's before it |
| AnatomicalConvention.MaxAbsPosOf | src/utils/Nifti_viewer/nifti_anatomical_conversion.js:202-215 | the running-maximum loop returns the position MaxAbsPos specifies |
| AnatomicalConvention.AbsMaxAt | src/utils/Nifti_viewer/nifti_anatomical_conversion.js:202-215 | an entry strictly larger in magnitude than all others is the one found |
| AnatomicalConvention.Negated | src/utils/Nifti_viewer/nifti_anatomical_conversion.js:65-67 | negating a column keeps three rows of four entries |
| AnatomicalConvention.Regather | src/utils/Nifti_viewer/nifti_anatomical_conversion.js:93-97 | regathering dim[1..3] keeps the length |
| AnatomicalConvention.Columns | src/utils/Nifti_viewer/nifti_anatomical_conversion.js:111-113 | a reordered row keeps four entries |
| AnatomicalConvention.Reordered | src/utils/Nifti_viewer/nifti_anatomical_conversion.js:82-84 | reordering the columns keeps three rows of four entries |
| AnatomicalConvention.ShapeAfter | src/utils/Nifti_viewer/nifti_anatomical_conversion.js:63-186 | the steps keep the number of levels of the image |
| AnatomicalConvention.XOrder | src/utils/Nifti_viewer/nifti_anatomical_conversion.js:70-101 | the X stage permutes by [1, 0, 2] or [2, 0, 1] |
| AnatomicalConvention.XStage | src/utils/Nifti_viewer/nifti_anatomical_conversion.js:51-127 | the X stage keeps the shape of the header and a rot_dim whose matrix is rotation |
| AnatomicalConvention.YStage | src/utils/Nifti_viewer/nifti_anatomical_conversion.js:130-172 | the Y stage keeps the same invariant |
| AnatomicalConvention.ZStage | src/utils/Nifti_viewer/nifti_anatomical_conversion.js:174-186 | the Z stage keeps the same invariant |
| AnatomicalConvention.Rotation | src/utils/Nifti_viewer/nifti_anatomical_conversion.js:44-48 | the rotation matrix is 3 by 3 |
| AnatomicalConvention.RotationLiterals | src/utils/Nifti_viewer/nifti_anatomical_conversion.js:87-91 | the four literal rotation matrices are the permutation matrices of their rot_dim |
| AnatomicalConvention.RotationOfThree | src/utils/Nifti_viewer/nifti_anatomical_conversion.js:116-120 | row i of the rotation matrix is the unit row of rot_dim[i] |
| AnatomicalConvention.XStageMoved | src/utils/Nifti_viewer/nifti_anatomical_conversion.js:70-127 | when srow_x's dominant column is 1 or 2, the image is permuted to bring it first, its sign corrected, and the columns and dim reordered |
| AnatomicalConvention.YStageSwapped | src/utils/Nifti_viewer/nifti_anatomical_conversion.js:145-172 | when srow_y depends most on column 2 and srow_z does not, columns 1 and 2 swap before the sign of column 1 is corrected |
| AnatomicalConvention.XStageAligns | src/utils/Nifti_viewer/nifti_anatomical_conversion.js:51-127 | after the X stage srow_x[0] has the largest magnitude of the first three entries and is not negative, and final_flip[0] is set exactly when it was negative |
| AnatomicalConvention.XStageTranslations | src/utils/Nifti_viewer/nifti_anatomical_conversion.js:82-113 | the X stage keeps the translations srow_*[3] |
| AnatomicalConvention.YStageTranslations | src/utils/Nifti_viewer/nifti_anatomical_conversion.js:148-150 | the Y stage keeps the translations |
| AnatomicalConvention.TranslationsKept | src/utils/Nifti_viewer/nifti_anatomical_conversion.js:40-199 | no stage changes the translations srow_*[3] |
| AnatomicalConvention.XStageFlips | src/utils/Nifti_viewer/nifti_anatomical_conversion.js:63-64 | after the X stage final_flip is 0 or 1 per axis and marks exactly the flips made |
| AnatomicalConvention.YStageFlips | src/utils/Nifti_viewer/nifti_anatomical_conversion.js:137-139 | the same after the Y stage |
| AnatomicalConvention.ZStageFlips | src/utils/Nifti_viewer/nifti_anatomical_conversion.js:179-181 | the same after the Z stage |
| AnatomicalConvention.FlipsMatchSteps | src/utils/Nifti_viewer/nifti_anatomical_conversion.js:59-191 | each sign correction negates one column and flips one level (X at 2, Y at 1, Z at 0), so final_flip holds 0 or 1 per axis, set exactly when that flip was made |
| AnatomicalConvention.RotationsNotComposed | src/utils/Nifti_viewer/nifti_anatomical_conversion.js:151-196 | rot_dim is overwritten, not composed: when both the X and the Y stage permute, rot_dim ends [0, 2, 1] and pixdim is gathered by that alone, while dim was gathered by both |
| AnatomicalConvention.AlignedIsFixed | src/utils/Nifti_viewer/nifti_anatomical_conversion.js:40-199 | an affine with positive, strictly dominant diagonal entries is left as it is: no permute, no flip, identity rotation, dim, pixdim and rows kept |
| AnatomicalConvention.Regathered | src/utils/Nifti_viewer/nifti_anatomical_conversion.js:192-196 | the slice-and-gather loop computes Regather |
| AnatomicalConvention.AppliedSnoc | src/utils/Nifti_viewer/nifti_anatomical_conversion.js:63-186 | the record of flips and permutes grows by one step at the end |
| AnatomicalConvention.TracksFlip | src/utils/Nifti_viewer/nifti_anatomical_conversion.js:63 | a flip keeps the image a regular array and records the step |
| AnatomicalConvention.TracksPermute | src/utils/Nifti_viewer/nifti_anatomical_conversion.js:72 | a permute keeps the image a regular array and records the step |
| AnatomicalConvention.Nifti.constructor | src/utils/Nifti_viewer/nifti_anatomical_conversion.js:40-52 | the loaded rows, dim, pixdim and image, with nothing recorded yet |
| AnatomicalConvention.Nifti.NegateColumn | src/utils/Nifti_viewer/nifti_anatomical_conversion.js:65-67 | column c negated in all three rows, everything else kept |
| AnatomicalConvention.Nifti.RegatherDim | src/utils/Nifti_viewer/nifti_anatomical_conversion.js:93-97 | dim[1..3] gathered by the order, everything else kept |
| AnatomicalConvention.Nifti.RegatherPixdim | src/utils/Nifti_viewer/nifti_anatomical_conversion.js:192-196 | pixdim[1..3] gathered by the order, everything else kept |
| AnatomicalConvention.Nifti.FlipImage | src/utils/Nifti_viewer/nifti_anatomical_conversion.js:63 | the image reversed at the level, the step recorded, everything else kept |
| AnatomicalConvention.Nifti.PermuteImage | src/utils/Nifti_viewer/nifti_anatomical_conversion.js:72 | the image is the permuted one, the step recorded, everything else kept |
| AnatomicalConvention.Nifti.CorrectSign | src/utils/Nifti_viewer/nifti_anatomical_conversion.js:61-68 | flip at the level, final_flip[axis] set, column c negated; dim, pixdim and rot_dim kept |
| AnatomicalConvention.Nifti.ReorderHeader | src/utils/Nifti_viewer/nifti_anatomical_conversion.js:82-97 | columns 0 to 2 and dim[1..3] reordered, rot_dim and rotation set to the order and its matrix, the rest kept |
| AnatomicalConvention.Nifti.MoveX | src/utils/Nifti_viewer/nifti_anatomical_conversion.js:70-127 | agrees with XStage when the dominant column is not the first |
| AnatomicalConvention.Nifti.AlignX | src/utils/Nifti_viewer/nifti_anatomical_conversion.js:51-127 | agrees with XStage |
| AnatomicalConvention.Nifti.SwapY | src/utils/Nifti_viewer/nifti_anatomical_conversion.js:145-172 | agrees with YStage in the swapping branch |
| AnatomicalConvention.Nifti.AlignY | src/utils/Nifti_viewer/nifti_anatomical_conversion.js:130-172 | agrees with YStage |
| AnatomicalConvention.Nifti.AlignZ | src/utils/Nifti_viewer/nifti_anatomical_conversion.js:174-186 | agrees with ZStage |
| AnatomicalConvention.Nifti.Convert | src/utils/Nifti_viewer/nifti_anatomical_conversion.js:40-199 | the header and the added rotation, rot_dim and flip are as Convention computes them, and the image is what the recorded permutes and flips make of the loaded one |
| SeqOps.Filter | src/pages/StimulationPlanning/ContactSelection.jsx:15 | the filter keeps at most the elements it is given |
| SeqOps.FilterMember | src/pages/StimulationPlanning/ContactSelection.jsx:15 | an element survives the filter exactly when it is in the input and satisfies the predicate |
| SeqOps.Insert | src/pages/StimulationPlanning/ContactSelection.jsx:18 | insertion adds exactly the one element |
| SeqOps.Sort | src/pages/StimulationPlanning/ContactSelection.jsx:18 | the sort keeps the length and the multiset of elements |
| SeqOps.FilterCount | src/pages/StimulationPlanning/ContactSelection.jsx:18 | the filter keeps each element satisfying the predicate as often as the input holds it, and drops every other |
| SeqOps.FilterCons | src/pages/StimulationPlanning/ContactSelection.jsx:18 | the filter of a sequence with one element in front |
| SeqOps.InsertTies | src/pages/StimulationPlanning/ContactSelection.jsx:18 | inserting an element leaves the elements tied with any y in their order, the inserted one first among them when tied |
| SeqOps.SortStable | src/pages/StimulationPlanning/ContactSelection.jsx:18 | the sort is stable: the elements tied with any y come out in the order they went in |
| SeqOps.InsertSorted | src/pages/StimulationPlanning/ContactSelection.jsx:18 | inserting into a sorted list under a total preorder keeps it sorted |
| SeqOps.SortSorted | src/pages/StimulationPlanning/ContactSelection.jsx:18 | under a total preorder the sort gives a sorted permutation of its input |
| SeqOps.SortMember | src/pages/StimulationPlanning/FunctionalTestSelection.jsx:98-102 | sorting keeps exactly the elements given |
| SeqOps.SortFirstIsLeast | src/pages/StimulationPlanning/FunctionalTestSelection.jsx:77-81 | the first element after sorting is in the input and may precede every element of it |
| Electrodes.ContactIdsDistinct | src/pages/ContactDesignation/ContactDesignation.jsx:40 | the ids `${label}${index + 1}` of two positions on one electrode differ |
| ContactDesignation.Normalised | src/pages/ContactDesignation/ContactDesignation.jsx:35-47 | the electrodes keep their number, names and contact counts |
| ContactDesignation.NormalisedFacts | src/pages/ContactDesignation/ContactDesignation.jsx:35-47 | contact k gets id label + (k + 1), its electrode's label, index k + 1, mark 0 when missing, surgeon mark true only when it was, focus cleared, every other field kept; ids on one electrode differ |
| ContactDesignation.UpdateContact | src/pages/ContactDesignation/ContactDesignation.jsx:80-92 | updating keeps the electrodes' number, names and contact counts |
| ContactDesignation.UpdateContactFacts | src/pages/ContactDesignation/ContactDesignation.jsx:80-92 | a contact with the id becomes change(contact); every other contact stays |
| ContactDesignation.UpdateContactTwice | src/pages/ContactDesignation/ContactDesignation.jsx:80-92 | two updates of one contact that keep its id compose into one |
| ContactDesignation.UpdateContactNoChange | src/pages/ContactDesignation/ContactDesignation.jsx:80-92 | an update whose change keeps every contact it touches changes nothing |
| ContactDesignation.InitialLayout | src/pages/ContactDesignation/ContactDesignation.jsx:13-20 | the saved layout when it is non-empty, the designation view otherwise |
| ContactDesignation.ToggleLayout | src/pages/ContactDesignation/ContactDesignation.jsx:94-97 | the new layout is a page name other than the current one |
| ContactDesignation.ToggleLayoutTwice | src/pages/ContactDesignation/ContactDesignation.jsx:94-97 | toggling twice restores a page name; anything else lands on the designation view |
| ContactDesignation.StimulationData | src/pages/ContactDesignation/ContactDesignation.jsx:99-123 | no tab when there are no electrodes, otherwise data for every electrode |
| ContactDesignation.StimulationDataFacts | src/pages/ContactDesignation/ContactDesignation.jsx:109-123 | each contact is paired with the one before it (the first with 2), not planned, with duration 3, frequency 105.225 and current 2.445, and keeps its id, marks and location |
| DesignationPage.JsRem | src/pages/ContactDesignation/DesignationPage.jsx:69 | JavaScript's remainder: Dafny's for a non-negative dividend, in (-n, 0] for a negative one |
| DesignationPage.CycleMarkFacts | src/pages/ContactDesignation/DesignationPage.jsx:66-71 | a click moves a mark in 0..3 to the next one, 3 back to 0, and changes nothing else |
| DesignationPage.FourClicksRestore | src/pages/ContactDesignation/DesignationPage.jsx:66-71 | four clicks on a contact with a mark in 0..3 leave every electrode as it was |
| DesignationPage.Lower | src/pages/ContactDesignation/DesignationPage.jsx:12 | lower-casing maps each character and keeps the length |
| DesignationPage.Shown | src/pages/ContactDesignation/DesignationPage.jsx:7-16 | with no filter every electrode; otherwise exactly the electrodes whose lower-cased label starts with the filter |
| DesignationPage.KeyDownFacts | src/pages/ContactDesignation/DesignationPage.jsx:20-27 | Escape, Backspace (by name or code 8) and the current letter clear the filter, another letter becomes it in lower case, other keys leave it; the filter is always empty or one lower-case letter |
| DesignationPage.LetterTwice | src/pages/ContactDesignation/DesignationPage.jsx:20-27 | the same letter pressed twice leaves the filter empty, unless the filter already held that letter, which it then holds again |
| DesignationPage.MarkColorFacts | src/pages/ContactDesignation/DesignationPage.jsx:81-105 | the class starts with the mark's background (none outside 0..3) and ends with the thick border exactly when the surgeon marked the contact |
| ResectionPage.DirectionDimension | src/pages/ContactDesignation/ResectionPage.jsx:500-507 | Sagittal slices dimension 1, Coronal 2, and every other direction 3 |
| ResectionPage.CanvasShowsOtherAxes | src/pages/ContactDesignation/ResectionPage.jsx:576-583 | a slice across dimension d shows the two other spatial dimensions, the lower-numbered as columns |
| ResectionPage.ScrollFacts | src/pages/ContactDesignation/ResectionPage.jsx:376-381 | the new slice lies in 0..max-1 (0 when there is none) and moves one step against the wheel unless that leaves the range |
| ResectionPage.TransformCoordinatesFacts | src/pages/ContactDesignation/ResectionPage.jsx:189-208 | without a volume the row is returned as it is; with one the origin moves by (n - 1) / 2 on each axis |
| ResectionPage.OnClickCount | src/pages/ContactDesignation/ResectionPage.jsx:735-761 | one click toggles the surgeon mark, two set focus and record the focused contact; both reset the count; other counts do nothing |
| ResectionPage.TwoSingleClicksRestore | src/pages/ContactDesignation/ResectionPage.jsx:738-747 | two single clicks leave every electrode as it was |
| ResectionPage.DoubleClickFocuses | src/pages/ContactDesignation/ResectionPage.jsx:748-756 | a double click sets focus on exactly the contacts with the clicked id and changes nothing else |
| ResectionPage.SubCanvasClickFacts | src/pages/ContactDesignation/ResectionPage.jsx:434-464 | the main view and the clicked small view swap directions and slices, the slice counts follow the directions, and a second click swaps them back |
| ResectionPage.MarkName | src/pages/ContactDesignation/ResectionPage.jsx:802-813 | a mark has a name exactly when it is 0 to 3 |
| ResectionPage.MarkNamesDistinct | src/pages/ContactDesignation/ResectionPage.jsx:802-813 | different marks have different names |
| ContactCsv.NewContact | src/utils/contact_csv.js:1-17 | the constructor always throws a ReferenceError, on the undeclared `_x` |
| ContactCsv.NotInvolvedNames | src/utils/contact_csv.js:33-38 | 0, NI, NotInvolved and Green set mark 0 |
| ContactCsv.SeizureOnsetNames | src/utils/contact_csv.js:39-44 | 1, SOZ, SeizureOnsetZone and Red set mark 1 |
| ContactCsv.SeizureNetworkNames | src/utils/contact_csv.js:45-50 | 2, SN, SeizureNetwork and Yellow set mark 2 |
| ContactCsv.SurgeonMarkNames | src/utils/contact_csv.js:51-56 | 3, SurgeonMark, SurgeonToggle and Bold toggle the surgeon mark |
| ContactCsv.EffectOfOthers | src/utils/contact_csv.js:31-58 | only those codes and names have an effect, matched strictly; other numbers, one-character strings, booleans and nullish values are ignored |
| ContactCsv.NegatedTwice | src/utils/contact_csv.js:55 | two toggles restore the surgeon mark's truth, and the value itself once it is a boolean |
| ContactCsv.Contact.constructor | src/utils/contact_csv.js:9-13 | the fields as given |
| ContactCsv.Contact.SetMark | src/utils/contact_csv.js:31-58 | the mark is set, the surgeon mark toggled, or nothing changes, as the switch says; the other fields stay |
| ContactCsv.Contact.IsMarked | src/utils/contact_csv.js:60-62 | the result is the mark or the surgeon mark, and is truthy exactly when one of them is |
| ContactCsv.Contact.IsOutOfBrain | src/utils/contact_csv.js:64-66 | true exactly for the locations OOB and OutOfBrain |
| ContactCsv.Contact.IsWhiteMatter | src/utils/contact_csv.js:68-70 | true exactly for the locations WM and WhiteMatter |
| FunctionalTestSelection.RanksIsTotalPreorder | src/pages/StimulationPlanning/FunctionalTestSelection.jsx:77-81 | the comparator by population then disruption rate, both descending, is a total preorder |
| FunctionalTestSelection.SelectBestIsBest | src/pages/StimulationPlanning/FunctionalTestSelection.jsx:76-82 | the best test is one of the tests, none has a larger population, and none with the same population a larger disruption rate |
| FunctionalTestSelection.AvailableFacts | src/pages/StimulationPlanning/FunctionalTestSelection.jsx:85-105 | the available list holds exactly the region's catalogue tests not yet assigned to the contact, as often as in the catalogue, sorted |
| FunctionalTestSelection.Choice | src/pages/StimulationPlanning/FunctionalTestSelection.jsx:111-117 | a contact gets no test exactly when its region has none, else the best of them |
| FunctionalTestSelection.LastWinsFacts | src/pages/StimulationPlanning/FunctionalTestSelection.jsx:108-120 | a key is assigned exactly when some entry for it has a value, and gets the last such value |
| FunctionalTestSelection.ContactEntries | src/pages/StimulationPlanning/FunctionalTestSelection.jsx:110-118 | one entry per contact |
| FunctionalTestSelection.ContactEntry | src/pages/StimulationPlanning/FunctionalTestSelection.jsx:110-118 | entry i carries contact i's id, and its best test exactly when its region has one |
| FunctionalTestSelection.AutoAssignedFacts | src/pages/StimulationPlanning/FunctionalTestSelection.jsx:108-120 | an id is assigned exactly when some contact with it has a test in its region, and gets the single best test of the last such contact |
| FunctionalTestSelection.AutoAssignTests | src/pages/StimulationPlanning/FunctionalTestSelection.jsx:108-120 | the forEach loop builds the later-wins assignment of every contact's choice |
| FunctionalTestSelection.ConfirmAddTest | src/pages/StimulationPlanning/FunctionalTestSelection.jsx:128-139 | the popup closes; with both selected the test is appended to the contact's list, every other contact kept; otherwise nothing changes |
| FunctionalTestSelection.RemoveTest | src/pages/StimulationPlanning/FunctionalTestSelection.jsx:141-148 | it throws exactly when the contact has no entry; otherwise only the test at the index leaves that contact's list |
| FunctionalTestSelection.AddThenRemove | src/pages/StimulationPlanning/FunctionalTestSelection.jsx:128-148 | adding a test and removing it at the end restores the contact's list and touches no other |
| FunctionalTestSelection.ToggledTwice | src/pages/StimulationPlanning/FunctionalTestSelection.jsx:151-162 | toggling a key twice gives back the keys there were |
| FunctionalTestSelection.ToggleTestDetails | src/pages/StimulationPlanning/FunctionalTestSelection.jsx:151-162 | the key's membership is toggled, every other key kept, each once |
| FunctionalTestSelection.FindById | src/pages/StimulationPlanning/FunctionalTestSelection.jsx:22 | undefined exactly when no catalogue test has the id, else the first that does |
| FunctionalTestSelection.LoadTests | src/pages/StimulationPlanning/FunctionalTestSelection.jsx:15-31 | every saved contact keeps its entry and its number of tests |
| FunctionalTestSelection.LoadTestsFacts | src/pages/StimulationPlanning/FunctionalTestSelection.jsx:17-27 | a complete saved test is kept; an incomplete one becomes the first catalogue test with its id, undefined when there is none |
| ContactSelection.SpliceStart | src/pages/StimulationPlanning/ContactSelection.jsx:66-69 | splice's start: in range as given, past the end the length, negative counted from the end |
| ContactSelection.InsertAt | src/pages/StimulationPlanning/ContactSelection.jsx:69 | the element is inserted before the start, the others kept in order |
| ContactSelection.RemoveOne | src/pages/StimulationPlanning/ContactSelection.jsx:66 | at most one element removed, together with what is left the original elements |
| ContactSelection.Clamped | src/pages/StimulationPlanning/ContactSelection.jsx:58-59 | a missing index or one past the end becomes the length, others are kept |
| ContactSelection.IndexOf | src/pages/StimulationPlanning/ContactSelection.jsx:64 | the first position holding the same object, -1 exactly when none does |
| ContactSelection.MovedFacts | src/pages/StimulationPlanning/ContactSelection.jsx:66 | a move keeps the entries, puts the moved one where the index names, the others in order |
| ContactSelection.MovedFrom | src/pages/StimulationPlanning/ContactSelection.jsx:64-66 | the moved entry is in range: the object, or the last entry when indexOf finds nothing |
| ContactSelection.ForeignObjectNotAdded | src/pages/StimulationPlanning/ContactSelection.jsx:62-66 | another object with an id already listed is not on the list after the move |
| ContactSelection.DropToPlanning | src/pages/StimulationPlanning/ContactSelection.jsx:56-73 | a new id is inserted at the clamped index; a listed one is moved, except that a drop just below its own place changes nothing |
| ContactSelection.DropBackFacts | src/pages/StimulationPlanning/ContactSelection.jsx:91-92 | after a drop back the list holds exactly its entries with another id |
| ContactSelection.DropBackUndoesNewDrop | src/pages/StimulationPlanning/ContactSelection.jsx:56-92 | dropping a new contact and dropping it back gives the list there was |
| ContactSelection.PlanningFlaggedFacts | src/pages/StimulationPlanning/ContactSelection.jsx:75-87 | exactly the contacts with the id get the planning flag; everything else stays |
| ContactSelection.DropBackRestoresElectrodes | src/pages/StimulationPlanning/ContactSelection.jsx:75-105 | planning an unplanned contact and dropping it back leaves the electrodes as they were |
| ContactSelection.WithIds | src/pages/StimulationPlanning/ContactSelection.jsx:109-115 | the electrodes keep their number, names and contact counts |
| ContactSelection.WithIdsFacts | src/pages/StimulationPlanning/ContactSelection.jsx:109-115 | contact k gets id label + (k + 1) and its electrode's label, ids on an electrode differ, nothing else changes |
| ContactSelection.WithIdsIdempotent | src/pages/StimulationPlanning/ContactSelection.jsx:109-115 | giving the ids again, as every render does, changes nothing |
| ContactSelection.AssignIds | src/pages/StimulationPlanning/ContactSelection.jsx:109-115 | the nested loop gives every contact its id and label |
| ContactSelection.NextPairRange | src/pages/StimulationPlanning/ContactSelection.jsx:186-199 | the next pair is in range, except that a contact at index 3 or beyond paired with the first gets 0; a contact paired with the one before moves two on, or to itself when last |
| ContactSelection.ChangePair | src/pages/StimulationPlanning/ContactSelection.jsx:171-216 | nothing on an electrode of at most one contact; a TypeError exactly when the clicked contact's pair, its next pair or the new partner's pair names no contact; otherwise copies of the contacts in which only pairs differ: the new partner points back to the clicked contact, the new partner's previous partner is paired with itself, and every other contact keeps its pair |
| ContactSelection.PlannedMember | src/pages/StimulationPlanning/ContactSelection.jsx:14-17 | a contact is planned-and-listed exactly when it is planned and on some electrode |
| ContactSelection.InitialPlanningFacts | src/pages/StimulationPlanning/ContactSelection.jsx:11-21 | the saved list when there is one; otherwise exactly the planned contacts, each as often as the electrodes hold it, by increasing order, contacts of equal order in the order the electrodes list them; none without data |

## Left out
- NiftiHeader.ReadImageDimension: stated only for a cursor at a whole byte position, the ghost `at`. The header reader calls it at byte 40; a fractional cursor, which only an fseek to a fractional target gives, is not modelled for it.
- NiftiHeader.ReadDataHistory: stated only for a cursor at a whole byte position, the ghost `at`. The header reader calls it at byte 148; a fractional cursor, which only an fseek to a fractional target gives, is not modelled for it.
- AnalyzeHeader.ReadAnalyzeDimension: stated only for a cursor at a whole byte position, the ghost `at`. The header reader calls it at byte 40; a fractional cursor, which only an fseek to a fractional target gives, is not modelled for it.
- AnalyzeHeader.ReadAnalyzeHistory: stated only for a cursor at a whole byte position, the ghost `at`. The header reader calls it at byte 148; a fractional cursor, which only an fseek to a fractional target gives, is not modelled for it.
- IEEE-754 decoding (`getFloat16/32/64` in `FILE.js`) is a parameter, `FloatFormat`: nothing proved depends on how floats are decoded.
- Text decoding covers ASCII bytes only. Any byte of 128 or above becomes U+FFFD; UTF-8 sequences are not decoded.
- The cursor offset after a header block that fails part-way is not modelled. The block readers check the whole extent first and throw the error the first failing read would throw.
- Numbers are reals. NaN and the infinities are not modelled, except where `xform_nii` produces NaN, which `XformNii` models explicitly. 32-bit wrap-around is modelled only in `bitset`.
- Abstract equality `==` does not coerce strings or arrays to numbers. The loader never compares such pairs.
- load_untouch_nii_hdr.js is not part of this model. It is the function parameter `untouchHdr` of `UntouchLoader.LoadUntouchNii`.
- The header extension that `load_nii` leaves commented out is not read.
- The section loop of `load_nii_ext` after `ext.length == 0` cannot be reached, so it is not modelled.
- The affine arithmetic of `change_hdr` (voxel_size and the new originator, lines 530-552 of xform_nii.js) is modelled only by its outcome: both are NaN numbers, so the entries written to pixdim[1..3] and originator[0..2] are undefined.
- The floating-point construction of R (lines 371-519 of xform_nii.js) is not modelled. R is the parameter `affine`, a 3-by-3 matrix of reals; its inverse is the exact Gauss-Jordan inverse, so a nearly singular R that floating point would treat as singular, or the reverse, is not captured.
- XformNii.AsNumber: a string other than "" is read as NaN. JavaScript reads numeric text such as "2" as a number; the arrays get_orient multiplies never hold text, so this is not needed.
- The orthogonality test, the de-shearing of R, the qform matrix entries and the warning text of `change_hdr` are left out, because they are floating-point work. The model keeps only what decides the result: the form choice, the quaternion check, the codes and the units.
- The complex and RGB scaling of `xform_nii` (lines 125-137) and the complex/RGB plane handling of its rotation step (lines 228-273) are left out: they write their results to locals that are discarded.
- The 4-D `pattern` path of the rotation step is left out.
- The selection lists `img_idx`, `dim5_idx`, `dim6_idx`, `dim7_idx` and `slice_idx` are lists of integers in the loader (`Lists`). JavaScript also accepts fractional numbers and nested arrays there, which check_argin and the reading loops would treat as their own cases.
- NiftiImage.SetKeys: two entries of one list that are the same array object are a repeat for `new Set`; the model takes every array entry to be an object of its own.
- UntouchLoader.ReadImage: for an RGB image read with an empty selection list, the reshape sizes include a 0; the permuted image is then not described, only that the result is finished with the final header.
- The float normalisation of datatype 511 (`(val - glmin) / (glmax - glmin)`) is the parameter `normalise`.
- XformNii.XformNii: requires that, whenever the rotation step runs, the image has at most three dimensions and a plain datatype, because the `pattern` path and the complex/RGB plane handling are not modelled.
- NiftiLoad.LoadNii: requires that a loaded image reaching the rotation step has at most three dimensions, for the same reason.
- AnatomicalConvention.Nifti.Convert: requires a regular image of at least three levels with no empty level, and srow rows of four entries and dim/pixdim of eight entries. On other images `permute` and `flip` behave in ways the conversion was not written for.
- FunctionalTestSelection.SelectBest: the in-place sort of its argument is not modelled. The function returns the first element of the sorted copy.
- ContactSelection.ChangePair: modelled on values. The source also writes the old partner's reset pair and the clicked contact's new pair into the original contact objects, which the page's state shares. The model returns only the copies taken before those writes, and does not capture that aliasing.
- ContactSelection.AssignIds: builds new records. The source assigns `id` and `electrodeLabel` on the contact objects in place during render.
- Object identity, which `indexOf` uses in `handleDropToPlanning`, is modelled as a reference number `ref` on each planning-list item.
- `toLowerCase` is modelled on ASCII letters only.
- `mark` and `surgeonMark` are an integer and a boolean on the page records. In `contact_csv.js` they are arbitrary JavaScript values.
- React state, hooks, `savedState` precedence, event listeners, timers, drag-and-drop wiring and canvas drawing and hit-testing are left out. The pages are modelled through the pure functions their handlers apply.
- A saved test that is incomplete and has no catalogue entry loads as undefined. The model records it as `None` and does not follow it further.
- XformNii.GatherAxes: the source gathers dim, pixdim, the originator copy and flip_orient in one loop. The model gathers them one after the other, with the same result.
- XformNii.MultiplyMatrix: the innermost accumulation goes through a local before it is stored in C.
