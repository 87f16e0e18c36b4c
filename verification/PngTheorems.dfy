/** The PNG format as RFC 2083 writes it down, and the proof that the decoder reads it back. */
module PngTheorems {
  import opened Numbers
  import opened Octets
  import opened PngDecoder
  import opened Wrappers

  // ---------------------------------------------------------------- filtering, section 6

  function Distance(p: int, q: int): int {
    if p < q then q - p else p - q
  }

  /** PaethPredictor of section 6.6. */
  function Paeth(a: Byte, b: Byte, c: Byte): Byte {
    var p := a as int + b as int - c as int;
    var pa, pb, pc := Distance(p, a), Distance(p, b), Distance(p, c);
    if pa <= pb && pa <= pc then a else if pb <= pc then b else c
  }

  /** The byte of a row `bpp` before place `i`; left of the row there are zeros. */
  function LeftOf(row: seq<Byte>, i: nat, bpp: nat): Byte
    requires i < |row|
  {
    if i < bpp then 0 else row[i - bpp]
  }

  /** The byte each filter type subtracts: a to the left, b above, c above left. */
  function Subtracted(filter: Byte, a: Byte, b: Byte, c: Byte): Byte
    requires filter <= 4
  {
    match filter
    case 0 => 0
    case 1 => a
    case 2 => b
    case 3 => (a as int + b as int) / 2
    case _ => Paeth(a, b, c)
  }

  /** The filtered bytes of a row: each byte minus its predictor, modulo 256. */
  function FilterRow(row: seq<Byte>, prev: seq<Byte>, bpp: nat, filter: Byte): seq<Byte>
    requires bpp > 0 && filter <= 4 && |row| == |prev|
  {
    seq(|row|, i requires 0 <= i < |row| =>
      (row[i] as int + 256 - Subtracted(filter, LeftOf(row, i, bpp), prev[i], LeftOf(prev, i, bpp)) as int) % 256)
  }

  lemma PredictorsAgree(filter: Byte, a: Byte, b: Byte, c: Byte)
    requires filter <= 4
    ensures Predictor(filter, a, b, c) == Subtracted(filter, a, b, c)
  {
  }

  /** Reconstruction undoes filtering, byte by byte. */
  lemma {:induction false} UnfilterInvertsFilter(row: seq<Byte>, prev: seq<Byte>, bpp: nat, filter: Byte, n: nat)
    requires bpp > 0 && filter <= 4 && |row| == |prev| && n <= |row|
    ensures Unfiltered(FilterRow(row, prev, bpp, filter), prev, bpp, filter, n) == row[..n]
  {
    hide Predictor, Subtracted;
    if n > 0 {
      UnfilterInvertsFilter(row, prev, bpp, filter, n - 1);
      PredictorsAgree(filter, Back(row, n - 1, bpp), prev[n - 1], Back(prev, n - 1, bpp));
    }
  }

  lemma FilterUnfilterAt(raw: seq<Byte>, prev: seq<Byte>, bpp: nat, filter: Byte, i: nat)
    requires bpp > 0 && filter <= 4 && i < |raw| == |prev|
    ensures FilterRow(Unfiltered(raw, prev, bpp, filter, |raw|), prev, bpp, filter)[i] == raw[i]
  {
    hide Predictor, Subtracted;
    var row := Unfiltered(raw, prev, bpp, filter, |raw|);
    var before := Unfiltered(raw, prev, bpp, filter, i);
    UnfilteredPrefix(raw, prev, bpp, filter, i + 1, |raw|);
    UnfilteredPrefix(raw, prev, bpp, filter, i, |raw|);
    assert row[i] == row[..i + 1][i] && (i >= bpp ==> before[i - bpp] == row[i - bpp]);
    assert Back(row, i, bpp) == Back(before, i, bpp);
    PredictorsAgree(filter, Back(before, i, bpp), prev[i], Back(prev, i, bpp));
  }

  /** And filtering undoes reconstruction: no two filtered rows give the same row. */
  lemma FilterInvertsUnfilter(raw: seq<Byte>, prev: seq<Byte>, bpp: nat, filter: Byte)
    requires bpp > 0 && filter <= 4 && |raw| == |prev|
    ensures FilterRow(Unfiltered(raw, prev, bpp, filter, |raw|), prev, bpp, filter) == raw
  {
    hide Predictor, Subtracted, Unfiltered;
    FilteredLength(Unfiltered(raw, prev, bpp, filter, |raw|), prev, bpp, filter);
    forall i | 0 <= i < |raw| ensures FilterRow(Unfiltered(raw, prev, bpp, filter, |raw|), prev, bpp, filter)[i] == raw[i] {
      FilterUnfilterAt(raw, prev, bpp, filter, i);
    }
  }

  lemma {:induction false} UnfilteredPrefix(raw: seq<Byte>, prev: seq<Byte>, bpp: nat, filter: Byte, m: nat, n: nat)
    requires bpp > 0 && filter <= 4 && m <= n <= |raw| && n <= |prev|
    ensures Unfiltered(raw, prev, bpp, filter, n)[..m] == Unfiltered(raw, prev, bpp, filter, m)
    decreases n
  {
    if m < n { UnfilteredPrefix(raw, prev, bpp, filter, m, n - 1); }
  }

  // ---------------------------------------------------------------- whole images

  ghost predicate Shaped(rows: seq<seq<Byte>>, filters: seq<Byte>, stride: nat) {
    && |rows| == |filters|
    && (forall y :: 0 <= y < |rows| ==> |rows[y]| == stride)
    && (forall y :: 0 <= y < |filters| ==> filters[y] <= 4)
  }

  /** Filter byte and filtered bytes of every row, each against the row above. */
  function EncodeRows(rows: seq<seq<Byte>>, filters: seq<Byte>, bpp: nat, prev: seq<Byte>): seq<Byte>
    requires bpp > 0 && Shaped(rows, filters, |prev|)
  {
    if rows == [] then []
    else [filters[0]] + FilterRow(rows[0], prev, bpp, filters[0]) + EncodeRows(rows[1..], filters[1..], bpp, rows[0])
  }

  /** Whatever the image, the pixel size and the choice of filter for each row, the row loop gives
      back the rows. */
  lemma {:induction false} RowsRoundTrip(rows: seq<seq<Byte>>, filters: seq<Byte>, bpp: nat, prev: seq<Byte>,
                                         raw: seq<Byte>, offset: nat)
    requires bpp > 0 && prev != [] && Shaped(rows, filters, |prev|)
    requires offset <= |raw| && EncodeRows(rows, filters, bpp, prev) <= raw[offset..]
    ensures DecodeRows(raw, offset, |rows|, |prev|, bpp, prev) == Rows(rows)
    decreases |rows|
  {
    hide FilterRow, DecodeRow;
    if rows != [] {
      hide DecodeRows;
      var filtered := FilterRow(rows[0], prev, bpp, filters[0]);
      FilteredDecodes(rows[0], prev, bpp, filters[0]);
      FirstOf(raw, offset, filters[0], filtered, EncodeRows(rows[1..], filters[1..], bpp, rows[0]));
      FirstRow(raw, offset, |rows|, bpp, prev, rows[0]);
      RowsRoundTrip(rows[1..], filters[1..], bpp, rows[0], raw, offset + 1 + |prev|);
      assert [rows[0]] + rows[1..] == rows;
    }
  }

  lemma FirstOf(raw: seq<Byte>, offset: nat, filter: Byte, filtered: seq<Byte>, rest: seq<Byte>)
    requires offset <= |raw| && [filter] + filtered + rest <= raw[offset..]
    ensures offset + 1 + |filtered| <= |raw| && raw[offset] == filter
    ensures raw[offset + 1..Min(offset + 1 + |filtered|, |raw|)] == filtered
    ensures rest <= raw[offset + 1 + |filtered|..]
  {
    var all := [filter] + filtered + rest;
    assert raw[offset..][..|all|] == all;
    assert raw[offset + 1 + |filtered|..] == raw[offset..][1 + |filtered|..];
    assert all[1 + |filtered|..] == rest && all[1..1 + |filtered|] == filtered;
  }

  lemma FilteredDecodes(row: seq<Byte>, prev: seq<Byte>, bpp: nat, filter: Byte)
    requires bpp > 0 && filter <= 4 && |row| == |prev|
    ensures |FilterRow(row, prev, bpp, filter)| == |row|
    ensures DecodeRow(FilterRow(row, prev, bpp, filter), prev, |prev|, bpp, filter) == Row(row)
  {
    hide FilterRow, Unfiltered;
    FilteredLength(row, prev, bpp, filter);
    UnfilterInvertsFilter(row, prev, bpp, filter, |row|);
    assert row[..|row|] == row;
  }

  /** DecodeRows, one row on. */
  lemma FirstRow(raw: seq<Byte>, offset: nat, height: nat, bpp: nat, prev: seq<Byte>, row: seq<Byte>)
    requires bpp > 0 && prev != [] && height > 0 && offset < |raw| && |row| == |prev|
    requires DecodeRow(raw[offset + 1..Min(offset + 1 + |prev|, |raw|)], prev, |prev|, bpp, raw[offset]) == Row(row)
    ensures DecodeRows(raw, offset, height, |prev|, bpp, prev)
         == Prepend([row], DecodeRows(raw, offset + 1 + |prev|, height - 1, |prev|, bpp, row))
  {
    hide DecodeRow;
  }

  lemma FilteredLength(row: seq<Byte>, prev: seq<Byte>, bpp: nat, filter: Byte)
    requires bpp > 0 && filter <= 4 && |row| == |prev|
    ensures |FilterRow(row, prev, bpp, filter)| == |row|
  {
  }

  /** Conversely, data that decodes to full rows is the encoding of those rows under its own filter
      bytes. */
  lemma {:induction false} DecodedIsEncoding(raw: seq<Byte>, offset: nat, height: nat, bpp: nat, prev: seq<Byte>,
                                             rows: seq<seq<Byte>>) returns (filters: seq<Byte>)
    requires bpp > 0 && prev != []
    requires DecodeRows(raw, offset, height, |prev|, bpp, prev) == Rows(rows)
    requires forall y :: 0 <= y < |rows| ==> |rows[y]| == |prev|
    ensures |rows| == height && Shaped(rows, filters, |prev|)
    ensures height > 0 ==> offset <= |raw| && EncodeRows(rows, filters, bpp, prev) <= raw[offset..]
    decreases height
  {
    hide FilterRow, DecodeRow;
    if height == 0 {
      filters := [];
    } else {
      hide DecodeRows;
      var stride, filter := |prev|, raw[offset];
      RowsSplit(raw, offset, height, bpp, prev, rows);
      var cut := raw[offset + 1..Min(offset + 1 + stride, |raw|)];
      RowBytes(cut, prev, stride, bpp, filter);
      var rest := DecodedIsEncoding(raw, offset + 1 + stride, height - 1, bpp, rows[0], rows[1..]);
      filters := [filter] + rest;
      hide Shaped;
      FilterInvertsUnfilter(cut, prev, bpp, filter);
      ShapedCons(rows, filter, rest, stride);
      EncodeFirst(rows, filter, rest, bpp, prev, raw, offset);
    }
  }

  lemma ShapedCons(rows: seq<seq<Byte>>, filter: Byte, rest: seq<Byte>, stride: nat)
    requires rows != [] && |rows[0]| == stride && filter <= 4 && Shaped(rows[1..], rest, stride)
    ensures Shaped(rows, [filter] + rest, stride)
  {
    forall y | 0 <= y < |rows| ensures |rows[y]| == stride {
      assert y > 0 ==> rows[y] == rows[1..][y - 1];
    }
  }

  /** DecodeRows, taken apart at its first row. */
  lemma RowsSplit(raw: seq<Byte>, offset: nat, height: nat, bpp: nat, prev: seq<Byte>, rows: seq<seq<Byte>>)
    requires bpp > 0 && prev != [] && height > 0
    requires DecodeRows(raw, offset, height, |prev|, bpp, prev) == Rows(rows)
    ensures rows != [] && offset < |raw|
    ensures DecodeRow(raw[offset + 1..Min(offset + 1 + |prev|, |raw|)], prev, |prev|, bpp, raw[offset]) == Row(rows[0])
    ensures (|rows[0]| == |prev| || offset + 1 + |prev| >= |raw|)
    ensures DecodeRows(raw, offset + 1 + |prev|, height - 1, |prev|, bpp, rows[0]) == Rows(rows[1..])
  {
    var cut := raw[offset + 1..Min(offset + 1 + |prev|, |raw|)];
    DecodedLength(cut, prev, |prev|, bpp, raw[offset]);
    hide DecodeRow;
    var row := DecodeRow(cut, prev, |prev|, bpp, raw[offset]).bytes;
    var tail := DecodeRows(raw, offset + 1 + |prev|, height - 1, |prev|, bpp, row).rows;
    assert rows == [row] + tail && rows[1..] == tail;
  }

  lemma RowBytes(cut: seq<Byte>, prev: seq<Byte>, stride: nat, bpp: nat, filter: Byte)
    requires bpp > 0 && |cut| <= stride == |prev|
    requires var outcome := DecodeRow(cut, prev, stride, bpp, filter); outcome.Row? && |outcome.bytes| == stride
    ensures |cut| == stride && filter <= 4
    ensures DecodeRow(cut, prev, stride, bpp, filter).bytes == Unfiltered(cut, prev, bpp, filter, stride)
  {
    hide Unfiltered;
  }

  lemma EncodeFirst(rows: seq<seq<Byte>>, filter: Byte, rest: seq<Byte>, bpp: nat, prev: seq<Byte>,
                    raw: seq<Byte>, offset: nat)
    requires bpp > 0 && rows != [] && filter <= 4 && |rows[0]| == |prev|
    requires Shaped(rows, [filter] + rest, |prev|) && Shaped(rows[1..], rest, |rows[0]|)
    requires offset + 1 + |prev| <= |raw| && raw[offset] == filter
    requires FilterRow(rows[0], prev, bpp, filter) == raw[offset + 1..offset + 1 + |prev|]
    requires |rows| > 1 ==> EncodeRows(rows[1..], rest, bpp, rows[0]) <= raw[offset + 1 + |prev|..]
    ensures EncodeRows(rows, [filter] + rest, bpp, prev) <= raw[offset..]
  {
    hide FilterRow, Shaped;
    assert ([filter] + rest)[1..] == rest;
    var cut := raw[offset + 1..offset + 1 + |prev|];
    assert raw[offset..] == [filter] + cut + raw[offset + 1 + |prev|..];
  }

  // ---------------------------------------------------------------- chunks, section 3.2

  /** A length or a size: four octets, most significant first. */
  function Bytes32(n: nat): (bytes: seq<Byte>)
    requires n < 0x1_0000_0000
    ensures |bytes| == 4 && FromBigEndian(bytes) == n
  {
    var high, low := n / 0x1_0000, n % 0x1_0000;
    assert high < 0x1_0000;
    var bytes: seq<Byte> := [high / 0x100, high % 0x100, low / 0x100, low % 0x100];
    FourOctets(bytes);
    bytes
  }

  lemma FourOctets(bytes: seq<Byte>)
    requires |bytes| == 4
    ensures
      var (a: int, b: int, c: int, d: int) := (bytes[0], bytes[1], bytes[2], bytes[3]);
      FromBigEndian(bytes) == ((a * 0x100 + b) * 0x100 + c) * 0x100 + d
  {
    assert bytes[..3][..2] == bytes[..2] && bytes[..2][..1] == bytes[..1] && bytes[..1][..0] == [];
    assert FromBigEndian(bytes[..1]) == bytes[0];
    assert FromBigEndian(bytes[..2]) == FromBigEndian(bytes[..1]) * 256 + bytes[1];
    assert FromBigEndian(bytes[..3]) == FromBigEndian(bytes[..2]) * 256 + bytes[2];
  }

  /** A chunk type is four letters. */
  function Name(letters: string): seq<Byte>
    requires forall i :: 0 <= i < |letters| ==> letters[i] < '\U{100}'
  {
    seq(|letters|, i requires 0 <= i < |letters| => letters[i] as int)
  }

  lemma NamesAgree()
    ensures Name("IHDR") == IHDR && Name("IDAT") == IDAT && Name("IEND") == IEND
  {
  }

  datatype Chunk = Chunk(kind: seq<Byte>, data: seq<Byte>, crc: seq<Byte>)
  {
    ghost predicate Valid() {
      |kind| == 4 && |crc| == 4 && |data| < 0x1_0000_0000
    }
  }

  function EncodeChunk(chunk: Chunk): (bytes: seq<Byte>)
    requires chunk.Valid()
    ensures |bytes| == |chunk.data| + 12
  {
    Bytes32(|chunk.data|) + chunk.kind + chunk.data + chunk.crc
  }

  function EncodeChunks(chunks: seq<Chunk>): seq<Byte>
    requires forall i :: 0 <= i < |chunks| ==> chunks[i].Valid()
  {
    if chunks == [] then [] else EncodeChunk(chunks[0]) + EncodeChunks(chunks[1..])
  }

  /** Chunks between the header and the end: image data and ancillary chunks in any order. */
  ghost predicate Body(chunks: seq<Chunk>) {
    forall i :: 0 <= i < |chunks| ==> chunks[i].Valid() && chunks[i].kind != Name("IHDR") && chunks[i].kind != Name("IEND")
  }

  /** The same in the decoder's bytes. */
  ghost predicate Between(chunks: seq<Chunk>) {
    forall i :: 0 <= i < |chunks| ==> chunks[i].Valid() && chunks[i].kind != IHDR && chunks[i].kind != IEND
  }

  lemma BodyIsBetween(chunks: seq<Chunk>)
    ensures Body(chunks) <==> Between(chunks)
  {
    NamesAgree();
    hide Name;
  }

  /** What a chunk adds to the image data. */
  function Contents(chunk: Chunk): seq<Byte> {
    if chunk.kind == Name("IDAT") then chunk.data else []
  }

  /** The concatenated contents of the IDAT chunks. */
  function ImageData(chunks: seq<Chunk>): seq<Byte> {
    if chunks == [] then [] else Contents(chunks[0]) + ImageData(chunks[1..])
  }

  /** The parts of a chunk in the file. */
  lemma ChunkParts(png: seq<Byte>, pos: nat, chunk: Chunk)
    requires chunk.Valid() && pos <= |png| && EncodeChunk(chunk) <= png[pos..]
    ensures pos + 12 + |chunk.data| <= |png| && FromBigEndian(png[pos..pos + 4]) == |chunk.data|
    ensures png[pos + 4..pos + 8] == chunk.kind && png[pos + 8..pos + 8 + |chunk.data|] == chunk.data
  {
    hide FromBigEndian, Bytes32;
    var n, code := |chunk.data|, EncodeChunk(chunk);
    assert png[pos..][..|code|] == code;
    assert png[pos..pos + 4] == code[..4] == Bytes32(n);
    assert png[pos + 4..pos + 8] == code[4..8] == chunk.kind;
    assert png[pos + 8..pos + 8 + n] == code[8..8 + n] == chunk.data;
  }

  /** The walk over one whole chunk. */
  lemma WalkChunk(png: seq<Byte>, pos: nat, chunk: Chunk, header: Header)
    requires chunk.Valid() && pos <= |png| && EncodeChunk(chunk) <= png[pos..]
    ensures pos + 12 + |chunk.data| <= |png|
    ensures Walk(png, pos, header) ==
      var next := pos + 12 + |chunk.data|;
      if chunk.kind == IHDR then
        if |chunk.data| < 10 then None
        else Walk(png, next, header.(bitDepth := chunk.data[8], colorType := chunk.data[9]))
      else if chunk.kind == IDAT then Walk(png, next, header.(idat := header.idat + chunk.data))
      else if chunk.kind == IEND then Some(header)
      else Walk(png, next, header)
  {
    hide FromBigEndian, EncodeChunk;
    ChunkParts(png, pos, chunk);
  }

  lemma PrefixParts(whole: seq<Byte>, pos: nat, head: seq<Byte>, rest: seq<Byte>)
    requires pos <= |whole| && head + rest <= whole[pos..]
    ensures pos + |head| <= |whole| && head <= whole[pos..] && rest <= whole[pos + |head|..]
  {
    assert whole[pos..][..|head + rest|] == head + rest;
    assert head == (head + rest)[..|head|];
    assert whole[pos + |head|..] == whole[pos..][|head|..];
  }

  lemma WalkBodyChunk(png: seq<Byte>, pos: nat, chunk: Chunk, header: Header)
    requires chunk.Valid() && chunk.kind != IHDR && chunk.kind != IEND
    requires pos <= |png| && EncodeChunk(chunk) <= png[pos..]
    ensures pos + |EncodeChunk(chunk)| <= |png|
    ensures Walk(png, pos, header)
         == Walk(png, pos + |EncodeChunk(chunk)|, header.(idat := header.idat + Contents(chunk)))
  {
    WalkChunk(png, pos, chunk, header);
    NamesAgree();
    hide Walk, IHDR, IDAT, IEND, Name;
    assert header.idat + [] == header.idat;
  }

  lemma WalkEndChunk(png: seq<Byte>, pos: nat, end: Chunk, header: Header)
    requires end.Valid() && end.kind == IEND && pos <= |png| && EncodeChunk(end) <= png[pos..]
    ensures Walk(png, pos, header) == Some(header)
  {
    assert IEND != IHDR && IEND != IDAT by { assert IEND[0] == 73 && IEND[1] == 69 && IHDR[1] == 72 && IDAT[1] == 68; }
    hide Walk, EncodeChunk;
    WalkChunk(png, pos, end, header);
  }

  lemma FirstChunk(chunks: seq<Chunk>, tail: seq<Byte>)
    requires chunks != [] && forall i :: 0 <= i < |chunks| ==> chunks[i].Valid()
    ensures EncodeChunks(chunks) + tail == EncodeChunk(chunks[0]) + (EncodeChunks(chunks[1..]) + tail)
  {
    hide *;
    ChunksUnfold(chunks);
    Associative(EncodeChunk(chunks[0]), EncodeChunks(chunks[1..]), tail);
  }

  lemma ChunksUnfold(chunks: seq<Chunk>)
    requires chunks != [] && forall i :: 0 <= i < |chunks| ==> chunks[i].Valid()
    ensures EncodeChunks(chunks) == EncodeChunk(chunks[0]) + EncodeChunks(chunks[1..])
  {
    hide EncodeChunk;
  }

  lemma Associative(a: seq<Byte>, b: seq<Byte>, c: seq<Byte>)
    ensures a + b + c == a + (b + c)
  {
  }

  lemma FirstContents(before: seq<Byte>, chunks: seq<Chunk>)
    requires chunks != []
    ensures before + ImageData(chunks) == before + Contents(chunks[0]) + ImageData(chunks[1..])
  {
    assert ImageData(chunks) == Contents(chunks[0]) + ImageData(chunks[1..]);
  }

  lemma {:induction false} WalkOver(png: seq<Byte>, pos: nat, chunks: seq<Chunk>, end: Chunk, header: Header)
    requires Between(chunks) && end.Valid() && end.kind == IEND
    requires pos <= |png| && EncodeChunks(chunks) + EncodeChunk(end) <= png[pos..]
    ensures Walk(png, pos, header) == Some(header.(idat := header.idat + ImageData(chunks)))
    decreases |chunks|
  {
    hide Walk, EncodeChunk, Contents, IHDR, IDAT, IEND;
    if chunks == [] {
      assert [] + EncodeChunk(end) == EncodeChunk(end);
      WalkEndChunk(png, pos, end, header);
      assert header.idat + [] == header.idat;
    } else {
      FirstChunk(chunks, EncodeChunk(end));
      FirstContents(header.idat, chunks);
      hide EncodeChunks, ImageData;
      PrefixParts(png, pos, EncodeChunk(chunks[0]), EncodeChunks(chunks[1..]) + EncodeChunk(end));
      WalkBodyChunk(png, pos, chunks[0], header);
      WalkOver(png, pos + |EncodeChunk(chunks[0])|, chunks[1..], end,
               header.(idat := header.idat + Contents(chunks[0])));
    }
  }

  /** Over any body the walk collects exactly the IDAT contents, and the IEND chunk ends it: what
      follows the end is never read. */
  lemma WalkCollects(png: seq<Byte>, pos: nat, chunks: seq<Chunk>, end: Chunk, header: Header)
    requires Body(chunks) && end.Valid() && end.kind == Name("IEND")
    requires pos <= |png| && EncodeChunks(chunks) + EncodeChunk(end) <= png[pos..]
    ensures Walk(png, pos, header) == Some(header.(idat := header.idat + ImageData(chunks)))
  {
    BodyIsBetween(chunks);
    NamesAgree();
    hide Name, Walk, EncodeChunk, EncodeChunks, ImageData, IHDR, IDAT, IEND, Body, Between;
    WalkOver(png, pos, chunks, end, header);
  }

  // ---------------------------------------------------------------- pixels and whole files

  /** A pixel as section 2.3 lists them: one grey sample or three colour samples, with or without an alpha sample. */
  datatype Pixel8 =
    | Grey(level: Byte)
    | Colours(red: Byte, green: Byte, blue: Byte)
    | GreyAlpha(level: Byte, alpha: Byte)
    | ColoursAlpha(red: Byte, green: Byte, blue: Byte, alpha: Byte)
  {
    /** The colour type of section 4.1.1. */
    function Type(): Byte {
      match this
      case Grey(_) => 0
      case Colours(_, _, _) => 2
      case GreyAlpha(_, _) => 4
      case ColoursAlpha(_, _, _, _) => 6
    }

    function Samples(): seq<Byte> {
      match this
      case Grey(level) => [level]
      case Colours(red, green, blue) => [red, green, blue]
      case GreyAlpha(level, alpha) => [level, alpha]
      case ColoursAlpha(red, green, blue, alpha) => [red, green, blue, alpha]
    }

    /** What the decoder is to make of it: a level of grey stands for three equal samples, alpha is dropped. */
    function Shown(): Rgb {
      match this
      case Grey(level) => Rgb(level, level, level)
      case Colours(red, green, blue) => Rgb(red, green, blue)
      case GreyAlpha(level, _) => Rgb(level, level, level)
      case ColoursAlpha(red, green, blue, _) => Rgb(red, green, blue)
    }
  }

  /** How many samples a pixel of a type has. */
  predicate SampleCount(colorType: Byte, samples: nat) {
    || (colorType == 0 && samples == 1) || (colorType == 2 && samples == 3)
    || (colorType == 4 && samples == 2) || (colorType == 6 && samples == 4)
  }

  /** The scanline: the samples of its pixels from left to right. */
  function Scanline(pixels: seq<Pixel8>): seq<Byte> {
    if pixels == [] then [] else Scanline(pixels[..|pixels| - 1]) + pixels[|pixels| - 1].Samples()
  }

  /** An image of one colour type, `width` pixels wide. */
  ghost predicate Rectangle(image: seq<seq<Pixel8>>, width: nat, colorType: Byte) {
    forall y :: 0 <= y < |image| ==> |image[y]| == width && OfType(image[y], colorType)
  }

  ghost predicate OfType(pixels: seq<Pixel8>, colorType: Byte) {
    forall x :: 0 <= x < |pixels| ==> pixels[x].Type() == colorType
  }

  lemma SamplesFit(pixel: Pixel8, samples: nat)
    requires SampleCount(pixel.Type(), samples)
    ensures |pixel.Samples()| == samples == Channels(pixel.Type())
  {
  }

  lemma {:induction false} ScanlineLength(pixels: seq<Pixel8>, colorType: Byte, samples: nat)
    requires OfType(pixels, colorType) && SampleCount(colorType, samples)
    ensures |Scanline(pixels)| == |pixels| * samples
  {
    if pixels != [] {
      var n := |pixels| - 1;
      SamplesFit(pixels[n], samples);
      ScanlineLength(pixels[..n], colorType, samples);
      assert (n + 1) * samples == n * samples + samples;
    }
  }

  lemma SampleStart(x: nat, n: nat, samples: nat)
    requires x <= n
    ensures x * samples <= n * samples
  {
  }

  /** The samples of pixel `x` stand at its place of the scanline. */
  lemma {:induction false} ScanlineParts(pixels: seq<Pixel8>, colorType: Byte, samples: nat, x: nat)
    requires OfType(pixels, colorType) && SampleCount(colorType, samples) && x < |pixels|
    ensures x * samples <= |Scanline(pixels)| && pixels[x].Samples() <= Scanline(pixels)[x * samples..]
  {
    var n := |pixels| - 1;
    var most := pixels[..n];
    assert OfType(most, colorType);
    hide SampleCount, OfType;
    ScanlineLength(most, colorType, samples);
    SampleStart(x, n, samples);
    var before, last := Scanline(most), pixels[n].Samples();
    assert Scanline(pixels) == before + last;
    hide Scanline;
    if x < n {
      ScanlineParts(most, colorType, samples, x);
      StaysPart(before, last, pixels[x].Samples(), x * samples);
    } else {
      assert (before + last)[n * samples..] == last;
    }
  }

  lemma StaysPart(before: seq<Byte>, last: seq<Byte>, part: seq<Byte>, base: nat)
    requires base <= |before| && part <= before[base..]
    ensures part <= (before + last)[base..]
  {
    assert (before + last)[base..] == before[base..] + last;
  }

  /** The decoder reads a pixel's colour out of its samples. */
  lemma PixelRead(pixels: seq<Pixel8>, colorType: Byte, samples: nat, x: nat)
    requires OfType(pixels, colorType) && SampleCount(colorType, samples) && x < |pixels|
    ensures Pixel(Scanline(pixels), x * Channels(colorType), colorType) == Some(pixels[x].Shown())
  {
    assert pixels[x].Type() == colorType;
    hide *;
    ScanlineParts(pixels, colorType, samples, x);
    SamplesFit(pixels[x], samples);
    SamplesRead(Scanline(pixels), x * samples, pixels[x]);
  }

  lemma SamplesRead(row: seq<Byte>, base: nat, pixel: Pixel8)
    requires base <= |row| && pixel.Samples() <= row[base..]
    ensures Pixel(row, base, pixel.Type()) == Some(pixel.Shown())
  {
    var samples := pixel.Samples();
    assert samples[0] == row[base..][0] == row[base];
    if |samples| > 2 {
      assert samples[1] == row[base..][1] == row[base + 1];
      assert samples[2] == row[base..][2] == row[base + 2];
    }
  }

  /** The colours of the pixels of a row from `x` on. */
  function Colours8(pixels: seq<Pixel8>, x: nat): seq<Rgb>
    requires x <= |pixels|
  {
    seq(|pixels| - x, i requires 0 <= i < |pixels| - x => pixels[x + i].Shown())
  }

  lemma {:induction false} RowShown(pixels: seq<Pixel8>, colorType: Byte, samples: nat, x: nat)
    requires OfType(pixels, colorType) && SampleCount(colorType, samples) && x <= |pixels|
    ensures PixelRow(Scanline(pixels), x, |pixels|, colorType) == Some(Colours8(pixels, x))
    decreases |pixels| - x
  {
    hide Pixel, Channels, Scanline, OfType;
    if x == |pixels| {
      assert Colours8(pixels, x) == [];
    } else {
      PixelRead(pixels, colorType, samples, x);
      RowShown(pixels, colorType, samples, x + 1);
      assert [pixels[x].Shown()] + Colours8(pixels, x + 1) == Colours8(pixels, x);
    }
  }

  function Scanlines(image: seq<seq<Pixel8>>): seq<seq<Byte>> {
    seq(|image|, y requires 0 <= y < |image| => Scanline(image[y]))
  }

  function Colours8s(image: seq<seq<Pixel8>>): seq<seq<Rgb>> {
    seq(|image|, y requires 0 <= y < |image| => Colours8(image[y], 0))
  }

  lemma {:induction false} RowsShown(image: seq<seq<Pixel8>>, width: nat, colorType: Byte, samples: nat)
    requires Rectangle(image, width, colorType) && SampleCount(colorType, samples)
    ensures PixelRows(Scanlines(image), width, colorType) == Some(Colours8s(image))
  {
    hide PixelRow, OfType, Colours8;
    if image == [] {
      assert Colours8s(image) == [];
    } else {
      RowShown(image[0], colorType, samples, 0);
      RowsShown(image[1..], width, colorType, samples);
      assert Scanlines(image)[1..] == Scanlines(image[1..]);
      assert [Colours8(image[0], 0)] + Colours8s(image[1..]) == Colours8s(image);
    }
  }

  lemma ScanlinesShaped(image: seq<seq<Pixel8>>, filters: seq<Byte>, width: nat, colorType: Byte, samples: nat)
    requires Rectangle(image, width, colorType) && SampleCount(colorType, samples)
    requires |filters| == |image| && forall y :: 0 <= y < |filters| ==> filters[y] <= 4
    ensures Shaped(Scanlines(image), filters, width * samples)
  {
    hide OfType, Scanline;
    forall y | 0 <= y < |image| ensures |Scanline(image[y])| == width * samples {
      ScanlineLength(image[y], colorType, samples);
    }
  }

  /** The filtered scanlines of an image: the data to compress. A pixel to the left is `samples` bytes away, and above the
      first row there is a row of zeros. */
  ghost function Filtered(image: seq<seq<Pixel8>>, filters: seq<Byte>, width: nat, colorType: Byte, samples: nat): seq<Byte>
    requires Rectangle(image, width, colorType) && SampleCount(colorType, samples)
    requires |filters| == |image| && forall y :: 0 <= y < |filters| ==> filters[y] <= 4
  {
    ScanlinesShaped(image, filters, width, colorType, samples);
    EncodeRows(Scanlines(image), filters, samples, seq(width * samples, _ => 0))
  }

  lemma FilteredRead(image: seq<seq<Pixel8>>, filters: seq<Byte>, width: nat, colorType: Byte, samples: nat)
    requires Rectangle(image, width, colorType) && SampleCount(colorType, samples) && width > 0
    requires |filters| == |image| && forall y :: 0 <= y < |filters| ==> filters[y] <= 4
    ensures samples == Channels(colorType) > 0 && width * samples > 0
    ensures DecodeRows(Filtered(image, filters, width, colorType, samples), 0, |image|, width * samples, samples,
                       seq(width * samples, _ => 0)) == Rows(Scanlines(image))
  {
    hide DecodeRows, EncodeRows, Scanline, Rectangle;
    ScanlinesShaped(image, filters, width, colorType, samples);
    var raw := Filtered(image, filters, width, colorType, samples);
    assert raw[0..] == raw;
    RowsRoundTrip(Scanlines(image), filters, samples, seq(width * samples, _ => 0), raw, 0);
  }

  function HeaderChunk(width: nat, height: nat, colorType: Byte, crc: seq<Byte>): (chunk: Chunk)
    requires width < 0x1_0000_0000 && height < 0x1_0000_0000 && |crc| == 4
    ensures chunk.Valid() && |chunk.data| == 13 && chunk.data[8] == 8 && chunk.data[9] == colorType
  {
    Chunk(Name("IHDR"), Bytes32(width) + Bytes32(height) + [8, colorType, 0, 0, 0], crc)
  }

  /** A PNG file: signature, IHDR, body, IEND, and whatever follows. */
  function EncodePng(header: Chunk, body: seq<Chunk>, end: Chunk, tail: seq<Byte>): seq<Byte>
    requires header.Valid() && Body(body) && end.Valid()
  {
    [137] + Name("PNG") + [13, 10, 26, 10] + EncodeChunk(header) + EncodeChunks(body) + EncodeChunk(end) + tail
  }

  lemma SignatureAgrees()
    ensures [137] + Name("PNG") + [13, 10, 26, 10] == SIGNATURE
  {
  }

  lemma SizeRead(width: nat, height: nat, colorType: Byte, crc: seq<Byte>, rest: seq<Byte>)
    requires width < 0x1_0000_0000 && height < 0x1_0000_0000 && |crc| == 4
    ensures PngSize(SIGNATURE + EncodeChunk(HeaderChunk(width, height, colorType, crc)) + rest) == (width, height)
  {
    hide Bytes32, FromBigEndian, Name;
    var chunk := HeaderChunk(width, height, colorType, crc);
    var png := SIGNATURE + EncodeChunk(chunk) + rest;
    assert png[16..20] == chunk.data[..4] == Bytes32(width);
    assert png[20..24] == chunk.data[4..8] == Bytes32(height);
  }

  lemma ChunksWalked(png: seq<Byte>, first: Chunk, body: seq<Chunk>, end: Chunk)
    requires first.Valid() && first.kind == Name("IHDR") && |first.data| == 13
    requires Body(body) && end.Valid() && end.kind == Name("IEND") && |png| >= 8
    requires EncodeChunk(first) + (EncodeChunks(body) + EncodeChunk(end)) <= png[8..]
    ensures Walk(png, 8, Header(0, 0, [])) == Some(Header(first.data[8], first.data[9], ImageData(body)))
  {
    NamesAgree();
    hide Walk, EncodeChunk, EncodeChunks, ImageData, Name;
    PrefixParts(png, 8, EncodeChunk(first), EncodeChunks(body) + EncodeChunk(end));
    WalkChunk(png, 8, first, Header(0, 0, []));
    WalkCollects(png, 8 + |EncodeChunk(first)|, body, end, Header(first.data[8], first.data[9], []));
    assert [] + ImageData(body) == ImageData(body);
  }

  lemma Regrouped(a: seq<Byte>, b: seq<Byte>, c: seq<Byte>, d: seq<Byte>, tail: seq<Byte>)
    ensures a + b + c + d + tail == a + b + (c + d + tail)
    ensures b + (c + d) <= (a + b + c + d + tail)[|a|..]
  {
    assert (a + b + c + d + tail)[|a|..] == b + (c + d) + tail;
  }

  /** The walk of a whole file. */
  lemma FileWalked(width: nat, height: nat, colorType: Byte, crc: seq<Byte>, body: seq<Chunk>, end: Chunk, tail: seq<Byte>)
    requires width < 0x1_0000_0000 && height < 0x1_0000_0000
    requires |crc| == 4 && Body(body) && end.Valid() && end.kind == Name("IEND")
    ensures
      var png := EncodePng(HeaderChunk(width, height, colorType, crc), body, end, tail);
      && PngSize(png) == (width, height)
      && Walk(png, 8, Header(0, 0, [])) == Some(Header(8, colorType, ImageData(body)))
  {
    SignatureAgrees();
    assert |SIGNATURE| == 8;
    assert forall i :: 0 <= i < |body| ==> body[i].Valid();
    var first := HeaderChunk(width, height, colorType, crc);
    hide Walk, EncodeChunk, EncodeChunks, ImageData, PngSize, Name, Body, SIGNATURE, HeaderChunk;
    SizeRead(width, height, colorType, crc, EncodeChunks(body) + EncodeChunk(end) + tail);
    Regrouped(SIGNATURE, EncodeChunk(first), EncodeChunks(body), EncodeChunk(end), tail);
    ChunksWalked(EncodePng(first, body, end, tail), first, body, end);
  }

  /** The decoder reads every non-interlaced 8-bit PNG of the four colour types: for any image, given by its pixels, any
      filter per row, any split of the compressed data over IDAT chunks with any other chunks in between, and any
      decompressor that restores the filtered bytes, the result has the image's size and the colour of every pixel. */
  lemma DecodesEveryPng(width: nat, colorType: Byte, samples: nat, picture: seq<seq<Pixel8>>, filters: seq<Byte>,
                        crc: seq<Byte>, body: seq<Chunk>, end: Chunk, tail: seq<Byte>, inflate: Inflate)
    requires 0 < width < 0x1_0000_0000 && 0 < |picture| < 0x1_0000_0000 && SampleCount(colorType, samples)
    requires Rectangle(picture, width, colorType)
    requires |filters| == |picture| && forall y :: 0 <= y < |filters| ==> filters[y] <= 4
    requires |crc| == 4 && Body(body) && end.Valid() && end.kind == Name("IEND") && ImageData(body) != []
    requires inflate(ImageData(body)) == Some(Filtered(picture, filters, width, colorType, samples))
    ensures
      var image := Decode(EncodePng(HeaderChunk(width, |picture|, colorType, crc), body, end, tail), inflate);
      && image.Image? && image.width == width && image.height == |picture| == |image.rows|
      && forall y :: 0 <= y < |picture| ==>
           |image.rows[y]| == width && forall x :: 0 <= x < width ==> image.rows[y][x] == picture[y][x].Shown()
  {
    FileWalked(width, |picture|, colorType, crc, body, end, tail);
    FilteredRead(picture, filters, width, colorType, samples);
    RowsShown(picture, width, colorType, samples);
    hide Walk, DecodeRows, PixelRows, Filtered, EncodePng, ImageData, PngSize, Scanlines, Body, Name, HeaderChunk, Channels;
  }
}
