/** The PNG decoder that inspects QR images (app/services/browser_automation.py:3707-3787): chunk
    walk, in-place reconstruction of filtered scanlines, and conversion to RGB. */
module PngDecoder {
  import opened Numbers
  import opened Octets
  import opened Wrappers

  // ---------------------------------------------------------------- filters

  function Abs(n: int): nat {
    if n < 0 then -n else n
  }

  /** Addition of bytes, as `& 0xFF` leaves it. */
  function Plus(a: int, b: int): Byte {
    (a + b) % 256
  }

  /** The predictor of filter type 4 as the decoder computes it. */
  function PaethPick(left: Byte, up: Byte, upLeft: Byte): Byte {
    var pa, pb, pc := Abs(up - upLeft), Abs(left - upLeft), Abs(left + up - 2 * upLeft);
    if pa <= pb && pa <= pc then left else if pb <= pc then up else upLeft
  }

  /** The decoder's predictor for filter types 0 to 4. */
  function Predictor(filter: Byte, left: Byte, up: Byte, upLeft: Byte): Byte
    requires filter <= 4
  {
    if filter == 1 then left
    else if filter == 2 then up
    else if filter == 3 then (left + up) / 2
    else if filter == 4 then PaethPick(left, up, upLeft)
    else 0
  }

  /** The byte `bpp` positions back, or zero at the start of a row. */
  function Back(row: seq<Byte>, i: nat, bpp: nat): Byte
    requires i < |row| + bpp && bpp > 0
  {
    if i >= bpp then row[i - bpp] else 0
  }

  /** The first `n` bytes of a reconstructed row. */
  function Unfiltered(raw: seq<Byte>, prev: seq<Byte>, bpp: nat, filter: Byte, n: nat): (row: seq<Byte>)
    requires bpp > 0 && filter <= 4 && n <= |raw| && n <= |prev|
    ensures |row| == n
  {
    if n == 0 then []
    else
      var before := Unfiltered(raw, prev, bpp, filter, n - 1);
      before + [Plus(raw[n - 1], Predictor(filter, Back(before, n - 1, bpp), prev[n - 1], Back(prev, n - 1, bpp)))]
  }

  datatype RowOutcome =
    | Row(bytes: seq<Byte>)
    | BadFilter                 // the decoder gives up on the image
    | OutOfBytes                // an index past the end of the data: IndexError

  /** What becomes of the bytes of one scanline. A row without a filter is only read `bpp` bytes
      back, so it may lack its last pixel and still get through. */
  function DecodeRow(raw: seq<Byte>, prev: seq<Byte>, stride: nat, bpp: nat, filter: Byte): RowOutcome
    requires bpp > 0 && |raw| <= stride == |prev|
  {
    if filter > 4 then BadFilter
    else if |raw| == stride then Row(Unfiltered(raw, prev, bpp, filter, stride))
    else if filter == 0 && |raw| + bpp >= stride then Row(raw)
    else OutOfBytes
  }

  lemma {:induction false} UnfilteredNone(raw: seq<Byte>, prev: seq<Byte>, bpp: nat, n: nat)
    requires bpp > 0 && n <= |raw| && n <= |prev|
    ensures Unfiltered(raw, prev, bpp, 0, n) == raw[..n]
  {
    if n > 0 { UnfilteredNone(raw, prev, bpp, n - 1); }
  }

  lemma NoBytes(raw: seq<Byte>, prev: seq<Byte>, bpp: nat, filter: Byte)
    requires bpp > 0
    ensures filter <= 4 ==> Unfiltered(raw, prev, bpp, filter, 0) == []
  {
  }

  lemma NextByte(raw: seq<Byte>, prev: seq<Byte>, bpp: nat, filter: Byte, index: nat, row: seq<Byte>)
    requires bpp > 0 && filter <= 4 && index < |raw| && index < |prev|
    requires row == Unfiltered(raw, prev, bpp, filter, index)
    ensures Unfiltered(raw, prev, bpp, filter, index + 1)
         == row + [Plus(raw[index], Predictor(filter, Back(row, index, bpp), prev[index], Back(prev, index, bpp)))]
  {
  }

  /** The scanline loop, rewriting the buffer in place. */
  method ReconstructRow(current: array<Byte>, prev: seq<Byte>, stride: nat, bpp: nat, filter: Byte)
    returns (outcome: RowOutcome)
    requires bpp > 0 && stride > 0 && current.Length <= stride == |prev|
    modifies current
    ensures outcome == DecodeRow(old(current[..]), prev, stride, bpp, filter)
    ensures outcome.Row? ==> current[..] == outcome.bytes
  {
    hide PaethPick, Unfiltered, Plus;
    ghost var raw := current[..];
    var index := 0;
    NoBytes(raw, prev, bpp, filter);
    while index < stride
      invariant 0 <= index <= stride
      invariant filter > 4 ==> index == 0
      invariant filter <= 4 && index <= |raw| ==> current[..index] == Unfiltered(raw, prev, bpp, filter, index)
      invariant forall k :: index <= k < |raw| ==> current[k] == raw[k]
      invariant index > |raw| ==> filter == 0 && current[..] == raw && index <= |raw| + bpp
    {
      if filter == 0 && index <= |raw| { UnfilteredNone(raw, prev, bpp, index); }
      if index >= bpp && index - bpp >= current.Length { return OutOfBytes; }
      var left: int := if index >= bpp then current[index - bpp] else 0;
      var up: int := prev[index];
      var upLeft: int := if index >= bpp then prev[index - bpp] else 0;
      if filter > 4 { return BadFilter; }
      if filter != 0 {
        if index >= current.Length { return OutOfBytes; }
        var predictor: int;
        if filter == 1 {
          predictor := left;
        } else if filter == 2 {
          predictor := up;
        } else if filter == 3 {
          predictor := (left + up) / 2;
        } else {
          predictor := PaethPick(left, up, upLeft);
        }
        ghost var done := current[..index];
        assert predictor == Predictor(filter, Back(done, index, bpp), prev[index], Back(prev, index, bpp));
        NextByte(raw, prev, bpp, filter, index, done);
        current[index] := Plus(current[index], predictor);
        assert current[..index + 1] == done + [current[index]];
      } else if index < |raw| {
        UnfilteredNone(raw, prev, bpp, index + 1);
        assert current[..index + 1] == raw[..index + 1];
      }
      index := index + 1;
    }
    if filter == 0 { UnfilteredNone(raw, prev, bpp, |raw|); }
    outcome := Row(current[..]);
  }

  // ---------------------------------------------------------------- scanlines

  datatype RowsOutcome =
    | Rows(rows: seq<seq<Byte>>)
    | NoRows                    // the decoder reports the size without rows
    | RowsRaised

  /** The rows from `offset` on. */
  function DecodeRows(raw: seq<Byte>, offset: nat, height: nat, stride: nat, bpp: nat, prev: seq<Byte>): RowsOutcome
    requires bpp > 0 && stride > 0 && (|prev| == stride || offset >= |raw|)
    decreases height
  {
    if height == 0 then Rows([])
    else if offset >= |raw| then NoRows
    else
      match DecodeRow(raw[offset + 1..Min(offset + 1 + stride, |raw|)], prev, stride, bpp, raw[offset])
      case BadFilter => NoRows
      case OutOfBytes => RowsRaised
      case Row(bytes) =>
        match DecodeRows(raw, offset + 1 + stride, height - 1, stride, bpp, bytes)
        case Rows(rest) => Rows([bytes] + rest)
        case other => other
  }

  function Prepend(done: seq<seq<Byte>>, outcome: RowsOutcome): RowsOutcome {
    match outcome
    case Rows(rest) => Rows(done + rest)
    case other => other
  }

  /** The row loop. */
  method ReconstructRows(raw: seq<Byte>, height: nat, stride: nat, bpp: nat) returns (outcome: RowsOutcome)
    requires bpp > 0 && stride > 0
    ensures outcome == DecodeRows(raw, 0, height, stride, bpp, seq(stride, _ => 0))
  {
    hide DecodeRow;
    var rows: seq<seq<Byte>> := [];
    var offset, prev := 0, seq(stride, _ => 0);
    ghost var expected := DecodeRows(raw, 0, height, stride, bpp, prev);
    for done := 0 to height
      invariant |prev| == stride || offset >= |raw|
      invariant Prepend(rows, DecodeRows(raw, offset, height - done, stride, bpp, prev)) == expected
    {
      if offset >= |raw| { return NoRows; }
      var cut := raw[offset + 1..Min(offset + 1 + stride, |raw|)];
      var current := new Byte[|cut|](i requires 0 <= i < |cut| => cut[i]);
      assert current[..] == cut;
      var result := ReconstructRow(current, prev, stride, bpp, raw[offset]);
      match result {
        case BadFilter => return NoRows;
        case OutOfBytes => return RowsRaised;
        case Row(bytes) =>
          DecodedLength(cut, prev, stride, bpp, raw[offset]);
          ghost var rest := DecodeRows(raw, offset + 1 + stride, height - done - 1, stride, bpp, bytes);
          if rest.Rows? { assert rows + ([bytes] + rest.rows) == rows + [bytes] + rest.rows; }
          rows := rows + [current[..]];
          prev := current[..];
          offset := offset + 1 + stride;
      }
    }
    outcome := Rows(rows);
  }

  lemma DecodedLength(raw: seq<Byte>, prev: seq<Byte>, stride: nat, bpp: nat, filter: Byte)
    requires bpp > 0 && |raw| <= stride == |prev|
    ensures var outcome := DecodeRow(raw, prev, stride, bpp, filter);
      outcome.Row? ==> |outcome.bytes| == |raw|
  {
  }

  // ---------------------------------------------------------------- pixels

  datatype Rgb = Rgb(red: Byte, green: Byte, blue: Byte)

  function Channels(colorType: Byte): nat {
    match colorType
    case 0 => 1
    case 2 => 3
    case 4 => 2
    case 6 => 4
    case _ => 0
  }

  predicate Gray(colorType: Byte) {
    colorType == 0 || colorType == 4
  }

  /** The pixel starting at `base`, if the row has its bytes. */
  function Pixel(row: seq<Byte>, base: nat, colorType: Byte): Option<Rgb> {
    if Gray(colorType) then
      if base < |row| then Some(Rgb(row[base], row[base], row[base])) else None
    else if base + 2 < |row| then Some(Rgb(row[base], row[base + 1], row[base + 2]))
    else None
  }

  function Joined<T>(done: seq<T>, rest: Option<seq<T>>): Option<seq<T>> {
    if rest.Some? then Some(done + rest.value) else None
  }

  /** The pixels of a row from `x` on; None where the decoder indexes past its end. */
  function PixelRow(row: seq<Byte>, x: nat, width: nat, colorType: Byte): Option<seq<Rgb>>
    decreases width - x
  {
    if x >= width then Some([])
    else
      var pixel := Pixel(row, x * Channels(colorType), colorType);
      if pixel.None? then None else Joined([pixel.value], PixelRow(row, x + 1, width, colorType))
  }

  function PixelRows(rows: seq<seq<Byte>>, width: nat, colorType: Byte): Option<seq<seq<Rgb>>> {
    if rows == [] then Some([])
    else
      var row := PixelRow(rows[0], 0, width, colorType);
      if row.None? then None else Joined([row.value], PixelRows(rows[1..], width, colorType))
  }

  lemma JoinedNone<T>(rest: Option<seq<T>>)
    ensures Joined([], rest) == rest
  {
    if rest.Some? { assert [] + rest.value == rest.value; }
  }

  lemma JoinedTwice<T>(a: seq<T>, b: seq<T>, rest: Option<seq<T>>)
    ensures Joined(a, Joined(b, rest)) == Joined(a + b, rest)
  {
    if rest.Some? { assert a + (b + rest.value) == a + b + rest.value; }
  }

  /** The conversion loops. */
  method ConvertRows(rows: seq<seq<Byte>>, width: nat, colorType: Byte) returns (result: Option<seq<seq<Rgb>>>)
    ensures result == PixelRows(rows, width, colorType)
  {
    hide Pixel, Channels;
    JoinedNone(PixelRows(rows, width, colorType));
    var rgbRows := [];
    for i := 0 to |rows|
      invariant Joined(rgbRows, PixelRows(rows[i..], width, colorType)) == PixelRows(rows, width, colorType)
    {
      assert rows[i..][1..] == rows[i + 1..];
      JoinedNone(PixelRow(rows[i], 0, width, colorType));
      var rgbRow := [];
      for x := 0 to width
        invariant Joined(rgbRow, PixelRow(rows[i], x, width, colorType)) == PixelRow(rows[i], 0, width, colorType)
      {
        var pixel := Pixel(rows[i], x * Channels(colorType), colorType);
        if pixel.None? { return None; }
        JoinedTwice(rgbRow, [pixel.value], PixelRow(rows[i], x + 1, width, colorType));
        rgbRow := rgbRow + [pixel.value];
      }
      assert rgbRow + [] == rgbRow;
      JoinedTwice(rgbRows, [rgbRow], PixelRows(rows[i + 1..], width, colorType));
      rgbRows := rgbRows + [rgbRow];
    }
    assert rgbRows + [] == rgbRows;
    result := Some(rgbRows);
  }

  // ---------------------------------------------------------------- chunks

  const SIGNATURE: seq<Byte> := [137, 80, 78, 71, 13, 10, 26, 10]
  const IHDR: seq<Byte> := [73, 72, 68, 82]
  const IDAT: seq<Byte> := [73, 68, 65, 84]
  const IEND: seq<Byte> := [73, 69, 78, 68]

  function PngSize(png: seq<Byte>): (nat, nat) {
    if !(SIGNATURE <= png) || |png| < 33 then (0, 0)
    else (FromBigEndian(png[16..20]), FromBigEndian(png[20..24]))
  }

  /** What the chunk walk collects. */
  datatype Header = Header(bitDepth: Byte, colorType: Byte, idat: seq<Byte>)

  /** The chunk walk from `pos` on; None where it indexes past the end of an IHDR chunk. */
  function Walk(png: seq<Byte>, pos: nat, header: Header): Option<Header>
    decreases |png| - pos
  {
    if pos + 8 > |png| then Some(header)
    else
      var dataEnd := pos + 8 + FromBigEndian(png[pos..pos + 4]);
      if dataEnd + 4 > |png| then Some(header)
      else
        var kind, data := png[pos + 4..pos + 8], png[pos + 8..dataEnd];
        if kind == IHDR then
          if |data| < 10 then None
          else Walk(png, dataEnd + 4, header.(bitDepth := data[8], colorType := data[9]))
        else if kind == IDAT then Walk(png, dataEnd + 4, header.(idat := header.idat + data))
        else if kind == IEND then Some(header)
        else Walk(png, dataEnd + 4, header)
  }

  /** The chunk loop. */
  method WalkChunks(png: seq<Byte>) returns (result: Option<Header>)
    ensures result == Walk(png, 8, Header(0, 0, []))
  {
    var pos, header := 8, Header(0, 0, []);
    while pos + 8 <= |png|
      invariant Walk(png, pos, header) == Walk(png, 8, Header(0, 0, []))
      decreases |png| - pos
    {
      var length := FromBigEndian(png[pos..pos + 4]);
      var kind := png[pos + 4..pos + 8];
      var dataEnd := pos + 8 + length;
      if dataEnd + 4 > |png| { break; }
      var data := png[pos + 8..dataEnd];
      if kind == IHDR {
        if |data| < 10 { return None; }
        header := header.(bitDepth := data[8], colorType := data[9]);
      } else if kind == IDAT {
        header := header.(idat := header.idat + data);
      } else if kind == IEND {
        break;
      }
      pos := dataEnd + 4;
    }
    result := Some(header);
  }

  // ---------------------------------------------------------------- the decoder

  /** zlib.decompress; None where it raises. */
  type Inflate = seq<Byte> -> Option<seq<Byte>>

  datatype Image =
    | Image(width: nat, height: nat, rows: seq<seq<Rgb>>)
    | Raised

  function Decode(png: seq<Byte>, inflate: Inflate): Image {
    var (width, height) := PngSize(png);
    if width == 0 || height == 0 then Image(0, 0, [])
    else
      match Walk(png, 8, Header(0, 0, []))
      case None => Raised
      case Some(header) =>
        var channels := Channels(header.colorType);
        if header.bitDepth != 8 || channels == 0 || header.idat == [] then Image(width, height, [])
        else
          match inflate(header.idat)
          case None => Raised
          case Some(raw) =>
            assert width * channels > 0;
            match DecodeRows(raw, 0, height, width * channels, channels, seq(width * channels, _ => 0))
            case NoRows => Image(width, height, [])
            case RowsRaised => Raised
            case Rows(rows) =>
              match PixelRows(rows, width, header.colorType)
              case None => Raised
              case Some(pixels) => Image(width, height, pixels)
  }

  /** _png_rows_rgb. */
  method DecodePng(png: seq<Byte>, inflate: Inflate) returns (image: Image)
    ensures image == Decode(png, inflate)
  {
    hide Walk, DecodeRows, PixelRows;
    var (width, height) := PngSize(png);
    if width == 0 || height == 0 { return Image(0, 0, []); }
    var walked := WalkChunks(png);
    if walked.None? { return Raised; }
    var header := walked.value;
    var channels := Channels(header.colorType);
    if header.bitDepth != 8 || channels == 0 || header.idat == [] { return Image(width, height, []); }
    var inflated := inflate(header.idat);
    if inflated.None? { return Raised; }
    assert width * channels > 0;
    var outcome := ReconstructRows(inflated.value, height, width * channels, channels);
    match outcome {
      case NoRows => return Image(width, height, []);
      case RowsRaised => return Raised;
      case Rows(rows) =>
        var pixels := ConvertRows(rows, width, header.colorType);
        if pixels.None? { return Raised; }
        image := Image(width, height, pixels.value);
    }
  }
}
