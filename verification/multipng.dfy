/** MultiPng: a container of PNG images stored back to back in one data
    file, with a text index file `<name>.idx` holding one line
    `frame start end` per image, where start and end are the byte offsets
    of the image in the data file.

    The writer appends an image and its index line; the reader loads the
    index into an ordered map and walks it with a cursor. The PNG codec
    itself (libpng) is supplied from outside: the model decides which
    header to write, which transformations to request and where in the
    data file to decode, but not what libpng does with the samples. */
module MultiPng {
  import opened Wrappers
  import opened Tables
  import opened Media

  /** IHDR colour types, section 11.2.2 of the PNG Specification (Second
      Edition). */
  datatype ColorType = Gray | Rgb | Palette | GrayAlpha | RgbAlpha

  /** The colour type's code in the IHDR chunk. */
  function Code(t: ColorType): int {
    match t
    case Gray => 0
    case Rgb => 2
    case Palette => 3
    case GrayAlpha => 4
    case RgbAlpha => 6
  }

  /** The PNG's "is colour" flag as ReadHeader stores it: true for the RGB,
      RGB with alpha and palette types, which are exactly the types whose
      code has the colour-used bit (2) set. */
  function StoredIsColor(t: ColorType): (c: bool)
    ensures c <==> (Code(t) / 2) % 2 == 1
  {
    t == Rgb || t == RgbAlpha || t == Palette
  }

  /** OpenCV's pixel depths for unsigned 8- and 16-bit samples. */
  const Depth8U := 8
  const Depth16U := 16

  /** The sample depths the writer accepts. */
  predicate IsFormatSupported(depth: int) {
    depth == Depth8U || depth == Depth16U
  }

  /** The colour type the writer stores for an image with `channels`
      channels: grey for one, RGB for three, RGB with alpha otherwise. */
  function ColorTypeFor(channels: int): (t: ColorType)
    ensures channels == 1 ==> t == Gray
    ensures channels == 3 ==> t == Rgb
    ensures channels != 1 && channels != 3 ==> t == RgbAlpha
  {
    if channels == 1 then Gray else if channels == 3 then Rgb else RgbAlpha
  }

  /** Samples per pixel of each colour type. */
  function SamplesPerPixel(t: ColorType): nat {
    match t
    case Gray => 1
    case Rgb => 3
    case Palette => 1
    case GrayAlpha => 2
    case RgbAlpha => 4
  }

  /** The stored colour type keeps the image's channel count for one, three
      and four channels, and for no other count. */
  lemma ColorTypeKeepsChannels(channels: int)
    ensures SamplesPerPixel(ColorTypeFor(channels)) == channels <==> channels == 1 || channels == 3 || channels == 4
  {
  }

  /** The IHDR fields the system writes and reads. */
  datatype Header = Header(width: int, height: int, bitDepth: int, colorType: ColorType)

  /** The transformations libpng is asked to apply to the samples. */
  datatype Transform = Strip16 | Swap | StripAlpha | PaletteToRgb | ExpandGray | Bgr | GrayToRgb | RgbToGray

  /** The step of ReadData at which a transformation is requested. */
  function Stage(t: Transform): nat {
    match t
    case Strip16 => 0
    case Swap => 0
    case StripAlpha => 1
    case PaletteToRgb => 2
    case ExpandGray => 3
    case Bgr => 4
    case GrayToRgb => 4
    case RgbToGray => 4
  }

  /** libpng as the system uses it: `encode` writes the header, the rows under
      the given transformations and the trailer; `header` reads the header
      of the PNG at the start of a byte stream, or fails; `pixels` decodes
      that PNG's samples under the given transformations, or fails. */
  datatype PngCodec = PngCodec(
    encode: (Header, seq<Transform>, Image) -> seq<byte>,
    header: seq<byte> -> Option<Header>,
    pixels: (seq<byte>, seq<Transform>) -> Option<seq<int>>)

  // ----- Writer -----------------------------------------------------------

  /** One line of the index file. */
  datatype IndexLine = IndexLine(frame: int, start: int, end: int)

  /** The writer: the data file's bytes, the index file's lines and the frame
      number the next image is recorded under. */
  datatype Writer = Writer(data: seq<byte>, lines: seq<IndexLine>, idx: int)

  /** The constructor truncates both files and starts at frame 0. */
  const NewWriter := Writer([], [], 0)

  function SetPos(w: Writer, idx: int): (w': Writer)
    ensures GetPos(w') == idx
    ensures w'.data == w.data && w'.lines == w.lines
  {
    w.(idx := idx)
  }

  function GetPos(w: Writer): int {
    w.idx
  }

  /** Whether the data file and the index file could be opened for
      appending: the file system's answer, supplied from outside. */
  datatype WriteIo = WriteIo(dataOpens: bool, indexOpens: bool)

  /** The transformations the writer requests: BGR channel order, and
      16-bit byte swapping on a little-endian host. */
  function WriteTransforms(bigEndian: bool): seq<Transform> {
    if bigEndian then [Bgr] else [Bgr, Swap]
  }

  /** Write: reject an unsupported depth before touching any file; append the
      encoded image to the data file; append its index line when the index
      file opens; then advance the frame number. */
  function Write(w: Writer, img: Image, depth: int, io: WriteIo, bigEndian: bool, codec: PngCodec): (out: (Writer, bool))
    ensures out.1 <==> IsFormatSupported(depth) && io.dataOpens
    ensures !out.1 ==> out.0 == w
    ensures out.1 ==> |w.data| <= |out.0.data| && out.0.data[..|w.data|] == w.data
    ensures out.1 ==>
              out.0.data[|w.data|..] ==
                codec.encode(Header(img.width, img.height, depth, ColorTypeFor(img.channels)), WriteTransforms(bigEndian), img)
    ensures out.1 && io.indexOpens ==> out.0.lines == w.lines + [IndexLine(w.idx, |w.data|, |out.0.data|)]
    ensures out.1 && !io.indexOpens ==> out.0.lines == w.lines
    ensures out.1 ==> out.0.idx == w.idx + 1
  {
    if !IsFormatSupported(depth) then (w, false)
    else if !io.dataOpens then (w, false)
    else
      var header := Header(img.width, img.height, depth, ColorTypeFor(img.channels));
      var bytes := codec.encode(header, WriteTransforms(bigEndian), img);
      var data := w.data + bytes;
      var lines := if io.indexOpens then w.lines + [IndexLine(w.idx, |w.data|, |data|)] else w.lines;
      assert data[..|w.data|] == w.data && data[|w.data|..] == bytes;
      (Writer(data, lines, w.idx + 1), true)
  }

  /** Only 8- and 16-bit samples are written: any other depth is refused
      before a file is touched, and the container stays as it was. */
  lemma OnlySupportedDepthsWrite(w: Writer, img: Image, depth: int, io: WriteIo, bigEndian: bool, codec: PngCodec)
    ensures Write(w, img, depth, io, bigEndian, codec).1 ==> depth == 8 || depth == 16
    ensures depth != 8 && depth != 16 ==> Write(w, img, depth, io, bigEndian, codec) == (w, false)
  {
  }

  /** The index lines describe disjoint, increasing byte ranges inside the
      first `size` bytes of the data file. */
  predicate Disjoint(lines: seq<IndexLine>, size: int) {
    && (forall i :: 0 <= i < |lines| ==> 0 <= lines[i].start <= lines[i].end <= size)
    && (forall i, j :: 0 <= i < j < |lines| ==> lines[i].end <= lines[j].start)
  }

  /** The index lines tile the first `size` bytes of the data file: the first
      range starts at 0, each next one starts where the previous one ended,
      and the last one ends at `size`. */
  predicate Tiled(lines: seq<IndexLine>, size: int) {
    && (|lines| == 0 ==> size == 0)
    && (|lines| > 0 ==> lines[0].start == 0 && lines[|lines| - 1].end == size)
    && (forall i :: 0 <= i < |lines| ==> lines[i].start <= lines[i].end)
    && (forall i :: 0 < i < |lines| ==> lines[i].start == lines[i - 1].end)
  }

  /** Every write keeps the ranges disjoint, whether or not its index line is
      recorded. */
  lemma WritePreservesDisjoint(w: Writer, img: Image, depth: int, io: WriteIo, bigEndian: bool, codec: PngCodec)
    requires Disjoint(w.lines, |w.data|)
    ensures var w' := Write(w, img, depth, io, bigEndian, codec).0;
            Disjoint(w'.lines, |w'.data|)
  {
    var w' := Write(w, img, depth, io, bigEndian, codec).0;
    if Write(w, img, depth, io, bigEndian, codec).1 && io.indexOpens {
      forall i, j | 0 <= i < j < |w'.lines|
        ensures w'.lines[i].end <= w'.lines[j].start
      {
        if j == |w.lines| {
          assert w'.lines[i] == w.lines[i];
        }
      }
    }
  }

  /** Writes whose index lines are all recorded keep the data file tiled:
      each range starts where the previous one ended. */
  lemma WritePreservesTiled(w: Writer, img: Image, depth: int, bigEndian: bool, codec: PngCodec)
    requires Tiled(w.lines, |w.data|)
    ensures var w' := Write(w, img, depth, WriteIo(true, true), bigEndian, codec).0;
            Tiled(w'.lines, |w'.data|)
  {
    var w' := Write(w, img, depth, WriteIo(true, true), bigEndian, codec).0;
    if IsFormatSupported(depth) {
      assert w'.lines[|w.lines|].start == |w.data|;
      forall i | 0 < i < |w'.lines|
        ensures w'.lines[i].start == w'.lines[i - 1].end
      {
        if i < |w.lines| {
          assert w'.lines[i] == w.lines[i] && w'.lines[i - 1] == w.lines[i - 1];
        }
      }
    }
  }

  /** A tiling is disjoint. */
  lemma {:induction false} TiledIsDisjoint(lines: seq<IndexLine>, size: int)
    requires Tiled(lines, size)
    ensures Disjoint(lines, size)
    decreases |lines|
  {
    if |lines| > 0 {
      var n := |lines| - 1;
      var prev := lines[..n];
      var cut := lines[n].start;
      if n > 0 {
        assert prev[n - 1].end == cut;
      }
      TiledIsDisjoint(prev, cut);
      forall i, j | 0 <= i < j < |lines|
        ensures lines[i].end <= lines[j].start
      {
        if j < n {
          assert lines[i] == prev[i] && lines[j] == prev[j];
        } else if i < n {
          assert lines[i] == prev[i];
        }
      }
      forall i | 0 <= i < |lines|
        ensures 0 <= lines[i].start <= lines[i].end <= size
      {
        if i < n {
          assert lines[i] == prev[i];
        }
      }
    }
  }

  // ----- Reader -----------------------------------------------------------

  /** A frame's byte range in the data file. */
  datatype Range = Range(start: int, end: int)

  /** The files the container lives in: data files and parsed index files,
      by path. */
  datatype Files = Files(data: map<string, seq<byte>>, index: map<string, seq<IndexLine>>)

  /** The index file belonging to a data file. */
  function IndexPath(path: string): string {
    path + ".idx"
  }

  /** The reader: the data file if it opened, the ordered index, the cursor
      (-1 for none), the colour request, whether 16-bit samples are kept,
      and the host's byte order. */
  datatype Reader = Reader(
    data: Option<seq<byte>>,
    index: map<int, Range>,
    cursor: int,
    colorRequest: int,
    nativeDepth: bool,
    bigEndian: bool)

  function IndexPairs(lines: seq<IndexLine>): (ps: seq<(int, Range)>)
    ensures |ps| == |lines|
    ensures forall i :: 0 <= i < |ps| ==> ps[i] == (lines[i].frame, Range(lines[i].start, lines[i].end))
  {
    seq(|lines|, i requires 0 <= i < |lines| => (lines[i].frame, Range(lines[i].start, lines[i].end)))
  }

  /** The ordered index the reader builds from the index lines: every frame
      named by a line, bound to the range of the last line naming it. */
  function LoadIndex(lines: seq<IndexLine>): (m: map<int, Range>)
    ensures forall i :: 0 <= i < |lines| ==> lines[i].frame in m
    ensures forall f :: f in m ==> exists i :: 0 <= i < |lines| && lines[i].frame == f
    ensures forall i :: (0 <= i < |lines| && forall j :: i < j < |lines| ==> lines[j].frame != lines[i].frame) ==>
              m[lines[i].frame] == Range(lines[i].start, lines[i].end)
  {
    var ps := IndexPairs(lines);
    var m := LastWins(ps);
    forall i | 0 <= i < |lines|
      ensures lines[i].frame in m
    {
      assert ps[i].0 == lines[i].frame;
      assert 0 <= LastIndex(ps, lines[i].frame);
    }
    forall f | f in m
      ensures exists i :: 0 <= i < |lines| && lines[i].frame == f
    {
      var i := LastIndex(ps, f);
      assert ps[i].0 == lines[i].frame;
    }
    forall i | 0 <= i < |lines| && (forall j :: i < j < |lines| ==> lines[j].frame != lines[i].frame)
      ensures m[lines[i].frame] == Range(lines[i].start, lines[i].end)
    {
      assert ps[i].0 == lines[i].frame;
      assert LastIndex(ps, lines[i].frame) == i;
    }
    m
  }

  /** Storing the last line a second time changes nothing. */
  lemma RepeatedLastLine(lines: seq<IndexLine>)
    requires |lines| > 0
    ensures LoadIndex(lines + [lines[|lines| - 1]]) == LoadIndex(lines)
  {
    var ps := IndexPairs(lines);
    var qs := IndexPairs(lines + [lines[|lines| - 1]]);
    var p := ps[|ps| - 1];
    assert qs[..|qs| - 1] == ps;
    assert qs[|qs| - 1] == p;
    var m := LastWins(ps[..|ps| - 1]);
    calc {
      LoadIndex(lines + [lines[|lines| - 1]]);
      LastWins(qs);
      LastWins(ps)[p.0 := p.1];
      m[p.0 := p.1][p.0 := p.1];
      { assert m[p.0 := p.1][p.0 := p.1] == m[p.0 := p.1]; }
      m[p.0 := p.1];
      LastWins(ps);
      LoadIndex(lines);
    }
  }

  /** The index as the reader's extraction loop builds it. The loop tests for
      end of file before it extracts, so it makes one pass more than there
      are lines, and that pass stores the values its three variables still
      hold. After a non-empty file those are the last line's, stored again;
      after an empty file the variables were never set, and `leftover`
      stands for whatever they hold. */
  function LoadIndexAsWritten(lines: seq<IndexLine>, leftover: IndexLine): (m: map<int, Range>)
    ensures |lines| > 0 ==> m == LoadIndex(lines)
    ensures |lines| == 0 ==> m == map[leftover.frame := Range(leftover.start, leftover.end)]
  {
    if |lines| == 0 then LoadIndex([leftover])
    else
      RepeatedLastLine(lines);
      LoadIndex(lines + [lines[|lines| - 1]])
  }

  /** First: the smallest frame of the index, or -1 when it is empty. */
  function First(r: Reader): (f: int)
    ensures r.index == map[] ==> f == -1
    ensures r.index != map[] ==> f in r.index && forall k :: k in r.index ==> f <= k
  {
    if r.index == map[] then -1 else Min(r.index.Keys)
  }

  /** Last: the largest frame of the index, or -1 when it is empty. */
  function Last(r: Reader): (l: int)
    ensures r.index == map[] ==> l == -1
    ensures r.index != map[] ==> l in r.index && forall k :: k in r.index ==> k <= l
  {
    if r.index == map[] then -1 else Max(r.index.Keys)
  }

  /** GetLength: the number of frames in the index. It is 0 exactly for an
      empty index and never exceeds the span from First to Last. */
  function Length(r: Reader): (n: nat)
    ensures n == 0 <==> r.index == map[]
    ensures n > 0 ==> n <= Last(r) - First(r) + 1
  {
    assert |r.index.Keys| == |r.index|;
    if r.index == map[] then 0
    else
      BoundedSize(r.index.Keys, First(r), Last(r));
      |r.index|
  }

  /** The constructor: open the data file, load the index file if there is
      one, and put the cursor on the smallest frame. */
  function Load(path: string, files: Files, colorRequest: int, nativeDepth: bool, bigEndian: bool): (r: Reader)
    ensures r.data == if path in files.data then Some(files.data[path]) else None
    ensures IndexPath(path) in files.index ==> r.index == LoadIndex(files.index[IndexPath(path)])
    ensures IndexPath(path) !in files.index ==> r.index == map[] && r.cursor == -1
    ensures r.cursor == First(r)
    ensures r.colorRequest == colorRequest
  {
    var data := if path in files.data then Some(files.data[path]) else None;
    var index := if IndexPath(path) in files.index then LoadIndex(files.index[IndexPath(path)]) else map[];
    var r := Reader(data, index, -1, colorRequest, nativeDepth, bigEndian);
    r.(cursor := First(r))
  }

  /** SetNext: put the cursor on `pos` if it is a frame of the index and the
      data file is open, otherwise on -1. */
  function SetNext(r: Reader, pos: int): (r': Reader)
    ensures r'.cursor == pos <==> (pos in r.index && r.data.Some?) || pos == -1
    ensures r'.cursor != pos ==> r'.cursor == -1
    ensures r'.(cursor := r.cursor) == r
  {
    if pos in r.index && r.data.Some? then r.(cursor := pos) else r.(cursor := -1)
  }

  function Next(r: Reader): int {
    r.cursor
  }

  /** Next reports the frame the following Read delivers: after SetNext it is
      the position asked for when that frame exists in an open container,
      otherwise -1; after loading it is First; and Read returns the frame
      stored under it. */
  lemma NextIsWhatReadDelivers(r: Reader, pos: int, codec: PngCodec)
    ensures Next(SetNext(r, pos)) == if pos in r.index && r.data.Some? then pos else -1
    ensures Read(r, codec).1 == FrameAt(r, Next(r), codec)
    ensures r.data.Some? && Next(r) in r.index && Next(r) != -1 ==>
              Next(Read(r, codec).0) == NextAbove(r.index.Keys, Next(r))
  {
  }

  // ----- Decoding a frame ---------------------------------------------------

  /** ReadData's colour decision: colour output when colour is asked for,
      grey when grey is asked for, and the stored colour when the request is
      negative ("as stored"). */
  function ColorOutput(request: int, storedIsColor: bool): (c: bool)
    ensures request > 0 ==> c
    ensures request == 0 ==> !c
    ensures request < 0 ==> (c <==> storedIsColor)
  {
    request > 0 || (storedIsColor && request < 0)
  }

  /** Transformations requested in strictly increasing stages. */
  predicate Staged(ts: seq<Transform>) {
    forall i, j :: 0 <= i < j < |ts| ==> Stage(ts[i]) < Stage(ts[j])
  }

  /** Requests `t` after `ts` when `cond` holds; `t` belongs to a later
      stage than everything requested before it. */
  function Then(ts: seq<Transform>, cond: bool, t: Transform): (r: seq<Transform>)
    requires Staged(ts)
    requires forall i :: 0 <= i < |ts| ==> Stage(ts[i]) < Stage(t)
    ensures Staged(r)
    ensures forall i :: 0 <= i < |r| ==> Stage(r[i]) <= Stage(t)
    ensures forall x :: x in r <==> x in ts || (cond && x == t)
  {
    if cond then ts + [t] else ts
  }

  /** The transformations ReadData requests, in the order it requests them. */
  function Transforms(h: Header, request: int, nativeDepth: bool, bigEndian: bool): (ts: seq<Transform>)
    ensures StripAlpha in ts
    ensures Staged(ts)
  {
    var stored := StoredIsColor(h.colorType);
    var color := ColorOutput(request, stored);
    var depth := if h.bitDepth > 8 && !nativeDepth then [Strip16] else if !bigEndian then [Swap] else [];
    var alpha := Then(depth, true, StripAlpha);
    var palette := Then(alpha, h.colorType == Palette, PaletteToRgb);
    var gray := Then(palette, h.colorType == Gray && h.bitDepth < 8, ExpandGray);
    Then(gray, true, if stored && color then Bgr else if color then GrayToRgb else RgbToGray)
  }

  /** Which transformations the list holds, stage by stage. */
  lemma TransformsMembers(h: Header, request: int, nativeDepth: bool, bigEndian: bool, x: Transform)
    ensures var stored := StoredIsColor(h.colorType);
            var color := ColorOutput(request, stored);
            x in Transforms(h, request, nativeDepth, bigEndian) <==>
              || (x == Strip16 && h.bitDepth > 8 && !nativeDepth)
              || (x == Swap && !(h.bitDepth > 8 && !nativeDepth) && !bigEndian)
              || x == StripAlpha
              || (x == PaletteToRgb && h.colorType == Palette)
              || (x == ExpandGray && h.colorType == Gray && h.bitDepth < 8)
              || x == (if stored && color then Bgr else if color then GrayToRgb else RgbToGray)
  {
  }

  /** The first stage: 16-bit samples are stripped to 8 bits unless native
      depth is kept; otherwise the bytes are swapped on a little-endian
      host. */
  lemma TransformsDepth(h: Header, request: int, nativeDepth: bool, bigEndian: bool)
    ensures var ts := Transforms(h, request, nativeDepth, bigEndian);
            && (Strip16 in ts <==> h.bitDepth > 8 && !nativeDepth)
            && (Swap in ts <==> !(h.bitDepth > 8 && !nativeDepth) && !bigEndian)
  {
    TransformsMembers(h, request, nativeDepth, bigEndian, Strip16);
    TransformsMembers(h, request, nativeDepth, bigEndian, Swap);
  }

  /** Palette images are expanded to RGB, and grey images of fewer than
      8 bits to 8 bits. */
  lemma TransformsExpansion(h: Header, request: int, nativeDepth: bool, bigEndian: bool)
    ensures var ts := Transforms(h, request, nativeDepth, bigEndian);
            && (PaletteToRgb in ts <==> h.colorType == Palette)
            && (ExpandGray in ts <==> h.colorType == Gray && h.bitDepth < 8)
  {
    TransformsMembers(h, request, nativeDepth, bigEndian, PaletteToRgb);
    TransformsMembers(h, request, nativeDepth, bigEndian, ExpandGray);
  }

  /** The last stage converts between colour and grey: BGR order for a
      colour PNG read as colour, grey to RGB for a grey PNG read as colour,
      and colour to grey when grey is the output. */
  lemma TransformsColour(h: Header, request: int, nativeDepth: bool, bigEndian: bool)
    ensures var ts := Transforms(h, request, nativeDepth, bigEndian);
            var color := ColorOutput(request, StoredIsColor(h.colorType));
            && (Bgr in ts <==> StoredIsColor(h.colorType) && color)
            && (GrayToRgb in ts <==> !StoredIsColor(h.colorType) && color)
            && (RgbToGray in ts <==> !color)
  {
    TransformsMembers(h, request, nativeDepth, bigEndian, Bgr);
    TransformsMembers(h, request, nativeDepth, bigEndian, GrayToRgb);
    TransformsMembers(h, request, nativeDepth, bigEndian, RgbToGray);
  }


  /** The channel count the decoded samples have: three after a conversion
      to BGR or from grey to RGB, one after a conversion to grey. */
  function OutputChannels(ts: seq<Transform>): nat {
    if Bgr in ts || GrayToRgb in ts then 3 else 1
  }

  /** The sample depth the decoded samples have: 16 bits only when a deep
      PNG is decoded without stripping; palette and low-depth grey come out
      as 8 bits. */
  function OutputDepth(h: Header, ts: seq<Transform>): nat {
    if h.bitDepth > 8 && Strip16 !in ts then Depth16U else Depth8U
  }

  /** The channel count of the image Read allocates, as written: three
      whenever the colour request is non-zero. */
  function AllocatedChannels(request: int): (c: nat)
    ensures request != 0 ==> c == 3
    ensures request == 0 ==> c == 1
  {
    if request != 0 then 3 else 1
  }

  /** The depth of the image Read allocates, as written: the PNG's own bit
      depth. */
  function AllocatedDepth(h: Header): int {
    h.bitDepth
  }

  /** With the default request "as stored" (-1), a grey frame is allocated
      three channels but decoded to one. */
  lemma AllocatedChannelsMismatch(h: Header, nativeDepth: bool, bigEndian: bool)
    requires h.colorType == Gray
    ensures AllocatedChannels(-1) == 3
    ensures OutputChannels(Transforms(h, -1, nativeDepth, bigEndian)) == 1
  {
    TransformsColour(h, -1, nativeDepth, bigEndian);
  }

  /** A 4-bit grey frame is allocated with depth 4 but decoded to 8-bit
      samples; a 16-bit frame read without native depth is allocated with
      depth 16 but decoded to 8-bit samples. */
  lemma AllocatedDepthMismatch(request: int, nativeDepth: bool, bigEndian: bool)
    ensures var h := Header(1, 1, 4, Gray);
            AllocatedDepth(h) == 4 && OutputDepth(h, Transforms(h, request, nativeDepth, bigEndian)) == Depth8U
    ensures var h := Header(1, 1, 16, Rgb);
            AllocatedDepth(h) == 16 && OutputDepth(h, Transforms(h, request, false, bigEndian)) == Depth8U
  {
    TransformsDepth(Header(1, 1, 4, Gray), request, nativeDepth, bigEndian);
    TransformsDepth(Header(1, 1, 16, Rgb), request, false, bigEndian);
  }

  /** The channel count a decoded frame is given: three exactly when the
      decode produces colour. */
  function FrameChannels(h: Header, request: int): (c: nat)
    ensures c == 3 <==> ColorOutput(request, StoredIsColor(h.colorType))
    ensures c == 1 || c == 3
  {
    if ColorOutput(request, StoredIsColor(h.colorType)) then 3 else 1
  }

  /** The sample depth a decoded frame is given: 16 bits only for a deep PNG
      read with native depth. */
  function FrameDepth(h: Header, nativeDepth: bool): (d: nat)
    ensures d == Depth16U <==> h.bitDepth > 8 && nativeDepth
    ensures d == Depth8U <==> !(h.bitDepth > 8 && nativeDepth)
  {
    if h.bitDepth > 8 && nativeDepth then Depth16U else Depth8U
  }

  /** A decoded frame's channel count and depth are those of the samples the
      requested transformations produce. */
  lemma FrameShapeMatchesDecode(h: Header, request: int, nativeDepth: bool, bigEndian: bool)
    ensures FrameChannels(h, request) == OutputChannels(Transforms(h, request, nativeDepth, bigEndian))
    ensures FrameDepth(h, nativeDepth) == OutputDepth(h, Transforms(h, request, nativeDepth, bigEndian))
  {
    TransformsColour(h, request, nativeDepth, bigEndian);
    TransformsDepth(h, request, nativeDepth, bigEndian);
  }

  /** The bytes libpng reads from after seeking the data file to `start`;
      a seek past the end leaves nothing to read. */
  function Tail(data: seq<byte>, start: int): (t: seq<byte>)
    ensures 0 <= start <= |data| ==> data == data[..start] + t
    ensures !(0 <= start <= |data|) ==> t == []
  {
    if 0 <= start <= |data| then data[start..] else []
  }

  /** ReadHeader then ReadData on the PNG at the start of `bytes`: fails when
      the header cannot be read, when the image is empty, or when decoding
      fails. */
  function Decode(bytes: seq<byte>, r: Reader, codec: PngCodec): (img: Option<Image>)
    ensures img.Some? ==> codec.header(bytes).Some?
    ensures img.Some? ==> var h := codec.header(bytes).value;
              && h.width != 0 && h.height != 0
              && img.value.width == h.width && img.value.height == h.height
              && img.value.channels == FrameChannels(h, r.colorRequest)
              && img.value.depth == FrameDepth(h, r.nativeDepth)
              && codec.pixels(bytes, Transforms(h, r.colorRequest, r.nativeDepth, r.bigEndian)) == Some(img.value.pixels)
    ensures img.None? ==>
              || codec.header(bytes).None?
              || codec.header(bytes).value.width == 0 || codec.header(bytes).value.height == 0
              || codec.pixels(bytes, Transforms(codec.header(bytes).value, r.colorRequest, r.nativeDepth, r.bigEndian)).None?
  {
    match codec.header(bytes)
    case None => None
    case Some(h) =>
      if h.width == 0 || h.height == 0 then None
      else
        match codec.pixels(bytes, Transforms(h, r.colorRequest, r.nativeDepth, r.bigEndian))
        case None => None
        case Some(px) => Some(Image(h.width, h.height, FrameChannels(h, r.colorRequest), FrameDepth(h, r.nativeDepth), px))
  }

  /** The frame stored under `pos`, defined without the cursor: the PNG at
      the start offset the index records for it, when the data file is open. */
  function FrameAt(r: Reader, pos: int, codec: PngCodec): Option<Image> {
    if pos != -1 && r.data.Some? && pos in r.index then Decode(Tail(r.data.value, r.index[pos].start), r, codec)
    else None
  }

  /** Read: decode the frame under the cursor from its start offset, then
      move the cursor to the next larger frame, or to -1 past the largest,
      whether or not decoding succeeded. Without an open data file, or with
      the cursor off the index, nothing happens. */
  function Read(r: Reader, codec: PngCodec): (out: (Reader, Option<Image>))
    ensures out.1 == FrameAt(r, r.cursor, codec)
    ensures r.data.None? || r.cursor == -1 || r.cursor !in r.index ==> out.0 == r
    ensures r.data.Some? && r.cursor != -1 && r.cursor in r.index ==>
              && out.0 == r.(cursor := out.0.cursor)
              && (Above(r.index.Keys, r.cursor) == {} ==> out.0.cursor == -1)
              && (Above(r.index.Keys, r.cursor) != {} ==>
                    out.0.cursor in r.index && r.cursor < out.0.cursor
                    && forall k :: k in r.index && r.cursor < k ==> out.0.cursor <= k)
  {
    if r.data.Some? && r.cursor != -1 && r.cursor in r.index then
      var image := Decode(Tail(r.data.value, r.index[r.cursor].start), r, codec);
      (r.(cursor := NextAbove(r.index.Keys, r.cursor)), image)
    else
      (r, None)
  }

  /** SetNext followed by Read delivers the frame stored under the position. */
  lemma SetNextThenRead(r: Reader, pos: int, codec: PngCodec)
    ensures Read(SetNext(r, pos), codec).1 == FrameAt(r, pos, codec)
  {
  }

  /** `n` reads in a row. */
  function ReadN(r: Reader, n: nat, codec: PngCodec): (out: (Reader, seq<Option<Image>>))
    ensures |out.1| == n
    ensures out.0.(cursor := r.cursor) == r
    decreases n
  {
    if n == 0 then (r, [])
    else
      var step := Read(r, codec);
      var rest := ReadN(step.0, n - 1, codec);
      (rest.0, [step.1] + rest.1)
  }

  /** Removing the smallest element `c` of the keys above `t` leaves the keys
      above `c`, and the ascending order of the first set is `c` followed by
      the ascending order of the second. */
  lemma AboveMin(keys: set<int>, t: int)
    requires Above(keys, t) != {}
    ensures var c := Min(Above(keys, t));
            && Above(keys, c) == Above(keys, t) - {c}
            && Ascending(Above(keys, t)) == [c] + Ascending(Above(keys, c))
  {
    var s := Above(keys, t);
    var c := Min(s);
    assert Above(keys, c) == s - {c};
  }

  /** The frames stored under the positions `ps`, in order. */
  function FramesAt(r: Reader, ps: seq<int>, codec: PngCodec): (fs: seq<Option<Image>>)
    ensures |fs| == |ps|
    ensures forall i :: 0 <= i < |ps| ==> fs[i] == FrameAt(r, ps[i], codec)
  {
    if |ps| == 0 then [] else [FrameAt(r, ps[0], codec)] + FramesAt(r, ps[1..], codec)
  }

  /** The frame stored under a position does not depend on the cursor. */
  lemma FrameAtIgnoresCursor(r: Reader, cursor: int, pos: int, codec: PngCodec)
    ensures FrameAt(r.(cursor := cursor), pos, codec) == FrameAt(r, pos, codec)
  {
  }

  /** The frames at given positions do not depend on the cursor. */
  lemma {:induction false} FramesIgnoreCursor(r: Reader, cursor: int, ps: seq<int>, codec: PngCodec)
    ensures FramesAt(r.(cursor := cursor), ps, codec) == FramesAt(r, ps, codec)
    decreases |ps|
  {
    if |ps| > 0 {
      FramesIgnoreCursor(r, cursor, ps[1..], codec);
    }
  }

  lemma FramesAtCons(r: Reader, p: int, ps: seq<int>, codec: PngCodec)
    ensures FramesAt(r, [p] + ps, codec) == [FrameAt(r, p, codec)] + FramesAt(r, ps, codec)
  {
    assert ([p] + ps)[1..] == ps;
  }

  /** From a cursor on the smallest frame above `t`, reading once per frame
      above `t` visits those frames in ascending order, each once, and leaves
      the cursor on -1. */
  lemma {:induction false} ReadsAscend(r: Reader, t: int, codec: PngCodec)
    requires r.data.Some? && -1 <= t
    requires r.cursor == NextAbove(r.index.Keys, t)
    ensures var out := ReadN(r, |Above(r.index.Keys, t)|, codec);
            out.0.cursor == -1 && out.1 == FramesAt(r, Ascending(Above(r.index.Keys, t)), codec)
    decreases |Above(r.index.Keys, t)|
  {
    var s := Above(r.index.Keys, t);
    if s != {} {
      var c := r.cursor;
      AboveMin(r.index.Keys, t);
      var s' := Above(r.index.Keys, c);
      var step := Read(r, codec);
      assert c in s && c == Min(s);
      assert step.0.cursor == NextAbove(r.index.Keys, c);
      assert |s'| == |s| - 1;
      assert step.0 == r.(cursor := step.0.cursor);
      ReadsAscend(step.0, c, codec);
      var rest := ReadN(step.0, |s'|, codec);
      assert ReadN(r, |s|, codec) == (rest.0, [step.1] + rest.1);
      assert rest.0.cursor == -1;
      FramesIgnoreCursor(r, step.0.cursor, Ascending(s'), codec);
      FramesAtCons(r, c, Ascending(s'), codec);
    }
  }

  /** Repeated reads from First over an index of non-negative frames visit
      every frame once, in ascending order, and then the cursor is -1. */
  lemma ReadsFromFirst(r: Reader, codec: PngCodec)
    requires r.data.Some? && r.cursor == First(r)
    requires forall k :: k in r.index ==> 0 <= k
    ensures var out := ReadN(r, Length(r), codec);
            out.0.cursor == -1 && out.1 == FramesAt(r, Ascending(r.index.Keys), codec)
  {
    assert Above(r.index.Keys, -1) == r.index.Keys;
    assert |r.index.Keys| == |r.index|;
    ReadsAscend(r, -1, codec);
  }

  /** A freshly written container holds no frames: the truncated index file
      loads as an empty index and the cursor starts on -1. */
  lemma NewContainerIsEmpty(path: string, data: map<string, seq<byte>>, index: map<string, seq<IndexLine>>,
                            colorRequest: int, nativeDepth: bool, bigEndian: bool)
    ensures var files := Files(data[path := NewWriter.data], index[IndexPath(path) := NewWriter.lines]);
            var r := Load(path, files, colorRequest, nativeDepth, bigEndian);
            Length(r) == 0 && First(r) == -1 && Last(r) == -1 && Next(r) == -1
  {
  }

  /** The extraction loop as written turns the empty index file of a
      container written from new into a one-frame index, under a frame
      number no write produced; the corrected loader gives the empty index. */
  lemma EmptyIndexLoadsPhantomFrame(leftover: IndexLine)
    ensures LoadIndexAsWritten(NewWriter.lines, leftover) == map[leftover.frame := Range(leftover.start, leftover.end)]
    ensures |LoadIndexAsWritten(NewWriter.lines, leftover)| == 1
    ensures LoadIndex(NewWriter.lines) == map[]
  {
  }
}
