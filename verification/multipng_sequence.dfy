/** SequenceReaderMultiPng and SequenceWriterMultiPng: the sequence
    interface over a MultiPng container, for paths ending in ".pngv". */
module MultiPngSequence {
  import opened Wrappers
  import opened Text
  import opened Tables
  import opened Media
  import MP = MultiPng

  /** Only ".pngv" paths are MultiPng containers; the suffix test includes
      the length check the source makes first. */
  predicate IsPngv(path: string) {
    EndsWith(path, ".pngv")
  }

  /** The host properties the decoder depends on: whether 16-bit samples are
      kept, and the byte order. */
  datatype Host = Host(nativeDepth: bool, bigEndian: bool)

  // ----- Reader -----------------------------------------------------------

  /** The adapter: the container reader if one is attached, the position of
      the last read, and the frame range. */
  datatype SeqReader = SeqReader(inner: Option<MP.Reader>, pos: int, first: int, last: int, isColor: int)

  /** The first frame Open settles on: a positive request as given,
      otherwise the container's smallest frame. */
  function OpenFirst(first: int, loaded: MP.Reader): int {
    if first > 0 then first else MP.First(loaded)
  }

  /** The last frame Open settles on: the container's largest frame, capped
      by a positive requested last. */
  function OpenLast(last: int, loaded: MP.Reader): (l: int)
    ensures last > 0 ==> l == Min({last, MP.Last(loaded)})
    ensures last <= 0 ==> l == MP.Last(loaded)
  {
    var stored := MP.Last(loaded);
    if last > 0 && last < stored then last else stored
  }

  /** Open: check the suffix, load the container, settle the frame range,
      read the first frame as a liveness check and, on success, put the
      cursor back on the first frame. */
  function Open(path: string, first: int, last: int, isColor: int, files: MP.Files, host: Host, codec: MP.PngCodec)
    : (r: Option<SeqReader>)
    ensures r.Some? <==>
              IsPngv(path) &&
              var loaded := MP.Load(path, files, isColor, host.nativeDepth, host.bigEndian);
              MP.FrameAt(loaded, OpenFirst(first, loaded), codec).Some?
    ensures r.Some? ==>
              var loaded := MP.Load(path, files, isColor, host.nativeDepth, host.bigEndian);
              && r.value.first == OpenFirst(first, loaded)
              && r.value.last == OpenLast(last, loaded)
              && r.value.inner.Some?
              && r.value.inner.value == loaded.(cursor := r.value.first)
  {
    if !IsPngv(path) then None
    else
      var loaded := MP.Load(path, files, isColor, host.nativeDepth, host.bigEndian);
      var f := OpenFirst(first, loaded);
      var positioned := if first > 0 then MP.SetNext(loaded, f) else loaded;
      var l := OpenLast(last, positioned);
      var probe := MP.Read(positioned, codec);
      assert probe.1 == MP.FrameAt(loaded, f, codec) by {
        assert positioned == loaded.(cursor := positioned.cursor);
        MP.FrameAtIgnoresCursor(loaded, positioned.cursor, f, codec);
        if positioned.cursor != f {
          assert probe.1.None? && MP.FrameAt(loaded, f, codec).None?;
        }
      }
      assert l == OpenLast(last, loaded);
      if probe.1.Some? then
        assert MP.SetNext(probe.0, f) == loaded.(cursor := f);
        Some(SeqReader(Some(MP.SetNext(probe.0, f)), 0, f, l, isColor))
      else None
  }

  /** Read(pos): move the container's cursor to `pos` unless it is already
      there, then read. */
  function Read(r: SeqReader, pos: int, codec: MP.PngCodec): (out: (SeqReader, Option<Image>))
    ensures r.inner.None? ==> out == (r, None)
    ensures r.inner.Some? ==> out.1 == MP.FrameAt(r.inner.value, pos, codec)
    ensures r.inner.Some? ==> out.0.pos == pos && out.0.inner.Some?
    ensures r.inner.Some? && pos != -1 && pos in r.inner.value.index && r.inner.value.data.Some? ==>
              Next(out.0) == NextAbove(r.inner.value.index.Keys, pos)
    ensures out.0.first == r.first && out.0.last == r.last
  {
    match r.inner
    case None => (r, None)
    case Some(inner) =>
      var positioned := if MP.Next(inner) != pos then MP.SetNext(inner, pos) else inner;
      MP.SetNextThenRead(inner, pos, codec);
      var step := MP.Read(positioned, codec);
      (r.(inner := Some(step.0), pos := pos), step.1)
  }

  function First(r: SeqReader): int {
    r.first
  }

  function Last(r: SeqReader): int {
    r.last
  }

  /** Next: the container's cursor, or -1 without a container. */
  function Next(r: SeqReader): (n: int)
    ensures r.inner.None? ==> n == -1
    ensures r.inner.Some? ==> n == r.inner.value.cursor
  {
    match r.inner
    case None => -1
    case Some(inner) => MP.Next(inner)
  }

  /** Close: detach the container and reset the position and range to 0. */
  function Close(r: SeqReader): (c: SeqReader)
    ensures c.inner.None? && Next(c) == -1 && c.first == 0 && c.last == 0
  {
    SeqReader(None, 0, 0, 0, -1)
  }

  /** Sequential reads from First deliver consecutive stored frames: after
      Open, reading the first frame moves Next to the next larger frame of
      the container. */
  lemma OpenThenRead(path: string, first: int, last: int, isColor: int, files: MP.Files, host: Host, codec: MP.PngCodec)
    ensures var o := Open(path, first, last, isColor, files, host, codec);
            o.Some? ==>
              var out := Read(o.value, o.value.first, codec);
              && out.1.Some?
              && Next(out.0) == NextAbove(o.value.inner.value.index.Keys, o.value.first)
  {
    var o := Open(path, first, last, isColor, files, host, codec);
    if o.Some? {
      var r := o.value;
      var loaded := MP.Load(path, files, isColor, host.nativeDepth, host.bigEndian);
      assert MP.FrameAt(r.inner.value, r.first, codec) == MP.FrameAt(loaded, r.first, codec);
    }
  }

  // ----- Writer -----------------------------------------------------------

  /** The adapter: the container writer if one is attached and the frame
      number of the next write. */
  datatype SeqWriter = SeqWriter(writer: Option<MP.Writer>, pos: int, isColor: int)

  /** Open: only ".pngv" paths; a new, truncated container is attached. */
  function OpenWriter(path: string, isColor: int): (w: Option<SeqWriter>)
    ensures w.Some? <==> IsPngv(path)
    ensures w.Some? ==> w.value.writer == Some(MP.NewWriter) && w.value.pos == 0
  {
    if IsPngv(path) then Some(SeqWriter(Some(MP.NewWriter), 0, isColor)) else None
  }

  /** The frame number a write stores under: the given position when it is
      not negative, otherwise the running counter. */
  function FrameOf(w: SeqWriter, pos: int): int {
    if pos >= 0 then pos else w.pos
  }

  /** Write: record the image under the logical frame number, always as 8-bit
      samples, and advance the counter. */
  function Write(w: SeqWriter, img: Image, pos: int, io: MP.WriteIo, bigEndian: bool, codec: MP.PngCodec): (w': SeqWriter)
    requires w.writer.Some?
    ensures w'.writer.Some? && w'.pos == FrameOf(w, pos) + 1 && w'.isColor == w.isColor
    ensures var before := w.writer.value;
            var after := w'.writer.value;
            && |before.data| <= |after.data| && after.data[..|before.data|] == before.data
            && (io.dataOpens && io.indexOpens ==>
                  after.lines == before.lines + [MP.IndexLine(FrameOf(w, pos), |before.data|, |after.data|)])
            && (io.dataOpens && !io.indexOpens ==> after.lines == before.lines)
            && (!io.dataOpens ==> after.data == before.data && after.lines == before.lines)
            && after.data[|before.data|..] == if io.dataOpens then
                 codec.encode(MP.Header(img.width, img.height, MP.Depth8U, MP.ColorTypeFor(img.channels)),
                              MP.WriteTransforms(bigEndian), img)
               else []
  {
    var frame := FrameOf(w, pos);
    var out := MP.Write(MP.SetPos(w.writer.value, frame), img, MP.Depth8U, io, bigEndian, codec);
    w.(writer := Some(out.0), pos := frame + 1)
  }

  function NextToWrite(w: SeqWriter): int {
    w.pos
  }

  /** Close: release the container and reset the counter to 0. */
  function CloseWriter(w: SeqWriter): (c: SeqWriter)
    ensures c.writer.None? && NextToWrite(c) == 0
  {
    SeqWriter(None, 0, -1)
  }
}
