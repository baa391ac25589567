/** What a writer leaves behind is what the matching reader finds: frames
    written to a tar archive one after the other are read back by frame
    number, and a MultiPng container written frame by frame has an index
    whose ranges hold exactly the encoded frames. */
module RoundTrips {
  import opened Wrappers
  import opened Text
  import opened Media
  import opened Archive
  import AR = ArchiveReader
  import AW = ArchiveWriter
  import MP = MultiPng
  import PS = MultiPngSequence

  // ----- Archive ----------------------------------------------------------

  /** A path naming a tar archive ends in neither `:` nor a separator can be
      formed across the join with its pattern. */
  lemma ArchivePathEnd(head: string)
    requires AW.FormatFor(head).Some?
    ensures |head| > 0 && head[|head| - 1] != ':'
  {
    if EndsWith(head, ".tar.gz") {
      assert head[|head| - 1] == ".tar.gz"[6];
    } else if EndsWith(head, ".tgz") {
      assert head[|head| - 1] == ".tgz"[3];
    } else {
      assert head[|head| - 1] == ".tar"[3];
    }
  }

  /** The archive the writer produces is seekable by the reader exactly
      when it is an uncompressed tar. */
  lemma SeekableIffUncompressed(head: string)
    requires AW.FormatFor(head).Some?
    ensures AR.Seekable(head, AW.Filters(AW.FormatFor(head).value)) <==> AW.FormatFor(head) == Some(AW.Pax)
  {
    if AW.FormatFor(head) == Some(AW.GzipPax) {
      assert AW.Filters(AW.GzipPax)[0] != "none";
    }
  }

  /** The reader and the writer cut `<archive>::<pattern>` at the same
      place. */
  lemma SamePathSplit(head: string, pattern: string)
    requires !HasSeparator(head) && AW.FormatFor(head).Some?
    ensures AR.ArchivePathOf(head + "::" + pattern) == head
    ensures AR.PatternOf(head + "::" + pattern) == pattern
    ensures AW.Open(head + "::" + pattern, -1, true).Ok?
  {
    ArchivePathEnd(head);
    SplitOfJoin(head, pattern);
  }

  /** The archive left by writing `imgs` in order, without positions, to a
      new writer for `head::pattern`. */
  function WrittenArchive(head: string, pattern: string, isColor: int, imgs: seq<Image>, times: seq<int>,
                          fmt: Formatter, codec: ImageCodec): (a: Option<ArchiveFile>)
    requires |times| == |imgs|
    ensures a.Some? <==> HasSeparator(head + "::" + pattern) && AW.FormatFor(AR.ArchivePathOf(head + "::" + pattern)).Some?
  {
    match AW.Open(head + "::" + pattern, isColor, true)
    case Ok(w) => Some(AW.Close(AW.WriteAll(w, imgs, times, fmt, codec)))
    case Err(_) => None
  }

  /** The name index of the written archive sends frame i's name to entry i
      when the pattern gives distinct names to the frames written. */
  lemma WrittenNames(entries: seq<Entry>, pattern: string, fmt: Formatter)
    requires forall j :: 0 <= j < |entries| ==> entries[j].pathname == fmt(pattern, j)
    requires forall i, j :: 0 <= i < j < |entries| ==> fmt(pattern, i) != fmt(pattern, j)
    ensures forall i :: 0 <= i < |entries| ==>
              fmt(pattern, i) in AR.ScanNames(entries) && AR.ScanNames(entries)[fmt(pattern, i)] == i
  {
    var names := AR.ScanNames(entries);
    forall i | 0 <= i < |entries|
      ensures fmt(pattern, i) in names && names[fmt(pattern, i)] == i
    {
      assert entries[i].pathname == fmt(pattern, i);
      var k := names[fmt(pattern, i)];
      assert entries[k].pathname == fmt(pattern, k);
    }
  }

  /** A new archive writer given `imgs` in order holds entry j named for
      frame j and holding image j encoded. */
  lemma FreshWriteAll(w: AW.Writer, imgs: seq<Image>, times: seq<int>, fmt: Formatter, codec: ImageCodec)
    requires |times| == |imgs| && w.entries == [] && w.pos == 0
    ensures var entries := AW.WriteAll(w, imgs, times, fmt, codec).entries;
            && |entries| == |imgs|
            && forall j :: 0 <= j < |imgs| ==>
                 entries[j].pathname == fmt(w.pattern, j) && entries[j].data == codec.encode(fmt(w.pattern, j), imgs[j])
  {
    AW.WriteAllNames(w, imgs, times, fmt, codec);
    assert |w.entries| == 0 && w.pos == 0;
  }

  /** The entries of the written archive: one per image, in order, entry j
      named for frame j and holding image j encoded. */
  lemma WrittenEntries(head: string, pattern: string, isColor: int, imgs: seq<Image>, times: seq<int>,
                       fmt: Formatter, codec: ImageCodec)
    requires !HasSeparator(head) && AW.FormatFor(head).Some?
    requires |times| == |imgs|
    ensures var a := WrittenArchive(head, pattern, isColor, imgs, times, fmt, codec);
            && a.Some? && |a.value.entries| == |imgs|
            && a.value.filters == AW.Filters(AW.FormatFor(head).value)
            && forall j :: 0 <= j < |imgs| ==>
                 && a.value.entries[j].pathname == fmt(pattern, j)
                 && a.value.entries[j].data == codec.encode(fmt(pattern, j), imgs[j])
  {
    ArchivePathEnd(head);
    SplitOfJoin(head, pattern);
    var w := AW.Open(head + "::" + pattern, isColor, true).value;
    assert w.entries == [] && w.pos == 0 && w.pattern == pattern;
    FreshWriteAll(w, imgs, times, fmt, codec);
  }

  /** Reading from frame 0 an archive whose entry j is named for frame j,
      all names distinct: frames 0 to n-1 are indexed and frame i is entry
      i's body, decoded. */
  lemma IndexOfNumberedEntries(file: ArchiveFile, head: string, pattern: string, fmt: Formatter,
                               isColor: int, codec: ImageCodec)
    requires forall j :: 0 <= j < |file.entries| ==> file.entries[j].pathname == fmt(pattern, j)
    requires forall i, j :: 0 <= i < j < |file.entries| ==> fmt(pattern, i) != fmt(pattern, j)
    ensures var ix := AR.Index(file, head, pattern, fmt, 0, -1, isColor);
            && ix.first == 0 && ix.last == |file.entries| - 1
            && forall i :: 0 <= i < |file.entries| ==>
                 AR.FrameAt(ix, i, codec) == codec.decode(file.entries[i].data, isColor)
  {
    var n := |file.entries|;
    var ix := AR.Index(file, head, pattern, fmt, 0, -1, isColor);
    WrittenNames(file.entries, pattern, fmt);
    if pattern != "" {
      AR.IndexStopsAtMissingName(file, head, pattern, fmt, 0, -1, isColor);
      if ix.last < n - 1 {
        assert false;
      }
      forall i | 0 <= i < n
        ensures AR.FrameAt(ix, i, codec) == codec.decode(file.entries[i].data, isColor)
      {
        assert i in ix.frames;
        assert AR.Resolve(ix, i) == i;
      }
    }
  }

  /** Frames written to a tar archive in order read back by frame number:
      opening `head::pattern` for reading from frame 0 indexes frames 0 to
      n-1, frame i is the body written for image i, decoded, and the reader
      can jump directly exactly when the archive is uncompressed. Names
      must be distinct for the frames written, as `%d`-style patterns give. */
  lemma ArchiveRoundTrip(head: string, pattern: string, isColor: int, imgs: seq<Image>, times: seq<int>,
                         fmt: Formatter, codec: ImageCodec)
    requires !HasSeparator(head) && AW.FormatFor(head).Some?
    requires |times| == |imgs|
    requires forall i, j :: 0 <= i < j < |imgs| ==> fmt(pattern, i) != fmt(pattern, j)
    ensures var a := WrittenArchive(head, pattern, isColor, imgs, times, fmt, codec);
            && a.Some?
            && var ix := AR.Index(a.value, head, pattern, fmt, 0, -1, isColor);
            && ix.first == 0 && ix.last == |imgs| - 1
            && (ix.seekable <==> AW.FormatFor(head) == Some(AW.Pax))
            && forall i :: 0 <= i < |imgs| ==>
                 AR.FrameAt(ix, i, codec) == codec.decode(codec.encode(fmt(pattern, i), imgs[i]), isColor)
  {
    WrittenEntries(head, pattern, isColor, imgs, times, fmt, codec);
    var a := WrittenArchive(head, pattern, isColor, imgs, times, fmt, codec).value;
    IndexOfNumberedEntries(a, head, pattern, fmt, isColor, codec);
    SeekableIffUncompressed(head);
  }

  // ----- MultiPng ---------------------------------------------------------

  /** The bytes the container writer appends for one image. */
  function Encoded(img: Image, bigEndian: bool, codec: MP.PngCodec): seq<byte> {
    codec.encode(MP.Header(img.width, img.height, MP.Depth8U, MP.ColorTypeFor(img.channels)),
                 MP.WriteTransforms(bigEndian), img)
  }

  /** Writes `imgs` in order, without positions, with both files opening. */
  function WriteAll(w: PS.SeqWriter, imgs: seq<Image>, bigEndian: bool, codec: MP.PngCodec): (w': PS.SeqWriter)
    requires w.writer.Some?
    ensures w'.writer.Some?
    decreases |imgs|
  {
    if |imgs| == 0 then w
    else WriteAll(PS.Write(w, imgs[0], -1, MP.WriteIo(true, true), bigEndian, codec), imgs[1..], bigEndian, codec)
  }

  /** Sequential writes only append: what the files held before stays. */
  lemma {:induction false} WriteAllExtends(w: PS.SeqWriter, imgs: seq<Image>, bigEndian: bool, codec: MP.PngCodec)
    requires w.writer.Some?
    ensures var before := w.writer.value;
            var after := WriteAll(w, imgs, bigEndian, codec).writer.value;
            && |after.lines| == |before.lines| + |imgs| && after.lines[..|before.lines|] == before.lines
            && |before.data| <= |after.data| && after.data[..|before.data|] == before.data
    decreases |imgs|
  {
    if |imgs| > 0 {
      var before := w.writer.value;
      var w1 := PS.Write(w, imgs[0], -1, MP.WriteIo(true, true), bigEndian, codec);
      var mid := w1.writer.value;
      WriteAllExtends(w1, imgs[1..], bigEndian, codec);
      var after := WriteAll(w1, imgs[1..], bigEndian, codec).writer.value;
      assert after.lines[..|before.lines|] == after.lines[..|mid.lines|][..|before.lines|];
      assert after.data[..|before.data|] == after.data[..|mid.data|][..|before.data|];
      assert mid.data[..|before.data|] == before.data;
    }
  }

  /** Sequential writes keep the data file tiled by the index ranges. */
  lemma {:induction false} WriteAllTiled(w: PS.SeqWriter, imgs: seq<Image>, bigEndian: bool, codec: MP.PngCodec)
    requires w.writer.Some? && MP.Tiled(w.writer.value.lines, |w.writer.value.data|)
    ensures var after := WriteAll(w, imgs, bigEndian, codec).writer.value;
            MP.Tiled(after.lines, |after.data|)
    decreases |imgs|
  {
    if |imgs| > 0 {
      var w1 := PS.Write(w, imgs[0], -1, MP.WriteIo(true, true), bigEndian, codec);
      MP.WritePreservesTiled(MP.SetPos(w.writer.value, w.pos), imgs[0], MP.Depth8U, bigEndian, codec);
      WriteAllTiled(w1, imgs[1..], bigEndian, codec);
    }
  }

  /** A slice inside a preserved prefix is the slice of the prefix. */
  lemma PrefixSlice<T>(a: seq<T>, b: seq<T>, i: int, j: int)
    requires |b| <= |a| && a[..|b|] == b && 0 <= i <= j <= |b|
    ensures a[i..j] == b[i..j]
  {
    forall k | 0 <= k < j - i
      ensures a[i..j][k] == b[i..j][k]
    {
      assert a[..|b|][i + k] == b[i + k];
    }
  }

  /** Index line `j` of `out` is the line of image `j - k` of `imgs`, written
      from counter `pos`: it names frame `pos + (j - k)`, and its range lies
      in the data at or after byte `lo` and holds that image's encoding. */
  predicate LineHolds(out: MP.Writer, j: int, k: int, pos: int, lo: int, imgs: seq<Image>,
                      bigEndian: bool, codec: MP.PngCodec) {
    && 0 <= k <= j < |out.lines| && j - k < |imgs|
    && out.lines[j].frame == pos + (j - k)
    && 0 <= lo <= out.lines[j].start <= out.lines[j].end <= |out.data|
    && out.data[out.lines[j].start..out.lines[j].end] == Encoded(imgs[j - k], bigEndian, codec)
  }

  /** A line that holds keeps holding when both files are only appended to. */
  lemma LineHoldsExtends(out: MP.Writer, out': MP.Writer, j: int, k: int, pos: int, lo: int, lo': int,
                         imgs: seq<Image>, bigEndian: bool, codec: MP.PngCodec)
    requires LineHolds(out, j, k, pos, lo, imgs, bigEndian, codec)
    requires |out.lines| <= |out'.lines| && out'.lines[..|out.lines|] == out.lines
    requires |out.data| <= |out'.data| && out'.data[..|out.data|] == out.data
    requires 0 <= lo' <= lo
    ensures LineHolds(out', j, k, pos, lo', imgs, bigEndian, codec)
  {
    assert out'.lines[j] == out'.lines[..|out.lines|][j];
    PrefixSlice(out'.data, out.data, out.lines[j].start, out.lines[j].end);
  }

  /** Sequential writes record image j under frame `pos + j`, in a byte
      range after the old data that holds its encoding. */
  lemma {:induction false} WriteAllLines(w: PS.SeqWriter, imgs: seq<Image>, bigEndian: bool, codec: MP.PngCodec)
    requires w.writer.Some?
    ensures var before := w.writer.value;
            var after := WriteAll(w, imgs, bigEndian, codec).writer.value;
            && |after.lines| == |before.lines| + |imgs|
            && forall j :: |before.lines| <= j < |after.lines| ==>
                 LineHolds(after, j, |before.lines|, w.pos, |before.data|, imgs, bigEndian, codec)
    decreases |imgs|
  {
    WriteAllExtends(w, imgs, bigEndian, codec);
    if |imgs| > 0 {
      var before := w.writer.value;
      var k := |before.lines|;
      var w1 := PS.Write(w, imgs[0], -1, MP.WriteIo(true, true), bigEndian, codec);
      var mid := w1.writer.value;
      assert mid.lines == before.lines + [MP.IndexLine(w.pos, |before.data|, |mid.data|)];
      assert mid.data[|before.data|..|mid.data|] == Encoded(imgs[0], bigEndian, codec);
      assert LineHolds(mid, k, k, w.pos, |before.data|, imgs, bigEndian, codec);
      var rest := imgs[1..];
      var after := WriteAll(w1, rest, bigEndian, codec).writer.value;
      assert after == WriteAll(w, imgs, bigEndian, codec).writer.value;
      WriteAllExtends(w1, rest, bigEndian, codec);
      WriteAllLines(w1, rest, bigEndian, codec);
      forall j | k <= j < |after.lines|
        ensures LineHolds(after, j, k, w.pos, |before.data|, imgs, bigEndian, codec)
      {
        if j == k {
          LineHoldsExtends(mid, after, k, k, w.pos, |before.data|, |before.data|, imgs, bigEndian, codec);
        } else {
          assert LineHolds(after, j, |mid.lines|, w1.pos, |mid.data|, rest, bigEndian, codec);
          assert rest[j - |mid.lines|] == imgs[j - k];
        }
      }
    }
  }

  /** The files a container written from new holds: its data file and its
      index file, under the path it was opened with. */
  function WrittenFiles(path: string, imgs: seq<Image>, bigEndian: bool, codec: MP.PngCodec): (files: Option<MP.Files>)
    ensures files.Some? <==> PS.IsPngv(path)
  {
    match PS.OpenWriter(path, -1)
    case None => None
    case Some(w) =>
      var out := WriteAll(w, imgs, bigEndian, codec).writer.value;
      Some(MP.Files(map[path := out.data], map[MP.IndexPath(path) := out.lines]))
  }

  /** The integers 0 to n-1. */
  function Below(n: nat): (s: set<int>)
    ensures forall k :: k in s <==> 0 <= k < n
    ensures |s| == n
  {
    if n == 0 then {} else Below(n - 1) + {n - 1}
  }

  /** A map whose keys are 0 to n-1 has n entries. */
  lemma CountKeys(m: map<int, MP.Range>, n: nat)
    requires forall k :: k in m <==> 0 <= k < n
    ensures |m| == n
  {
    assert m.Keys == Below(n);
  }

  /** Index lines numbered 0, 1, ... in order load as frames 0 to n-1,
      each bound to its own line's range. */
  lemma LoadNumberedIndex(lines: seq<MP.IndexLine>)
    requires forall j :: 0 <= j < |lines| ==> lines[j].frame == j
    ensures forall k :: k in MP.LoadIndex(lines) <==> 0 <= k < |lines|
    ensures forall k :: 0 <= k < |lines| ==> MP.LoadIndex(lines)[k] == MP.Range(lines[k].start, lines[k].end)
  {
    var m := MP.LoadIndex(lines);
    forall k | 0 <= k < |lines|
      ensures k in m && m[k] == MP.Range(lines[k].start, lines[k].end)
    {
      assert lines[k].frame == k;
      assert lines[k].frame in m;
    }
    forall k | k in m
      ensures 0 <= k < |lines|
    {
      var i :| 0 <= i < |lines| && lines[i].frame == k;
    }
  }

  /** A new container writer given `imgs` in order records image k under
      frame k, in a byte range that holds its encoding. */
  lemma FreshLines(w: PS.SeqWriter, imgs: seq<Image>, bigEndian: bool, codec: MP.PngCodec)
    requires w.writer == Some(MP.NewWriter) && w.pos == 0
    ensures var out := WriteAll(w, imgs, bigEndian, codec).writer.value;
            && |out.lines| == |imgs|
            && MP.Tiled(out.lines, |out.data|)
            && forall k :: 0 <= k < |imgs| ==>
                 && out.lines[k].frame == k
                 && 0 <= out.lines[k].start <= out.lines[k].end <= |out.data|
                 && out.data[out.lines[k].start..out.lines[k].end] == Encoded(imgs[k], bigEndian, codec)
  {
    WriteAllLines(w, imgs, bigEndian, codec);
    WriteAllTiled(w, imgs, bigEndian, codec);
    var out := WriteAll(w, imgs, bigEndian, codec).writer.value;
    forall k | 0 <= k < |imgs|
      ensures && out.lines[k].frame == k
              && 0 <= out.lines[k].start <= out.lines[k].end <= |out.data|
              && out.data[out.lines[k].start..out.lines[k].end] == Encoded(imgs[k], bigEndian, codec)
    {
      var before := w.writer.value;
      assert LineHolds(out, k, |before.lines|, w.pos, |before.data|, imgs, bigEndian, codec);
    }
  }

  /** The index a container written frame by frame from new is read back
      with: frames 0 to n-1, frame k at the range of the k-th write. */
  lemma WrittenIndex(path: string, imgs: seq<Image>, bigEndian: bool, codec: MP.PngCodec)
    requires PS.IsPngv(path)
    ensures var w := PS.OpenWriter(path, -1).value;
            var out := WriteAll(w, imgs, bigEndian, codec).writer.value;
            && |out.lines| == |imgs|
            && (forall k :: k in MP.LoadIndex(out.lines) <==> 0 <= k < |imgs|)
            && forall k :: 0 <= k < |imgs| ==>
                 && MP.LoadIndex(out.lines)[k] == MP.Range(out.lines[k].start, out.lines[k].end)
                 && 0 <= out.lines[k].start <= out.lines[k].end <= |out.data|
                 && out.data[out.lines[k].start..out.lines[k].end] == Encoded(imgs[k], bigEndian, codec)
  {
    var w := PS.OpenWriter(path, -1).value;
    FreshLines(w, imgs, bigEndian, codec);
    var out := WriteAll(w, imgs, bigEndian, codec).writer.value;
    LoadNumberedIndex(out.lines);
  }

  /** Loading a data file and an index file numbered 0, 1, ...: frames 0
      to n-1, the cursor on the first of them. */
  lemma LoadNumbered(path: string, data: seq<byte>, lines: seq<MP.IndexLine>,
                     colorRequest: int, nativeDepth: bool, bigEndian: bool)
    requires forall j :: 0 <= j < |lines| ==> lines[j].frame == j
    ensures var r := MP.Load(path, MP.Files(map[path := data], map[MP.IndexPath(path) := lines]),
                             colorRequest, nativeDepth, bigEndian);
            && r.data == Some(data) && r.index == MP.LoadIndex(lines)
            && (forall k :: k in r.index <==> 0 <= k < |lines|)
            && MP.Length(r) == |lines|
            && r.cursor == (if |lines| == 0 then -1 else 0)
            && MP.Last(r) == |lines| - 1
  {
    var r := MP.Load(path, MP.Files(map[path := data], map[MP.IndexPath(path) := lines]),
                     colorRequest, nativeDepth, bigEndian);
    LoadNumberedIndex(lines);
    CountKeys(r.index, |lines|);
    if |lines| > 0 {
      assert 0 in r.index && |lines| - 1 in r.index;
    }
  }

  /** A container written frame by frame from new reads back with frames 0
      to n-1, the first one current, each frame's range holding exactly the
      bytes written for it. */
  lemma MultiPngRoundTrip(path: string, imgs: seq<Image>, bigEndian: bool, codec: MP.PngCodec,
                          colorRequest: int, nativeDepth: bool)
    requires PS.IsPngv(path)
    ensures var files := WrittenFiles(path, imgs, bigEndian, codec).value;
            var r := MP.Load(path, files, colorRequest, nativeDepth, bigEndian);
            && r.data.Some?
            && (forall k :: k in r.index <==> 0 <= k < |imgs|)
            && MP.Length(r) == |imgs|
            && r.cursor == (if |imgs| == 0 then -1 else 0)
            && MP.Last(r) == |imgs| - 1
            && forall k :: 0 <= k < |imgs| ==>
                 && 0 <= r.index[k].start <= r.index[k].end <= |r.data.value|
                 && r.data.value[r.index[k].start..r.index[k].end] == Encoded(imgs[k], bigEndian, codec)
  {
    var w := PS.OpenWriter(path, -1).value;
    var out := WriteAll(w, imgs, bigEndian, codec).writer.value;
    var files := MP.Files(map[path := out.data], map[MP.IndexPath(path) := out.lines]);
    assert WrittenFiles(path, imgs, bigEndian, codec).value == files;
    FreshLines(w, imgs, bigEndian, codec);
    LoadNumberedIndex(out.lines);
    LoadNumbered(path, out.data, out.lines, colorRequest, nativeDepth, bigEndian);
    var r := MP.Load(path, files, colorRequest, nativeDepth, bigEndian);
    assert r.data == Some(out.data) && r.index == MP.LoadIndex(out.lines);
    forall k | 0 <= k < |imgs|
      ensures && 0 <= r.index[k].start <= r.index[k].end <= |r.data.value|
              && r.data.value[r.index[k].start..r.index[k].end] == Encoded(imgs[k], bigEndian, codec)
    {
      assert r.index[k] == MP.Range(out.lines[k].start, out.lines[k].end);
    }
  }
}
