/** SequenceWriterArchive: each frame becomes one entry of a new tar
    archive (pax restricted format, gzip-compressed for `.tar.gz` and
    `.tgz`), named by formatting the frame number through the pattern given
    after `::` in the path. */
module ArchiveWriter {
  import opened Wrappers
  import opened Text
  import opened Media
  import opened Archive

  /** The archive layouts the writer produces. */
  datatype Format = Pax | GzipPax

  /** The format an archive path selects by its extension, if any. */
  function FormatFor(archivePath: string): (f: Option<Format>)
    ensures f == Some(GzipPax) <==> EndsWith(archivePath, ".tar.gz") || EndsWith(archivePath, ".tgz")
    ensures f == Some(Pax) <==>
              EndsWith(archivePath, ".tar") && !EndsWith(archivePath, ".tar.gz") && !EndsWith(archivePath, ".tgz")
    ensures f.None? <==>
              !EndsWith(archivePath, ".tar.gz") && !EndsWith(archivePath, ".tgz") && !EndsWith(archivePath, ".tar")
  {
    if EndsWith(archivePath, ".tar.gz") || EndsWith(archivePath, ".tgz") then Some(GzipPax)
    else if EndsWith(archivePath, ".tar") then Some(Pax)
    else None
  }

  /** The filter names libarchive reports when it reads an archive of the
      format back: the gzip filter over the raw stream, or the raw stream
      alone. */
  function Filters(f: Format): seq<string> {
    match f
    case GzipPax => ["gzip", "none"]
    case Pax => ["none"]
  }

  /** Why Open refused a path. `warned` records whether the missing pattern
      came with the hint printed for a bare archive path. */
  datatype OpenError = MissingPattern(warned: bool) | UnsupportedExtension | CannotCreate

  /** An open writer: the entries written so far and the frame the next
      Write without a position uses. */
  datatype Writer = Writer(archivePath: string, pattern: string, format: Format,
                           entries: seq<Entry>, pos: int, isColor: int)

  /** Open: the path must carry a pattern after `::`; the archive path before
      it must name a tar or gzip-compressed tar; `creatable` says whether the
      file system lets the archive be created. */
  function Open(path: string, isColor: int, creatable: bool): (r: Result<Writer, OpenError>)
    ensures r.Ok? <==> HasSeparator(path) && FormatFor(SplitAtSeparator(path).value.head).Some? && creatable
    ensures !HasSeparator(path) ==> r == Err(MissingPattern(FormatFor(path).Some?))
    ensures HasSeparator(path) && FormatFor(SplitAtSeparator(path).value.head).None? ==> r == Err(UnsupportedExtension)
    ensures r.Ok? ==> var sp := SplitAtSeparator(path).value;
              && r.value.archivePath == sp.head && r.value.pattern == sp.tail
              && r.value.format == FormatFor(sp.head).value
              && r.value.entries == [] && r.value.pos == 0 && r.value.isColor == isColor
  {
    match SplitAtSeparator(path)
    case None => Err(MissingPattern(FormatFor(path).Some?))
    case Some(sp) =>
      match FormatFor(sp.head)
      case None => Err(UnsupportedExtension)
      case Some(format) =>
        if creatable then Ok(Writer(sp.head, sp.tail, format, [], 0, isColor))
        else Err(CannotCreate)
  }

  /** The frame number a Write stores under: the given position when it is
      not negative, otherwise the writer's running counter. */
  function FrameOf(w: Writer, pos: int): int {
    if pos >= 0 then pos else w.pos
  }

  /** Write: encode the image in the format its entry name's extension
      selects, and append it as a regular file with mode 0644 whose three
      timestamps are the one clock reading `now`. */
  function Write(w: Writer, img: Image, pos: int, now: int, fmt: Formatter, codec: ImageCodec): (w': Writer)
    ensures |w'.entries| == |w.entries| + 1 && w'.entries[..|w.entries|] == w.entries
    ensures var e := w'.entries[|w.entries|];
            && e.pathname == fmt(w.pattern, FrameOf(w, pos))
            && e.data == codec.encode(e.pathname, img)
            && e.meta == Meta(|e.data|, RegularFile, 420, now, now, now)
    ensures w'.pos == FrameOf(w, pos) + 1
    ensures w'.(entries := w.entries, pos := w.pos) == w
  {
    var frame := FrameOf(w, pos);
    var name := fmt(w.pattern, frame);
    var data := codec.encode(name, img);
    var entry := Entry(name, Meta(|data|, RegularFile, 0x1A4, now, now, now), data);
    w.(entries := w.entries + [entry], pos := frame + 1)
  }

  /** Next: the frame number the next Write without a position uses. */
  function Next(w: Writer): int {
    w.pos
  }

  /** The entry a Write without a position appends is named for frame Next,
      and after any Write, Next is one past the frame just stored. */
  lemma NextNamesNextWrite(w: Writer, img: Image, pos: int, now: int, fmt: Formatter, codec: ImageCodec)
    ensures Write(w, img, -1, now, fmt, codec).entries[|w.entries|].pathname == fmt(w.pattern, Next(w))
    ensures Next(Write(w, img, pos, now, fmt, codec)) == (if pos >= 0 then pos else Next(w)) + 1
  {
  }

  /** Close: the archive as it is left on disk. */
  function Close(w: Writer): (a: ArchiveFile)
    ensures a.entries == w.entries
    ensures a.filters == Filters(w.format)
  {
    ArchiveFile(w.entries, Filters(w.format))
  }

  /** Writes `imgs` one after the other without positions, at clock readings
      `times`. */
  function WriteAll(w: Writer, imgs: seq<Image>, times: seq<int>, fmt: Formatter, codec: ImageCodec): (w': Writer)
    requires |times| == |imgs|
    ensures |w'.entries| == |w.entries| + |imgs| && w'.entries[..|w.entries|] == w.entries
    ensures w'.pos == w.pos + |imgs|
    ensures w'.(entries := w.entries, pos := w.pos) == w
    decreases |imgs|
  {
    if |imgs| == 0 then w
    else WriteAll(Write(w, imgs[0], -1, times[0], fmt, codec), imgs[1..], times[1..], fmt, codec)
  }

  /** Sequential writes number their entries consecutively from the counter:
      the entry appended k-th holds image k, encoded, under the name of
      frame `pos + k`. */
  lemma {:induction false} WriteAllNames(w: Writer, imgs: seq<Image>, times: seq<int>, fmt: Formatter, codec: ImageCodec)
    requires |times| == |imgs|
    ensures var w' := WriteAll(w, imgs, times, fmt, codec);
            forall j :: |w.entries| <= j < |w'.entries| ==>
              && w'.entries[j].pathname == fmt(w.pattern, w.pos + (j - |w.entries|))
              && w'.entries[j].data == codec.encode(w'.entries[j].pathname, imgs[j - |w.entries|])
    decreases |imgs|
  {
    if |imgs| > 0 {
      var w1 := Write(w, imgs[0], -1, times[0], fmt, codec);
      WriteAllNames(w1, imgs[1..], times[1..], fmt, codec);
      var w' := WriteAll(w, imgs, times, fmt, codec);
      assert w' == WriteAll(w1, imgs[1..], times[1..], fmt, codec);
      assert w1.pattern == w.pattern && w1.pos == w.pos + 1 && |w1.entries| == |w.entries| + 1;
      forall j | |w.entries| <= j < |w'.entries|
        ensures && w'.entries[j].pathname == fmt(w.pattern, w.pos + (j - |w.entries|))
                && w'.entries[j].data == codec.encode(w'.entries[j].pathname, imgs[j - |w.entries|])
      {
        if j == |w.entries| {
          assert w'.entries[..|w1.entries|] == w1.entries;
          assert w'.entries[j] == w1.entries[j];
        } else {
          assert imgs[1..][j - |w1.entries|] == imgs[j - |w.entries|];
        }
      }
    }
  }
}
