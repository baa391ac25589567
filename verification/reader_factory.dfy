/** The reader factory and the offset wrapper. `Create` tries the backends in
    a fixed order and keeps the first whose Open succeeds; the first backend
    tried is the offset wrapper, which strips a `::<n>` suffix and calls
    `Create` again on the shorter path. */
module SequenceReaders {
  import opened Wrappers
  import opened Text
  import opened Media
  import opened Archive
  import opened Trial
  import AR = ArchiveReader
  import MP = MultiPng
  import PS = MultiPngSequence
  import FR = FfmpegReader
  import Tables

  /** The optional backends compiled in (USE_MULTIPNG, USE_VIDEO_OPENCV). */
  datatype Build = Build(multiPng: bool, videoCapture: bool)

  datatype Kind = OffsetKind | PngvKind | MultiFileKind | ArchiveKind | FfmpegKind | CaptureKind

  /** The position each backend has in the full trial order. */
  function Rank(k: Kind): nat {
    match k
    case OffsetKind => 0
    case PngvKind => 1
    case MultiFileKind => 2
    case ArchiveKind => 3
    case FfmpegKind => 4
    case CaptureKind => 5
  }

  /** The order in which Create tries the backends: the offset wrapper
      first, the optional backends only when they are built in, and no
      backend out of its place or twice. */
  function ReaderOrder(b: Build): (order: seq<Kind>)
    ensures |order| > 0 && order[0] == OffsetKind
    ensures OffsetKind in order && MultiFileKind in order && ArchiveKind in order && FfmpegKind in order
    ensures PngvKind in order <==> b.multiPng
    ensures CaptureKind in order <==> b.videoCapture
    ensures forall i, j :: 0 <= i < j < |order| ==> Rank(order[i]) < Rank(order[j])
  {
    match (b.multiPng, b.videoCapture)
    case (true, true) => [OffsetKind, PngvKind, MultiFileKind, ArchiveKind, FfmpegKind, CaptureKind]
    case (true, false) => [OffsetKind, PngvKind, MultiFileKind, ArchiveKind, FfmpegKind]
    case (false, true) => [OffsetKind, MultiFileKind, ArchiveKind, FfmpegKind, CaptureKind]
    case (false, false) => [OffsetKind, MultiFileKind, ArchiveKind, FfmpegKind]
  }

  /** The OpenCV capture backend, kept abstract: whether it opens (and with
      which first frame, last frame and cursor), and what a read returns
      (the image and the new cursor). */
  datatype Capture = Capture(
    open: (string, int, int, int) -> Option<(int, int, int)>,
    read: (string, int, int, int) -> (Option<Image>, int))

  /** Everything the backends consult outside the program: the files and
      archives on disk, the videos ffmpeg can decode, the codecs and the
      printf-style formatter. `load(name, isColor)` is an image file load. */
  datatype Env = Env(
    build: Build,
    fmt: Formatter,
    pngFiles: MP.Files, host: PS.Host, png: MP.PngCodec,
    archives: map<string, ArchiveFile>, images: ImageCodec,
    videos: map<string, FR.Video>, pipeOpens: bool,
    load: (string, int) -> Option<Image>,
    capture: Capture)

  /** An open reader of any backend. The offset wrapper holds its inner
      reader, which it loses when closed. */
  datatype Handle =
    | OffsetHandle(inner: Option<Handle>, offset: int)
    | PngvHandle(pngv: PS.SeqReader)
    | MultiFileHandle(pattern: string, first: int, last: int, isColor: int)
    | ArchiveHandle(archive: AR.Reader)
    | FfmpegHandle(ffmpeg: FR.Reader)
    | CaptureHandle(path: string, first: int, last: int, isColor: int, cursor: int)

  function KindOf(h: Handle): Kind {
    match h
    case OffsetHandle(_, _) => OffsetKind
    case PngvHandle(_) => PngvKind
    case MultiFileHandle(_, _, _, _) => MultiFileKind
    case ArchiveHandle(_) => ArchiveKind
    case FfmpegHandle(_) => FfmpegKind
    case CaptureHandle(_, _, _, _, _) => CaptureKind
  }

  /** The backends' own invariants hold, through any wrapper. */
  predicate Valid(h: Handle)
    decreases h
  {
    match h
    case OffsetHandle(inner, _) => inner.None? || Valid(inner.value)
    case ArchiveHandle(r) => AR.Valid(r)
    case FfmpegHandle(r) => FR.Valid(r)
    case _ => true
  }

  function PathSize(path: Option<string>): nat {
    if path.Some? then |path.value| else 0
  }

  /** The offset the wrapper reads from a path: `atoi` of the text after the
      first `::`, or 0 when there is none. 0 means "no wrapper". */
  function OffsetOf(p: string): int {
    match SplitAtSeparator(p)
    case None => 0
    case Some(split) => Atoi(split.tail)
  }

  /** A frame bound moved into the inner reader's numbering; the sentinel
      -1 stays as it is. */
  function Shift(bound: int, offset: int): (b: int)
    ensures bound == -1 ==> b == -1
    ensures bound != -1 ==> b + offset == bound
  {
    if bound != -1 then bound - offset else bound
  }

  /** SequenceReader::Create: a missing path gives no reader; otherwise the
      backends are tried in order. */
  function Create(env: Env, path: Option<string>, first: int, last: int, isColor: int): (h: Option<Handle>)
    decreases PathSize(path), 3, 0
    ensures path.None? ==> h.None?
    ensures h.Some? ==> Valid(h.value) && KindOf(h.value) in ReaderOrder(env.build)
    ensures h.Some? && h.value.OffsetHandle? ==> HasSeparator(path.value)
  {
    match path
    case None => None
    case Some(p) => TryReaders(env, p, first, last, isColor, ReaderOrder(env.build))
  }

  /** The first backend of `order` that opens `p`. */
  function TryReaders(env: Env, p: string, first: int, last: int, isColor: int, order: seq<Kind>): (h: Option<Handle>)
    decreases |p|, 2, |order|
    ensures h.Some? ==> Valid(h.value) && KindOf(h.value) in order
    ensures h.Some? && h.value.OffsetHandle? ==> HasSeparator(p)
  {
    if |order| == 0 then None
    else
      match OpenBackend(env, order[0], p, first, last, isColor)
      case Some(h) => Some(h)
      case None => TryReaders(env, p, first, last, isColor, order[1..])
  }

  /** One backend's Open. */
  function OpenBackend(env: Env, kind: Kind, p: string, first: int, last: int, isColor: int): (h: Option<Handle>)
    decreases |p|, 1, 0
    ensures h.Some? ==> Valid(h.value) && KindOf(h.value) == kind
    ensures h.Some? && h.value.OffsetHandle? ==> HasSeparator(p)
  {
    match kind
    case OffsetKind => OpenOffset(env, p, first, last, isColor)
    case PngvKind =>
      (match PS.Open(p, first, last, isColor, env.pngFiles, env.host, env.png)
       case Some(r) => Some(PngvHandle(r))
       case None => None)
    case MultiFileKind =>
      if 0 <= first && first <= last && env.load(env.fmt(p, first), isColor).Some? then
        Some(MultiFileHandle(p, first, last, isColor))
      else None
    case ArchiveKind =>
      (match AR.Open(p, first, last, isColor, env.archives, env.fmt, env.images)
       case Some(r) => Some(ArchiveHandle(r))
       case None => None)
    case FfmpegKind =>
      (match FR.Open(p, first, last, env.videos, env.pipeOpens)
       case Some(r) => Some(FfmpegHandle(r))
       case None => None)
    case CaptureKind =>
      (match env.capture.open(p, first, last, isColor)
       case Some(o) => Some(CaptureHandle(p, o.0, o.1, isColor, o.2))
       case None => None)
  }

  /** The offset wrapper's Open: only a path with `::` and a non-zero
      offset after it opens, by creating a reader for the text before the
      `::` with both bounds moved into that reader's numbering. That inner
      path has no `::`, so the inner reader is never itself a wrapper. */
  function OpenOffset(env: Env, p: string, first: int, last: int, isColor: int): (h: Option<Handle>)
    decreases |p|, 0, 0
    ensures h.Some? ==> HasSeparator(p) && OffsetOf(p) != 0
    ensures h.Some? ==> h.value.OffsetHandle? && h.value.offset == OffsetOf(p)
    ensures h.Some? ==> h.value.inner.Some? && !h.value.inner.value.OffsetHandle?
    ensures h.Some? ==> Valid(h.value)
    ensures h.Some? ==>
              h.value.inner == Create(env, Some(SplitAtSeparator(p).value.head),
                                      Shift(first, OffsetOf(p)), Shift(last, OffsetOf(p)), isColor)
  {
    match SplitAtSeparator(p)
    case None => None
    case Some(split) =>
      var offset := Atoi(split.tail);
      if offset == 0 then None
      else
        match Create(env, Some(split.head), Shift(first, offset), Shift(last, offset), isColor)
        case Some(inner) => Some(OffsetHandle(Some(inner), offset))
        case None => None
  }

  /** Read(pos) through whichever backend the handle holds; the offset
      wrapper reads `pos - offset` from its inner reader. */
  function Read(env: Env, h: Handle, pos: int): (out: (Handle, Option<Image>))
    requires Valid(h)
    decreases h
    ensures Valid(out.0) && KindOf(out.0) == KindOf(h)
    ensures h.OffsetHandle? ==> out.0.offset == h.offset && (out.0.inner.Some? <==> h.inner.Some?)
    ensures h.OffsetHandle? && h.inner.None? ==> out.1.None?
    ensures h.OffsetHandle? && h.inner.Some? ==> out == (OffsetHandle(Some(Read(env, h.inner.value, pos - h.offset).0), h.offset), Read(env, h.inner.value, pos - h.offset).1)
    ensures h.ArchiveHandle? ==> out.1 == AR.FrameAt(h.archive, pos, env.images)
    ensures h.FfmpegHandle? ==> out.1 == (if 0 <= pos < |h.ffmpeg.frames| then Some(h.ffmpeg.frames[pos]) else None)
    ensures h.PngvHandle? && h.pngv.inner.Some? ==> out.1 == MP.FrameAt(h.pngv.inner.value, pos, env.png)
    ensures h.MultiFileHandle? ==> out == (h, env.load(env.fmt(h.pattern, pos), h.isColor))
  {
    match h
    case OffsetHandle(inner, offset) =>
      (match inner
       case None => (h, None)
       case Some(r) =>
         var step := Read(env, r, pos - offset);
         (OffsetHandle(Some(step.0), offset), step.1))
    case PngvHandle(r) =>
      var step := PS.Read(r, pos, env.png);
      (PngvHandle(step.0), step.1)
    case MultiFileHandle(pattern, _, _, isColor) =>
      (h, env.load(env.fmt(pattern, pos), isColor))
    case ArchiveHandle(r) =>
      var step := AR.Read(r, pos, env.images);
      (ArchiveHandle(step.0), step.1)
    case FfmpegHandle(r) =>
      var step := FR.Read(r, pos);
      (FfmpegHandle(step.0), step.1)
    case CaptureHandle(path, f, l, isColor, cursor) =>
      var step := env.capture.read(path, isColor, cursor, pos);
      (CaptureHandle(path, f, l, isColor, step.1), step.0)
  }

  /** The first frame, in the caller's numbering: the wrapper adds its
      offset to the inner reader's, and reports -1 once closed. */
  function First(h: Handle): int
    decreases h
  {
    match h
    case OffsetHandle(inner, offset) => if inner.Some? then First(inner.value) + offset else -1
    case PngvHandle(r) => PS.First(r)
    case MultiFileHandle(_, first, _, _) => first
    case ArchiveHandle(r) => r.first
    case FfmpegHandle(r) => r.first
    case CaptureHandle(_, first, _, _, _) => first
  }

  function Last(h: Handle): int
    decreases h
  {
    match h
    case OffsetHandle(inner, offset) => if inner.Some? then Last(inner.value) + offset else -1
    case PngvHandle(r) => PS.Last(r)
    case MultiFileHandle(_, _, last, _) => last
    case ArchiveHandle(r) => r.last
    case FfmpegHandle(r) => r.last
    case CaptureHandle(_, _, last, _, _) => last
  }

  /** The frame a sequential read would return next; -1 when unknown, as
      for a multi-file pattern. */
  function Next(h: Handle): int
    decreases h
  {
    match h
    case OffsetHandle(inner, offset) => if inner.Some? then Next(inner.value) + offset else -1
    case PngvHandle(r) => PS.Next(r)
    case MultiFileHandle(_, _, _, _) => -1
    case ArchiveHandle(r) => r.pos
    case FfmpegHandle(r) => FR.Next(r)
    case CaptureHandle(_, _, _, _, cursor) => cursor
  }

  /** The offset wrapper's Close: the inner reader is dropped and the
      offset reset; a closed wrapper reports no frames and reads nothing. */
  function CloseOffset(h: Handle): (c: Handle)
    requires h.OffsetHandle?
    ensures Valid(c) && First(c) == -1 && Last(c) == -1 && Next(c) == -1
    ensures c.OffsetHandle? && c.inner.None? && c.offset == 0
  {
    OffsetHandle(None, 0)
  }

  /** A closed wrapper reads nothing and stays closed, whatever position is
      asked for. */
  lemma ClosedOffsetReadsNothing(env: Env, h: Handle, pos: int)
    requires h.OffsetHandle?
    ensures Read(env, CloseOffset(h), pos) == (CloseOffset(h), None)
  {
  }

  /** Create is the ordered trial of the generic `FirstSome` over the
      backends' Open: the first backend that opens wins, the ones after it
      are never consulted, and nothing opens when none does. */
  lemma {:induction false} TryReadersIsFirstSome(env: Env, p: string, first: int, last: int, isColor: int, order: seq<Kind>)
    ensures TryReaders(env, p, first, last, isColor, order)
            == FirstSome(order, k => OpenBackend(env, k, p, first, last, isColor))
    decreases |order|
  {
    if |order| > 0 {
      TryReadersIsFirstSome(env, p, first, last, isColor, order[1..]);
    }
  }

  /** Create returns a reader iff some backend of the build opens the path,
      and then it is the reader of the earliest such backend. */
  lemma CreateFirstSuccess(env: Env, p: string, first: int, last: int, isColor: int)
    ensures var h := Create(env, Some(p), first, last, isColor);
            var order := ReaderOrder(env.build);
            && (h.Some? <==> exists i :: 0 <= i < |order| && OpenBackend(env, order[i], p, first, last, isColor).Some?)
            && (h.Some? ==> exists i :: 0 <= i < |order| && OpenBackend(env, order[i], p, first, last, isColor) == h
                                      && forall j :: 0 <= j < i ==> OpenBackend(env, order[j], p, first, last, isColor).None?)
  {
    var order := ReaderOrder(env.build);
    var open := k => OpenBackend(env, k, p, first, last, isColor);
    TryReadersIsFirstSome(env, p, first, last, isColor, order);
    var r := FirstSome(order, open);
    assert forall i :: 0 <= i < |order| ==> open(order[i]) == OpenBackend(env, order[i], p, first, last, isColor);
  }

  /** Backends later in the order are never tried once an earlier one opens. */
  lemma LaterReadersIgnored(env: Env, p: string, first: int, last: int, isColor: int, order: seq<Kind>, more: seq<Kind>)
    ensures (exists i :: 0 <= i < |order| && OpenBackend(env, order[i], p, first, last, isColor).Some?) ==>
              TryReaders(env, p, first, last, isColor, order + more) == TryReaders(env, p, first, last, isColor, order)
  {
    if i :| 0 <= i < |order| && OpenBackend(env, order[i], p, first, last, isColor).Some? {
      var open := k => OpenBackend(env, k, p, first, last, isColor);
      TryReadersIsFirstSome(env, p, first, last, isColor, order);
      TryReadersIsFirstSome(env, p, first, last, isColor, order + more);
      assert open(order[i]).Some?;
      FirstSomeIgnoresLater(order, more, open);
    }
  }

  /** The path `head::<n>rest` cuts at its first separator into `head` and a
      tail that reads back as `n`. */
  lemma SuffixSplits(head: string, n: int, rest: string)
    requires !HasSeparator(head) && (|head| == 0 || head[|head| - 1] != ':')
    requires |rest| == 0 || !IsDigit(rest[0])
    ensures var p := head + "::" + Decimal(n) + rest;
            && SplitAtSeparator(p) == Some(Split(head, Decimal(n) + rest))
            && Atoi(SplitAtSeparator(p).value.tail) == n
  {
    var t := Decimal(n) + rest;
    assert head + "::" + Decimal(n) + rest == head + "::" + t;
    SplitOfJoin(head, t);
    AtoiDecimal(n, rest);
  }

  /** A path with a `::` followed by a non-zero decimal, such as
      `clip.tar::-5`, is read through the wrapper with that offset whenever
      the text before the `::` opens with the shifted bounds. */
  lemma DecimalSuffixIsOffset(env: Env, head: string, n: int, rest: string, first: int, last: int, isColor: int)
    requires !HasSeparator(head) && (|head| == 0 || head[|head| - 1] != ':')
    requires n != 0 && (|rest| == 0 || !IsDigit(rest[0]))
    requires Create(env, Some(head), Shift(first, n), Shift(last, n), isColor).Some?
    ensures var h := Create(env, Some(head + "::" + Decimal(n) + rest), first, last, isColor);
            && h.Some? && h.value.OffsetHandle? && h.value.offset == n
            && h.value.inner == Create(env, Some(head), Shift(first, n), Shift(last, n), isColor)
  {
    var p := head + "::" + Decimal(n) + rest;
    SuffixSplits(head, n, rest);
    var inner := Create(env, Some(head), Shift(first, n), Shift(last, n), isColor);
    assert OpenOffset(env, p, first, last, isColor) == Some(OffsetHandle(inner, n));
    WrapperOpensFirst(env, p, first, last, isColor);
  }

  /** When the wrapper opens a path, Create looks no further. */
  lemma WrapperOpensFirst(env: Env, p: string, first: int, last: int, isColor: int)
    ensures OpenOffset(env, p, first, last, isColor).Some? ==>
              Create(env, Some(p), first, last, isColor) == OpenOffset(env, p, first, last, isColor)
  {
    if OpenOffset(env, p, first, last, isColor).Some? {
      var order := ReaderOrder(env.build);
      var h := OpenBackend(env, order[0], p, first, last, isColor);
      assert h == OpenOffset(env, p, first, last, isColor);
      assert TryReaders(env, p, first, last, isColor, order) == h;
    }
  }

  /** Through the wrapper, frame `pos` is the inner reader's frame
      `pos - offset`; in particular the wrapper's first frame is the inner
      reader's first frame. */
  lemma OffsetReadsInnerFirst(env: Env, h: Handle)
    requires Valid(h) && h.OffsetHandle? && h.inner.Some?
    ensures First(h) - h.offset == First(h.inner.value)
    ensures Read(env, h, First(h)).1 == Read(env, h.inner.value, First(h.inner.value)).1
  {
  }

  /** The wrapper shifts frame numbers by its offset and changes nothing
      else: First, Last and Next are the inner reader's plus the offset,
      reading `pos + offset` reads the inner reader's frame `pos` and moves
      Next as the inner read moves it, and reading at Last gives the inner
      reader's last frame. */
  lemma OffsetShiftsFrames(env: Env, h: Handle, pos: int)
    requires Valid(h) && h.OffsetHandle? && h.inner.Some?
    ensures First(h) == First(h.inner.value) + h.offset
    ensures Last(h) == Last(h.inner.value) + h.offset
    ensures Next(h) == Next(h.inner.value) + h.offset
    ensures Read(env, h, pos + h.offset).1 == Read(env, h.inner.value, pos).1
    ensures Next(Read(env, h, pos + h.offset).0) == Next(Read(env, h.inner.value, pos).0) + h.offset
    ensures Read(env, h, Last(h)).1 == Read(env, h.inner.value, Last(h.inner.value)).1
  {
    var inner := h.inner.value;
    var step := Read(env, inner, pos);
    assert pos + h.offset - h.offset == pos;
    assert Read(env, h, pos + h.offset) == (OffsetHandle(Some(step.0), h.offset), step.1);
    var l := Last(inner);
    assert Last(h) == l + h.offset && Last(h) - h.offset == l;
    assert Read(env, h, Last(h)).1 == Read(env, inner, l).1;
  }

  /** Next after a read, per backend: one past the frame for an archive
      reader that admits the position and for an ffmpeg reader that
      delivers it, the next larger indexed frame for a `.pngv` reader, and
      -1 (unknown) for a multi-file reader. */
  lemma NextAfterRead(env: Env, h: Handle, pos: int)
    requires Valid(h)
    ensures h.ArchiveHandle? && AR.Admits(h.archive, pos) ==> Next(Read(env, h, pos).0) == pos + 1
    ensures h.FfmpegHandle? && Read(env, h, pos).1.Some? ==> Next(Read(env, h, pos).0) == pos + 1
    ensures h.PngvHandle? && h.pngv.inner.Some? && pos != -1 && pos in h.pngv.inner.value.index
            && h.pngv.inner.value.data.Some? ==>
              Next(Read(env, h, pos).0) == Tables.NextAbove(h.pngv.inner.value.index.Keys, pos)
    ensures h.MultiFileHandle? ==> Next(Read(env, h, pos).0) == -1
  {
  }
}
