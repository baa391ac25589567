/** The writer factory: SequenceWriter::Create tries the MultiPng container
    (when built in), then a tar archive, then one image file per frame, and
    keeps the first whose Open succeeds. Every writer numbers frames the same
    way: a non-negative position is used as given, a negative one takes the
    running counter, and the counter then moves past the frame written. */
module SequenceWriters {
  import opened Wrappers
  import opened Text
  import opened Media
  import opened Trial
  import AW = ArchiveWriter
  import MP = MultiPng
  import PS = MultiPngSequence

  datatype Kind = PngvKind | ArchiveKind | MultiFileKind

  /** The trial order: the container only when built in, then the archive,
      then single files, which come last. */
  function WriterOrder(multiPng: bool): (order: seq<Kind>)
    ensures |order| == if multiPng then 3 else 2
    ensures PngvKind in order <==> multiPng
    ensures multiPng ==> order[0] == PngvKind
    ensures order[|order| - 2] == ArchiveKind && order[|order| - 1] == MultiFileKind
  {
    (if multiPng then [PngvKind] else []) + [ArchiveKind, MultiFileKind]
  }

  /** What the writers consult outside the program. `creatable(path)` says
      whether the archive a path names can be created; `canSave(name)`
      whether an image file of that name can be saved, which is how the
      single-file writer probes its pattern. */
  datatype Env = Env(
    multiPng: bool,
    fmt: Formatter,
    creatable: string -> bool,
    canSave: string -> bool,
    images: ImageCodec,
    png: MP.PngCodec, pngIo: MP.WriteIo, bigEndian: bool)

  /** An open writer of any backend. The single-file writer's state is its
      pattern, its counter and the files it has saved, in order. */
  datatype Handle =
    | PngvWriter(pngv: PS.SeqWriter)
    | ArchiveWriter(archive: AW.Writer)
    | MultiFileWriter(pattern: string, pos: int, isColor: int, saved: seq<(string, Image)>)

  function KindOf(h: Handle): Kind {
    match h
    case PngvWriter(_) => PngvKind
    case ArchiveWriter(_) => ArchiveKind
    case MultiFileWriter(_, _, _, _) => MultiFileKind
  }

  /** An open container writer has its container attached. */
  predicate Valid(h: Handle) {
    h.PngvWriter? ==> h.pngv.writer.Some?
  }

  /** One backend's Open. */
  function OpenBackend(env: Env, kind: Kind, p: string, isColor: int): (h: Option<Handle>)
    ensures h.Some? ==> Valid(h.value) && KindOf(h.value) == kind && Next(h.value) == 0
    ensures kind == PngvKind ==> (h.Some? <==> PS.IsPngv(p))
    ensures kind == ArchiveKind ==> (h.Some? <==> AW.Open(p, isColor, env.creatable(p)).Ok?)
    ensures kind == MultiFileKind ==> (h.Some? <==> env.canSave(env.fmt(p, 0)))
  {
    match kind
    case PngvKind =>
      (match PS.OpenWriter(p, isColor)
       case Some(w) => Some(PngvWriter(w))
       case None => None)
    case ArchiveKind =>
      (match AW.Open(p, isColor, env.creatable(p))
       case Ok(w) => Some(ArchiveWriter(w))
       case Err(_) => None)
    case MultiFileKind =>
      if env.canSave(env.fmt(p, 0)) then Some(MultiFileWriter(p, 0, isColor, [])) else None
  }

  /** SequenceWriter::Create, written out candidate by candidate. */
  function Create(env: Env, path: Option<string>, isColor: int): (h: Option<Handle>)
    ensures path.None? ==> h.None?
    ensures h.Some? ==> Valid(h.value) && Next(h.value) == 0
    ensures h.Some? ==> KindOf(h.value) in WriterOrder(env.multiPng)
  {
    match path
    case None => None
    case Some(p) =>
      var pngv := if env.multiPng then OpenBackend(env, PngvKind, p, isColor) else None;
      if pngv.Some? then pngv
      else
        var archive := OpenBackend(env, ArchiveKind, p, isColor);
        if archive.Some? then archive
        else OpenBackend(env, MultiFileKind, p, isColor)
  }

  /** Create is the ordered trial over WriterOrder: the first backend that
      opens wins and nothing opens when none does. */
  lemma CreateIsOrderedTrial(env: Env, p: string, isColor: int)
    ensures Create(env, Some(p), isColor) == FirstSome(WriterOrder(env.multiPng), k => OpenBackend(env, k, p, isColor))
  {
    var order := WriterOrder(env.multiPng);
    var open := k => OpenBackend(env, k, p, isColor);
    if env.multiPng {
      assert order == [PngvKind, ArchiveKind, MultiFileKind];
      assert order[1..] == [ArchiveKind, MultiFileKind];
      assert order[1..][1..] == [MultiFileKind];
      assert order[1..][1..][1..] == [];
    } else {
      assert order == [ArchiveKind, MultiFileKind];
      assert order[1..] == [MultiFileKind];
      assert order[1..][1..] == [];
    }
  }

  /** Which writer a path gets: a ".pngv" path the container whenever it is
      built in; otherwise a `<tar path>::<pattern>` the archive writer if the
      archive can be created; otherwise single files if a probe save of
      frame 0 works. */
  lemma WriterChoice(env: Env, p: string, isColor: int)
    ensures var h := Create(env, Some(p), isColor);
            && (env.multiPng && PS.IsPngv(p) ==> h.Some? && h.value.PngvWriter?)
            && (!(env.multiPng && PS.IsPngv(p)) && AW.Open(p, isColor, env.creatable(p)).Ok? ==>
                  h.Some? && h.value.ArchiveWriter?)
            && (!(env.multiPng && PS.IsPngv(p)) && !AW.Open(p, isColor, env.creatable(p)).Ok? ==>
                  (h.Some? <==> env.canSave(env.fmt(p, 0))) && (h.Some? ==> h.value.MultiFileWriter?))
  {
  }

  /** The frame number a Write stores under. */
  function FrameOf(h: Handle, pos: int): int {
    if pos >= 0 then pos else Next(h)
  }

  /** Write(img, pos) through whichever backend the handle holds, at clock
      reading `now` (used by the archive for its timestamps). */
  function Write(env: Env, h: Handle, img: Image, pos: int, now: int): (h': Handle)
    requires Valid(h)
    ensures Valid(h') && KindOf(h') == KindOf(h)
    ensures Next(h') == FrameOf(h, pos) + 1
    ensures h.ArchiveWriter? ==>
              var e := h'.archive.entries;
              && |e| == |h.archive.entries| + 1
              && e[..|h.archive.entries|] == h.archive.entries
              && e[|h.archive.entries|].pathname == env.fmt(h.archive.pattern, FrameOf(h, pos))
    ensures h.MultiFileWriter? ==>
              h'.pattern == h.pattern && h'.saved == h.saved + [(env.fmt(h.pattern, FrameOf(h, pos)), img)]
    ensures h.PngvWriter? ==>
              var before := h.pngv.writer.value;
              var after := h'.pngv.writer.value;
              && |before.data| <= |after.data| && after.data[..|before.data|] == before.data
              && (env.pngIo.dataOpens && env.pngIo.indexOpens ==>
                    after.lines == before.lines + [MP.IndexLine(FrameOf(h, pos), |before.data|, |after.data|)])
              && (env.pngIo.dataOpens && !env.pngIo.indexOpens ==> after.lines == before.lines)
              && (!env.pngIo.dataOpens ==> after.data == before.data && after.lines == before.lines)
              && after.data[|before.data|..] == if env.pngIo.dataOpens then
                   env.png.encode(MP.Header(img.width, img.height, MP.Depth8U, MP.ColorTypeFor(img.channels)),
                                  MP.WriteTransforms(env.bigEndian), img)
                 else []
  {
    match h
    case PngvWriter(w) => PngvWriter(PS.Write(w, img, pos, env.pngIo, env.bigEndian, env.png))
    case ArchiveWriter(w) => ArchiveWriter(AW.Write(w, img, pos, now, env.fmt, env.images))
    case MultiFileWriter(pattern, cursor, isColor, saved) =>
      var frame := if pos >= 0 then pos else cursor;
      MultiFileWriter(pattern, frame + 1, isColor, saved + [(env.fmt(pattern, frame), img)])
  }

  /** Next: the frame the next Write without a position stores under. */
  function Next(h: Handle): int {
    match h
    case PngvWriter(w) => PS.NextToWrite(w)
    case ArchiveWriter(w) => AW.Next(w)
    case MultiFileWriter(_, pos, _, _) => pos
  }

  /** Writes `imgs` one after the other without positions, all at clock
      reading `now`. */
  function WriteAll(env: Env, h: Handle, imgs: seq<Image>, now: int): (h': Handle)
    requires Valid(h)
    ensures Valid(h') && KindOf(h') == KindOf(h)
    decreases |imgs|
  {
    if |imgs| == 0 then h else WriteAll(env, Write(env, h, imgs[0], -1, now), imgs[1..], now)
  }

  /** Whatever the backend, n writes without positions advance the counter
      by n: frames are numbered consecutively from where the writer was. */
  lemma {:induction false} WriteAllCounts(env: Env, h: Handle, imgs: seq<Image>, now: int)
    requires Valid(h)
    ensures Next(WriteAll(env, h, imgs, now)) == Next(h) + |imgs|
    decreases |imgs|
  {
    if |imgs| > 0 {
      WriteAllCounts(env, Write(env, h, imgs[0], -1, now), imgs[1..], now);
    }
  }

  /** Single files: n writes without positions from counter c save image k
      under the name of frame c + k. */
  lemma {:induction false} WriteAllSavesInOrder(env: Env, h: Handle, imgs: seq<Image>, now: int)
    requires h.MultiFileWriter?
    ensures var h' := WriteAll(env, h, imgs, now);
            && h'.MultiFileWriter? && |h'.saved| == |h.saved| + |imgs| && h'.saved[..|h.saved|] == h.saved
            && forall j :: |h.saved| <= j < |h'.saved| ==>
                 h'.saved[j] == (env.fmt(h.pattern, h.pos + (j - |h.saved|)), imgs[j - |h.saved|])
    decreases |imgs|
  {
    if |imgs| > 0 {
      var h1 := Write(env, h, imgs[0], -1, now);
      WriteAllSavesInOrder(env, h1, imgs[1..], now);
      var h' := WriteAll(env, h, imgs, now);
      assert h' == WriteAll(env, h1, imgs[1..], now);
      assert h1.saved == h.saved + [(env.fmt(h.pattern, h.pos), imgs[0])];
      forall j | |h.saved| <= j < |h'.saved|
        ensures h'.saved[j] == (env.fmt(h.pattern, h.pos + (j - |h.saved|)), imgs[j - |h.saved|])
      {
        if j > |h.saved| {
          assert imgs[1..][j - |h1.saved|] == imgs[j - |h.saved|];
        }
      }
    }
  }
}
