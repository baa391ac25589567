/** SequenceReaderFfmpeg: frames decoded by an ffmpeg child process and read
    from its pipe as raw images of one fixed size. The pipe cannot seek, so
    a backward read restarts the process and every read skips forward frame
    by frame. The decoded stream is modelled as the sequence of its frames
    and the pipe by the number of frames already consumed. */
module FfmpegReader {
  import opened Wrappers
  import opened Stream
  import opened Media

  /** What ffmpeg makes of a video file: the first frame decoded by the size
      probe (or nothing if the probe produced no image), and the frames of
      the raw stream. */
  datatype Video = Video(probe: Option<Image>, frames: seq<Image>)

  /** The reader: the frames of the stream, the number already consumed
      from the pipe, and the frame range. */
  datatype Reader = Reader(frames: seq<Image>, pos: nat, first: int, last: int)

  predicate Valid(r: Reader) {
    r.pos <= |r.frames|
  }

  /** ReadNext: consume one whole frame, counting it only if the pipe still
      had one. */
  function ReadNext(r: Reader): (out: (Reader, Option<Image>))
    requires Valid(r)
    ensures Valid(out.0)
    ensures out.1.Some? <==> r.pos < |r.frames|
    ensures out.1.Some? ==> out.1.value == r.frames[r.pos] && out.0 == r.(pos := r.pos + 1)
    ensures out.1.None? ==> out.0 == r
  {
    if r.pos < |r.frames| then (r.(pos := r.pos + 1), Some(r.frames[r.pos])) else (r, None)
  }

  /** Reads frames until the pipe runs dry. */
  function Drain(r: Reader): (r': Reader)
    requires Valid(r)
    ensures Valid(r') && r'.pos == |r.frames|
    ensures r' == r.(pos := r'.pos)
    decreases |r.frames| - r.pos
  {
    var step := ReadNext(r);
    if step.1.Some? then Drain(step.0) else r
  }

  /** SetLast: read until the pipe runs dry; the last frame is the one before
      the count reached. */
  function SetLast(r: Reader): (r': Reader)
    requires Valid(r)
    ensures Valid(r') && r'.pos == |r.frames| && r'.last == |r.frames| - 1
    ensures r'.frames == r.frames && r'.first == r.first
  {
    var drained := Drain(r);
    drained.(last := drained.pos - 1)
  }

  /** Seek: restart the process when the target lies behind, then skip
      forward until the target or the end of the stream; succeeds iff the
      target is reached. */
  function Seek(r: Reader, target: int): (out: (Reader, bool))
    requires Valid(r)
    ensures Valid(out.0) && out.0.frames == r.frames && out.0.first == r.first && out.0.last == r.last
    ensures out.1 <==> out.0.pos == target
    ensures out.1 <==> 0 <= target <= |r.frames|
    ensures target < r.pos ==> out.0.pos == if target < 0 then 0 else target
    ensures r.pos <= target ==> out.0.pos == if target < |r.frames| then target else |r.frames|
  {
    var start: nat := if target < r.pos then 0 else r.pos;
    var reached := ScanForward(start, target, |r.frames|);
    (r.(pos := reached), reached == target)
  }

  /** Read(pos): seek to the frame and read it. */
  function Read(r: Reader, pos: int): (out: (Reader, Option<Image>))
    requires Valid(r)
    ensures Valid(out.0)
    ensures out.1 == if 0 <= pos < |r.frames| then Some(r.frames[pos]) else None
    ensures out.1.Some? ==> out.0.pos == pos + 1
    ensures out.0.frames == r.frames && out.0.first == r.first && out.0.last == r.last
  {
    var s := Seek(r, pos);
    if s.1 then ReadNext(s.0) else (s.0, None)
  }

  /** Next: the number of frames already consumed from the pipe, which is
      the frame the pipe delivers next. */
  function Next(r: Reader): int {
    r.pos
  }

  /** Reading at Next neither restarts the pipe nor skips a frame: it is one
      ReadNext, and a frame read at `pos` leaves Next at `pos + 1`. */
  lemma ReadAtNextSkipsNothing(r: Reader, pos: int)
    requires Valid(r)
    ensures Read(r, Next(r)) == ReadNext(r)
    ensures Read(r, pos).1.Some? ==> Next(Read(r, pos).0) == pos + 1
  {
  }

  /** Open: probe the frame size, start the process, count the frames by
      reading them all, then clamp the first frame at 0 and cap the last
      frame by a positive requested last. `pipeOpens` is whether the
      process could be started. */
  function Open(path: string, first: int, last: int, videos: map<string, Video>, pipeOpens: bool): (r: Option<Reader>)
    ensures r.Some? <==> path in videos && videos[path].probe.Some? && pipeOpens
    ensures r.Some? ==> Valid(r.value) && r.value.frames == videos[path].frames
    ensures r.Some? ==> r.value.pos == |r.value.frames|
    ensures r.Some? ==> r.value.first == if first < 0 then 0 else first
    ensures r.Some? ==> var counted := |r.value.frames| - 1;
              r.value.last == if last > 0 && last < counted then last else counted
  {
    if path !in videos || videos[path].probe.None? || !pipeOpens then None
    else
      var counted := SetLast(Reader(videos[path].frames, 0, -1, -1));
      var f := if first < 0 then 0 else first;
      var l := if last > 0 && last < counted.last then last else counted.last;
      Some(counted.(first := f, last := l))
  }
}
