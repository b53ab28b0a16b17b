/**
 The voice-activity-gated recording loop (`record_speech`).

 The audio stream is given as a finite sequence of frames, each carrying its
 raw bytes, its RMS loudness and the one clock reading taken while it is
 processed. The wave file is an append-only sequence of writes; each write
 is the batch of frames whose bytes were joined into one `writeframes` call.
 When the sequence runs out before a stop condition holds, the loop has been
 left by the next read raising (or by an interrupt): the `finally` block
 still flushes the buffer.
 */
module Recording {
  import opened Wrappers

  /** Frames buffered in memory before they are written out. */
  const ChunkWriteInterval: nat := 100

  datatype Frame = Frame(data: seq<bv8>, rms: nat, now: int)

  /** `silence_threshold`, `silence_duration` and `max_duration`; the two
      durations are in the same unit as the frames' clock readings. */
  datatype Config = Config(threshold: int, silenceDuration: int, maxDuration: int)

  /** The loop's local variables: `speech_started`, `last_sound_time`,
      `start_time`, `frames`, and the writes already made to the file. */
  datatype State = State(
    speechStarted: bool,
    lastSoundTime: Option<int>,
    startTime: int,
    buffer: seq<Frame>,
    written: seq<seq<Frame>>)

  /** How the loop was left: one of its two `break`s, or the input ending. */
  datatype Exit = SilenceTimeout | MaxDuration | InputEnded

  datatype Iteration = Continue(next: State) | Break(reason: Exit, last: State) {
    function After(): State {
      match this
      case Continue(s) => s
      case Break(_, s) => s
    }
  }

  /** What the loop leaves behind once the `finally` block has run. */
  datatype Recording = Recording(exit: Exit, framesRead: nat, writes: seq<seq<Frame>>)

  datatype RunResult = RunResult(exit: Exit, consumed: nat, final: State)

  /* ---------------------------------------------------------------------- */
  /* Helpers on the sink                                                      */
  /* ---------------------------------------------------------------------- */

  /** The frames of all writes, in write order. */
  function Flatten(ws: seq<seq<Frame>>): seq<Frame> {
    if ws == [] then [] else Flatten(ws[..|ws| - 1]) + ws[|ws| - 1]
  }

  lemma FlattenAppend(ws: seq<seq<Frame>>, w: seq<Frame>)
    ensures Flatten(ws + [w]) == Flatten(ws) + w
  {
    assert (ws + [w])[..|ws|] == ws;
  }

  /** `b''.join(frames)`: the bytes of a batch of frames. */
  function Join(fs: seq<Frame>): seq<bv8> {
    if fs == [] then [] else Join(fs[..|fs| - 1]) + fs[|fs| - 1].data
  }

  /** The bytes of the wave file's data section: all writes, in order. */
  function WrittenBytes(ws: seq<seq<Frame>>): seq<bv8> {
    if ws == [] then [] else WrittenBytes(ws[..|ws| - 1]) + Join(ws[|ws| - 1])
  }

  lemma {:induction false} JoinConcat(a: seq<Frame>, b: seq<Frame>)
    ensures Join(a + b) == Join(a) + Join(b)
    decreases |b|
  {
    if b == [] {
      assert a + b == a;
    } else {
      var b' := b[..|b| - 1];
      JoinConcat(a, b');
      assert (a + b)[..|a + b| - 1] == a + b';
    }
  }

  /** Writing batches one after another puts the frames' bytes in the file
      exactly as joining all the frames at once would. */
  lemma {:induction false} WrittenBytesIsJoinOfFlatten(ws: seq<seq<Frame>>)
    ensures WrittenBytes(ws) == Join(Flatten(ws))
    decreases |ws|
  {
    if ws != [] {
      WrittenBytesIsJoinOfFlatten(ws[..|ws| - 1]);
      JoinConcat(Flatten(ws[..|ws| - 1]), ws[|ws| - 1]);
    }
  }

  /* ---------------------------------------------------------------------- */
  /* The loop                                                                 */
  /* ---------------------------------------------------------------------- */

  predicate Loud(cfg: Config, f: Frame) {
    f.rms > cfg.threshold
  }

  /** Python truthiness of `last_sound_time`: not None and not 0. */
  predicate Truthy(t: Option<int>) {
    t.Some? && t.value != 0
  }

  function Init(start: int): (s: State)
    ensures s.buffer == [] && s.written == [] && !s.speechStarted
  {
    State(false, None, start, [], [])
  }

  /** One iteration of the `while True` loop, for frame `f`. */
  function Step(cfg: Config, s: State, f: Frame): (r: Iteration)
    ensures r.After().startTime == s.startTime
    ensures Flatten(r.After().written) + r.After().buffer == Flatten(s.written) + s.buffer + [f]
    ensures |s.buffer| < ChunkWriteInterval ==>
              (r.Continue? ==> |r.next.buffer| < ChunkWriteInterval) &&
              (r.Break? ==> 0 < |r.last.buffer| <= ChunkWriteInterval)
    ensures r.Break? ==> r.reason != InputEnded && r.last.written == s.written
    ensures r.Break? && r.reason == SilenceTimeout ==> r.last.speechStarted
    ensures s.speechStarted ==> r.After().speechStarted
    ensures Loud(cfg, f) ==> r.After().speechStarted && r.After().lastSoundTime == Some(f.now)
    ensures !Loud(cfg, f) ==> r.After().lastSoundTime == s.lastSoundTime
  {
    var buffer := s.buffer + [f];
    var started := s.speechStarted || Loud(cfg, f);
    var last := if Loud(cfg, f) then Some(f.now) else s.lastSoundTime;
    var s1 := s.(speechStarted := started, lastSoundTime := last, buffer := buffer);
    if started && Truthy(last) && f.now - last.value > cfg.silenceDuration then
      Break(SilenceTimeout, s1)
    else if f.now - s.startTime >= cfg.maxDuration then
      Break(MaxDuration, s1)
    else if |buffer| >= ChunkWriteInterval then
      FlattenAppend(s.written, buffer);
      Continue(s1.(buffer := [], written := s.written + [buffer]))
    else
      Continue(s1)
  }

  /** Runs the loop over `frames` until it breaks or the frames run out. */
  function Run(cfg: Config, s: State, frames: seq<Frame>): (r: RunResult)
    ensures r.consumed <= |frames|
    ensures r.exit != InputEnded ==> r.consumed >= 1
    ensures r.exit == InputEnded ==> r.consumed == |frames|
    decreases |frames|
  {
    if frames == [] then RunResult(InputEnded, 0, s)
    else
      match Step(cfg, s, frames[0])
      case Break(reason, last) => RunResult(reason, 1, last)
      case Continue(next) =>
        var rest := Run(cfg, next, frames[1..]);
        rest.(consumed := rest.consumed + 1)
  }

  /** The `finally` block: remaining buffered frames are written out. */
  function Finalize(s: State): (ws: seq<seq<Frame>>)
    ensures Flatten(ws) == Flatten(s.written) + s.buffer
    ensures forall k :: 0 <= k < |ws| ==> ws[k] != [] || (k < |s.written| && s.written[k] == [])
  {
    if s.buffer != [] then
      FlattenAppend(s.written, s.buffer);
      s.written + [s.buffer]
    else
      assert s.buffer + [] == s.buffer;
      s.written
  }

  /** `record_speech` from line 82 on, given the start time and the frames. */
  function Record(cfg: Config, start: int, frames: seq<Frame>): (r: Recording)
    ensures r.framesRead <= |frames|
    ensures r.exit == InputEnded ==> r.framesRead == |frames|
    ensures r.exit != InputEnded ==> r.framesRead >= 1
  {
    var run := Run(cfg, Init(start), frames);
    Recording(run.exit, run.consumed, Finalize(run.final))
  }

  /* ---------------------------------------------------------------------- */
  /* Reference: when the loop must stop, stated over the frames read          */
  /* ---------------------------------------------------------------------- */

  /** Some frame of `fs` is above the threshold. */
  predicate SpeechStarted(cfg: Config, fs: seq<Frame>) {
    exists j :: 0 <= j < |fs| && Loud(cfg, fs[j])
  }

  /** The clock reading of the last loud frame of `fs`, if any. */
  function LastLoud(cfg: Config, fs: seq<Frame>): Option<int> {
    if fs == [] then None
    else if Loud(cfg, fs[|fs| - 1]) then Some(fs[|fs| - 1].now)
    else LastLoud(cfg, fs[..|fs| - 1])
  }

  lemma {:induction false} LastLoudExists(cfg: Config, fs: seq<Frame>)
    ensures LastLoud(cfg, fs).Some? <==> SpeechStarted(cfg, fs)
    decreases |fs|
  {
    if fs != [] && !Loud(cfg, fs[|fs| - 1]) {
      var init := fs[..|fs| - 1];
      LastLoudExists(cfg, init);
      if SpeechStarted(cfg, fs) {
        var j :| 0 <= j < |fs| && Loud(cfg, fs[j]);
        assert init[j] == fs[j];
      }
      if SpeechStarted(cfg, init) {
        var j :| 0 <= j < |init| && Loud(cfg, init[j]);
        assert fs[j] == init[j];
      }
    }
  }

  /** Frame `i` ends the recording for silence: speech has started, and more
      than the silence duration has passed since the last loud frame. */
  predicate SilenceStopAt(cfg: Config, frames: seq<Frame>, i: nat)
    requires i < |frames|
  {
    var last := LastLoud(cfg, frames[..i + 1]);
    SpeechStarted(cfg, frames[..i + 1]) && Truthy(last) &&
    frames[i].now - last.value > cfg.silenceDuration
  }

  /** Frame `i` ends the recording for length, whatever the speech state. */
  predicate MaxStopAt(cfg: Config, start: int, frames: seq<Frame>, i: nat)
    requires i < |frames|
  {
    frames[i].now - start >= cfg.maxDuration
  }

  predicate StopsAt(cfg: Config, start: int, frames: seq<Frame>, i: nat)
    requires i < |frames|
  {
    SilenceStopAt(cfg, frames, i) || MaxStopAt(cfg, start, frames, i)
  }

  /** Every write made by the loop itself is a full batch. */
  predicate FullWrites(ws: seq<seq<Frame>>) {
    forall k :: 0 <= k < |ws| ==> |ws[k]| == ChunkWriteInterval
  }

  /** The speech variables agree with the frames read so far. */
  predicate SpeechAgrees(cfg: Config, prefix: seq<Frame>, s: State) {
    && s.lastSoundTime == LastLoud(cfg, prefix)
    && s.speechStarted == s.lastSoundTime.Some?
  }

  /** The loop variables agree with the frames read so far. */
  predicate Inv(cfg: Config, start: int, prefix: seq<Frame>, s: State) {
    && s.startTime == start
    && SpeechAgrees(cfg, prefix, s)
    && Flatten(s.written) + s.buffer == prefix
    && |s.buffer| < ChunkWriteInterval
    && FullWrites(s.written)
  }

  lemma LastLoudSnoc(cfg: Config, fs: seq<Frame>, f: Frame)
    ensures LastLoud(cfg, fs + [f]) == if Loud(cfg, f) then Some(f.now) else LastLoud(cfg, fs)
  {
    assert (fs + [f])[..|fs|] == fs;
  }

  /** The loop breaks at frame `i` exactly when a stop condition holds there,
      for the reason that condition gives, and keeps its speech variables in
      step with the frames read. */
  lemma StepStopsLikeReference(cfg: Config, start: int, all: seq<Frame>, i: nat, s: State)
    requires i < |all|
    requires s.startTime == start && SpeechAgrees(cfg, all[..i], s)
    ensures Step(cfg, s, all[i]).Break? <==> StopsAt(cfg, start, all, i)
    ensures Step(cfg, s, all[i]).Break? ==>
              (Step(cfg, s, all[i]).reason == SilenceTimeout <==> SilenceStopAt(cfg, all, i))
    ensures SpeechAgrees(cfg, all[..i + 1], Step(cfg, s, all[i]).After())
  {
    var prefix := all[..i + 1];
    assert prefix == all[..i] + [all[i]];
    LastLoudSnoc(cfg, all[..i], all[i]);
    LastLoudExists(cfg, prefix);
  }

  /** A flush writes exactly one full batch. */
  lemma StepFlushesFullBatches(cfg: Config, s: State, f: Frame)
    requires |s.buffer| < ChunkWriteInterval && FullWrites(s.written)
    ensures FullWrites(Step(cfg, s, f).After().written)
  {
    var buffer := s.buffer + [f];
    match Step(cfg, s, f)
    case Break(_, last) =>
    case Continue(next) =>
      if |buffer| >= ChunkWriteInterval {
        assert next.written == s.written + [buffer];
        FullWritesSnoc(s.written, buffer);
      }
  }

  lemma FullWritesSnoc(ws: seq<seq<Frame>>, batch: seq<Frame>)
    requires FullWrites(ws) && |batch| == ChunkWriteInterval
    ensures FullWrites(ws + [batch])
  {
    assert forall k :: 0 <= k < |ws| ==> (ws + [batch])[k] == ws[k];
  }

  lemma StepMatchesReference(cfg: Config, start: int, all: seq<Frame>, i: nat, s: State)
    requires i < |all|
    requires Inv(cfg, start, all[..i], s)
    ensures Step(cfg, s, all[i]).Break? <==> StopsAt(cfg, start, all, i)
    ensures Step(cfg, s, all[i]).Continue? ==> Inv(cfg, start, all[..i + 1], Step(cfg, s, all[i]).next)
    ensures Step(cfg, s, all[i]).Break? ==>
              var r := Step(cfg, s, all[i]);
              && (r.reason == SilenceTimeout <==> SilenceStopAt(cfg, all, i))
              && r.last.written == s.written
              && Flatten(r.last.written) + r.last.buffer == all[..i + 1]
              && 0 < |r.last.buffer| <= ChunkWriteInterval
  {
    assert all[..i + 1] == all[..i] + [all[i]];
    StepStopsLikeReference(cfg, start, all, i, s);
    StepFlushesFullBatches(cfg, s, all[i]);
  }

  /** What the run from frame `i` on leaves behind, in reference terms. */
  predicate RunAgrees(cfg: Config, start: int, all: seq<Frame>, i: nat, r: RunResult) {
    && i + r.consumed <= |all|
    && (r.exit == InputEnded ==>
          i + r.consumed == |all| && forall j :: 0 <= j < |all| ==> !StopsAt(cfg, start, all, j))
    && (r.exit != InputEnded ==>
          && r.consumed >= 1
          && StopsAt(cfg, start, all, i + r.consumed - 1)
          && (forall j :: 0 <= j < i + r.consumed - 1 ==> !StopsAt(cfg, start, all, j))
          && (r.exit == SilenceTimeout <==> SilenceStopAt(cfg, all, i + r.consumed - 1))
          && 0 < |r.final.buffer|)
    && Flatten(r.final.written) + r.final.buffer == all[..i + r.consumed]
    && |r.final.buffer| <= ChunkWriteInterval
    && FullWrites(r.final.written)
  }

  lemma {:induction false} RunMatchesReference(cfg: Config, start: int, all: seq<Frame>, i: nat, s: State)
    requires i <= |all|
    requires Inv(cfg, start, all[..i], s)
    requires forall j :: 0 <= j < i ==> !StopsAt(cfg, start, all, j)
    ensures RunAgrees(cfg, start, all, i, Run(cfg, s, all[i..]))
    decreases |all| - i
  {
    if i == |all| {
      assert all[i..] == [];
      assert all[..i] == all;
    } else {
      var frames := all[i..];
      assert frames[0] == all[i];
      assert frames[1..] == all[i + 1..];
      StepMatchesReference(cfg, start, all, i, s);
      match Step(cfg, s, all[i])
      case Break(reason, last) =>
        assert Run(cfg, s, frames) == RunResult(reason, 1, last);
        BreakAgrees(cfg, start, all, i, RunResult(reason, 1, last));
      case Continue(next) =>
        RunMatchesReference(cfg, start, all, i + 1, next);
        var rest := Run(cfg, next, all[i + 1..]);
        assert Run(cfg, s, frames) == rest.(consumed := rest.consumed + 1);
        ContinueAgrees(cfg, start, all, i, rest);
    }
  }

  /** A run that breaks at its first frame, at a stop condition. */
  lemma BreakAgrees(cfg: Config, start: int, all: seq<Frame>, i: nat, r: RunResult)
    requires i < |all| && r.consumed == 1 && r.exit != InputEnded
    requires StopsAt(cfg, start, all, i) && forall j :: 0 <= j < i ==> !StopsAt(cfg, start, all, j)
    requires r.exit == SilenceTimeout <==> SilenceStopAt(cfg, all, i)
    requires Flatten(r.final.written) + r.final.buffer == all[..i + 1]
    requires 0 < |r.final.buffer| <= ChunkWriteInterval && FullWrites(r.final.written)
    ensures RunAgrees(cfg, start, all, i, r)
  {
  }

  /** A run from frame `i + 1` on, seen from frame `i` after one more frame. */
  lemma ContinueAgrees(cfg: Config, start: int, all: seq<Frame>, i: nat, rest: RunResult)
    requires RunAgrees(cfg, start, all, i + 1, rest)
    ensures RunAgrees(cfg, start, all, i, rest.(consumed := rest.consumed + 1))
  {
  }

  /* ---------------------------------------------------------------------- */
  /* Properties of a whole recording                                          */
  /* ---------------------------------------------------------------------- */

  /** What a whole recording's exit reason and frame count say about the
      frames, in reference terms. */
  predicate EndsAsReference(cfg: Config, start: int, frames: seq<Frame>, exit: Exit, read: nat) {
    && read <= |frames|
    && (exit != InputEnded ==>
          && read >= 1
          && StopsAt(cfg, start, frames, read - 1)
          && (exit == SilenceTimeout <==> SilenceStopAt(cfg, frames, read - 1)))
    && (forall j :: 0 <= j < |frames| && (exit == InputEnded || j < read - 1) ==>
          !StopsAt(cfg, start, frames, j))
  }

  lemma RecordEndsAsReference(cfg: Config, start: int, frames: seq<Frame>)
    ensures var r := Record(cfg, start, frames);
      EndsAsReference(cfg, start, frames, r.exit, r.framesRead)
  {
    assert frames[..0] == [];
    assert frames[0..] == frames;
    RunMatchesReference(cfg, start, frames, 0, Init(start));
  }

  /** The loop breaks only at a frame where a stop condition holds, for the
      silence reason exactly when the silence condition holds there (the
      silence test comes first). */
  lemma RecordStopsAtStopCondition(cfg: Config, start: int, frames: seq<Frame>)
    ensures var r := Record(cfg, start, frames);
      r.exit != InputEnded ==>
        && StopsAt(cfg, start, frames, r.framesRead - 1)
        && (r.exit == SilenceTimeout <==> SilenceStopAt(cfg, frames, r.framesRead - 1))
  {
    RecordEndsAsReference(cfg, start, frames);
  }

  /** The loop never passes a frame where a stop condition holds: none holds
      before the last frame read, and none at all when the input ran out. */
  lemma RecordNeverStopsLate(cfg: Config, start: int, frames: seq<Frame>)
    ensures var r := Record(cfg, start, frames);
      forall j :: 0 <= j < |frames| && (r.exit == InputEnded || j < r.framesRead - 1) ==>
        !StopsAt(cfg, start, frames, j)
  {
    RecordEndsAsReference(cfg, start, frames);
  }

  /** The file receives every frame read, in order, each exactly once, in
      batches of exactly 100 frames but for a final, non-empty remainder of at
      most 100. */
  lemma RecordWritesEveryFrameOnce(cfg: Config, start: int, frames: seq<Frame>)
    ensures var r := Record(cfg, start, frames);
      && Flatten(r.writes) == frames[..r.framesRead]
      && WrittenBytes(r.writes) == Join(frames[..r.framesRead])
      && (forall k :: 0 <= k < |r.writes| ==> 0 < |r.writes[k]| <= ChunkWriteInterval)
      && (forall k :: 0 <= k < |r.writes| - 1 ==> |r.writes[k]| == ChunkWriteInterval)
  {
    assert frames[..0] == [];
    assert frames[0..] == frames;
    RunMatchesReference(cfg, start, frames, 0, Init(start));
    WrittenBytesIsJoinOfFlatten(Record(cfg, start, frames).writes);
  }

  /** The in-memory buffer is below the flush interval whenever a frame is
      about to be read, and holds at most 100 frames right after one is
      appended: the loop keeps this bound from its initial state on. */
  lemma BufferStaysBounded(cfg: Config, s: State, frames: seq<Frame>)
    requires |s.buffer| < ChunkWriteInterval
    ensures |Run(cfg, s, frames).final.buffer| <= ChunkWriteInterval
    ensures Run(cfg, s, frames).exit == InputEnded ==> |Run(cfg, s, frames).final.buffer| < ChunkWriteInterval
    decreases |frames|
  {
    if frames != [] {
      match Step(cfg, s, frames[0])
      case Break(_, _) =>
      case Continue(next) => BufferStaysBounded(cfg, next, frames[1..]);
    }
  }

  /** Silence never ends a recording before the first loud frame: a silence
      stop implies some frame read was above the threshold, so a recording
      without any loud frame can only end for length (or input end). */
  lemma SilenceStopNeedsSpeech(cfg: Config, start: int, frames: seq<Frame>)
    ensures var r := Record(cfg, start, frames);
      r.exit == SilenceTimeout ==> exists j :: 0 <= j < r.framesRead && Loud(cfg, frames[j])
    ensures (forall j :: 0 <= j < |frames| ==> !Loud(cfg, frames[j])) ==>
              Record(cfg, start, frames).exit != SilenceTimeout
  {
    var r := Record(cfg, start, frames);
    RecordStopsAtStopCondition(cfg, start, frames);
    RecordNeverStopsLate(cfg, start, frames);
    if r.exit == SilenceTimeout {
      var prefix := frames[..r.framesRead];
      assert SpeechStarted(cfg, prefix);
      var j :| 0 <= j < |prefix| && Loud(cfg, prefix[j]);
      assert frames[j] == prefix[j];
    }
  }

  /** A recording with no loud frame up to the first frame whose elapsed
      time reaches the maximum ends for length exactly at that frame. */
  lemma SpeechlessRecordingEndsAtMaxDuration(cfg: Config, start: int, frames: seq<Frame>, k: nat)
    requires k < |frames| && forall j :: 0 <= j <= k ==> !Loud(cfg, frames[j])
    requires MaxStopAt(cfg, start, frames, k)
    requires forall j :: 0 <= j < k ==> !MaxStopAt(cfg, start, frames, j)
    ensures Record(cfg, start, frames).exit == MaxDuration
    ensures Record(cfg, start, frames).framesRead == k + 1
  {
    var r := Record(cfg, start, frames);
    RecordEndsAsReference(cfg, start, frames);
    SpeechlessStopIsFirstMax(cfg, start, frames, k, r.exit, r.framesRead);
  }

  /** The first frame meeting a stop condition, when no frame is loud, is the
      first frame reaching the length limit. */
  lemma SpeechlessStopIsFirstMax(cfg: Config, start: int, frames: seq<Frame>, k: nat, exit: Exit, read: nat)
    requires k < |frames| && forall j :: 0 <= j <= k ==> !Loud(cfg, frames[j])
    requires MaxStopAt(cfg, start, frames, k)
    requires forall j :: 0 <= j < k ==> !MaxStopAt(cfg, start, frames, j)
    requires EndsAsReference(cfg, start, frames, exit, read)
    ensures exit == MaxDuration && read == k + 1
  {
    forall j | 0 <= j <= k
      ensures StopsAt(cfg, start, frames, j) <==> MaxStopAt(cfg, start, frames, j)
    {
      NoSpeechNoSilenceStop(cfg, frames, j);
    }
    assert exit != InputEnded;
    assert read - 1 <= k;
    assert read - 1 >= k;
  }

  lemma NoSpeechNoSilenceStop(cfg: Config, frames: seq<Frame>, j: nat)
    requires j < |frames|
    requires forall m :: 0 <= m <= j ==> !Loud(cfg, frames[m])
    ensures !SilenceStopAt(cfg, frames, j)
  {
  }

  /** Once any frame satisfies a stop condition, the recording has ended at
      or before that frame: with the length test, at or before the first frame
      whose elapsed time reaches the maximum, whatever was said. */
  lemma RecordEndsNoLaterThan(cfg: Config, start: int, frames: seq<Frame>, k: nat)
    requires k < |frames| && StopsAt(cfg, start, frames, k)
    ensures Record(cfg, start, frames).exit != InputEnded
    ensures Record(cfg, start, frames).framesRead <= k + 1
  {
    RecordEndsAsReference(cfg, start, frames);
  }
}
