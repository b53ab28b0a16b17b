# whisper-input: a verified model of the decision logic

`whisper-input` records speech from the microphone until the speaker falls
silent, transcribes it with Whisper, and types the transcript into the focused
window. Around the hardware, the model and the subprocesses sit three small
deterministic cores, all in `src/whisper-input.py`, and this project models
and proves them:

- **Calibration** (`calibrate_mic`): the RMS loudness of the ambient-noise
  reads is sorted, the sample at index `int(n * 0.95)` is the noise floor, and
  the silence threshold is five times that, clamped to [300, 3000]; with no
  sample the threshold is 500. Module `Calibration` (`calibration.dfy`).
- **Recording** (`record_speech`): a loop over microphone frames that starts
  counting silence only once a frame was louder than the threshold, stops when
  the silence lasted longer than `silence_duration` or the recording reached
  `max_duration`, and writes the frames to a wave file in batches of 100 plus
  a final flush in `finally`. Module `Recording` (`recording.dfy`), a step
  function folded over a finite sequence of frames.
- **Delivery** (`is_wayland`, `copy_to_clipboard`, `type_text`): copy the
  transcript to the clipboard (wl-copy on Wayland, then xclip), then paste or
  type it with the first tool that works (wtype Ctrl+V paste, wtype typing,
  xdotool, ydotool), and print one advisory if none did. Module `Delivery`
  (`delivery.dfy`), with Python's argument-less `str.strip` in module
  `Whitespace` (`whitespace.dfy`) and an `Option` type in `wrappers.dfy`.

Inputs that are effects in the program are parameters here:

- every capture read of the calibration is `Some(rms)` or `None` (a read that
  raised and was swallowed);
- the audio stream is a finite sequence of `Frame(data, rms, now)`: its bytes,
  its RMS loudness, and one clock reading;
- the environment is a map of variables, `shutil.which` is a map from tool
  name to resolved path, and running a command is an oracle
  `Command -> Outcome` (exit status 0, another status, or a timeout).

The delivery is modelled twice. `Delivery.Deliver` is a generic
short-circuiting chain over the ordered mechanism lists, and
`Delivery.TypeTextAsWritten` follows the source's nested `if`/`try` blocks
branch by branch; `Delivery.DeliverMatchesSource` proves the two equal for
every input and every command outcome, and the properties are proved of the
chain.

The recording loop is likewise given a reference: `Recording.SilenceStopAt` and
`Recording.MaxStopAt` say, from the frames read alone, where a stop condition
holds (the silence test through `Recording.LastLoud`, the last loud frame).
`Recording.RunMatchesReference` proves that the loop's variables track that
reference.

Two behaviours of the recording loop that its own text leaves implicit:

- Unlike the calibration capture loop (`src/whisper-input.py:32-37`), the
  recording loop does not catch a failing `stream.read` (line 90). The
  `finally` block (lines 117-121) still flushes the buffer, and the exception
  then leaves `record_speech`. The model represents the end of the readable
  frames as `InputEnded` and applies the same flush.
- The docstring calls `max_duration` the "Maximum recording duration"
  (line 60), but the loop stops at the first frame whose elapsed time is at
  least `max_duration` (lines 106-110). The recording therefore lasts at least
  `max_duration`, and overshoots it by less than the time between two reads.

## Model

| member | source | states |
|---|---|---|
| Calibration.CollectSamples | src/whisper-input.py:28-37 | a failed read adds no sample, every successful reading appears among the samples and every sample was read; there are no samples exactly when every read failed |
| Calibration.CollectSamplesCounts | src/whisper-input.py:28-37 | each successful reading appears among the samples exactly as many times as it was read |
| Calibration.Sort | src/whisper-input.py:44 | `samples.sort()` yields an ascending permutation of the samples |
| Calibration.PercentileIndex | src/whisper-input.py:46-47 | the index is the floor of 0.95·n, and is below n whenever n > 0, so the `samples[-1]` fallback is never taken |
| Calibration.NoiseFloor | src/whisper-input.py:44-47 | the noise floor is one of the collected samples |
| Calibration.Clamp | src/whisper-input.py:49 | the result lies in [300, 3000] and is the input when the input already does |
| Calibration.Threshold | src/whisper-input.py:43-51 | with no sample the threshold is 500; otherwise it lies in [300, 3000] |
| Calibration.Calibrate | src/whisper-input.py:28-51 | the calibrated threshold always lies in [300, 3000], and is 500 when every read failed |
| Calibration.SortCounts | src/whisper-input.py:44 | sorting keeps, for every level, how many samples lie below it and at most at it |
| Calibration.NoiseFloorIsOrderStatistic | src/whisper-input.py:44-47 | a value is the noise floor exactly when it is the order statistic of rank `int(0.95·n)` of the samples, defined by counting rather than sorting |
| Calibration.ThresholdIsClampedPercentile | src/whisper-input.py:44-49 | with at least one sample the threshold is clamp(5·v, 300, 3000) for that order statistic v |
| Calibration.CalibrateIsClampedPercentile | src/whisper-input.py:28-51 | when some read succeeded, `calibrate_mic` returns clamp(5·v, 300, 3000) for the successful reading v of rank ⌊0.95·n⌋ among the n successful readings, counted with multiplicity |
| Calibration.ThresholdOfConstantSamples | src/whisper-input.py:44-49 | n ≥ 1 identical samples L give clamp(5·L, 300, 3000) |
| Recording.WrittenBytesIsJoinOfFlatten | src/whisper-input.py:113-120 | writing the batches one after another puts the same bytes in the file as joining all their frames at once |
| Recording.Step | src/whisper-input.py:89-115 | one iteration appends the frame to buffer-plus-file, keeps the start time, sets the last sound time exactly on loud frames, breaks only for silence after speech or for length and then without writing, and keeps the buffer below 100 frames |
| Recording.Run | src/whisper-input.py:88-116 | the loop reads at most the frames given, and all of them when no break happened |
| Recording.Finalize | src/whisper-input.py:117-121 | the `finally` flush appends exactly the buffered frames to the file, and writes nothing empty |
| Recording.Record | src/whisper-input.py:82-126 | a recording that broke read at least one frame, and one that ran out of input read all of them |
| Recording.LastLoudExists | src/whisper-input.py:95-102 | there is a last loud frame exactly when speech has started |
| Recording.StepStopsLikeReference | src/whisper-input.py:95-110 | an iteration breaks exactly when the reference stop condition holds at that frame, for the silence reason exactly when the silence condition holds, and keeps `speech_started` and `last_sound_time` in step with the frames read |
| Recording.StepMatchesReference | src/whisper-input.py:89-115 | an iteration preserves the loop invariant: variables agree with the frames read, file plus buffer is exactly those frames, buffer below 100, every write a full batch |
| Recording.RunMatchesReference | src/whisper-input.py:88-116 | from any state satisfying the invariant, the loop stops at the first frame where a stop condition holds, and file plus buffer then holds exactly the frames read |
| Recording.RecordStopsAtStopCondition | src/whisper-input.py:95-110 | a recording that broke did so at a frame where speech had started and more than `silence_duration` had passed since the last loud frame, or where the elapsed time reached `max_duration`; the silence reason is reported exactly when the silence condition holds there |
| Recording.RecordNeverStopsLate | src/whisper-input.py:95-110 | no frame before the last one read meets a stop condition, and none at all when the input ran out: the loop stops at the first such frame |
| Recording.RecordWritesEveryFrameOnce | src/whisper-input.py:82-121 | the file receives every frame read, in order, each exactly once, in batches of exactly 100 frames but for a final non-empty remainder of at most 100 |
| Recording.BufferStaysBounded | src/whisper-input.py:112-115 | the in-memory buffer never holds more than 100 frames, and fewer than 100 between iterations |
| Recording.SilenceStopNeedsSpeech | src/whisper-input.py:95-104 | a silence stop implies some frame read was louder than the threshold, so a recording of quiet frames never stops for silence |
| Recording.SpeechlessRecordingEndsAtMaxDuration | src/whisper-input.py:101-110 | a recording with no loud frame up to the first frame whose elapsed time reaches the maximum ends for length, exactly at that frame (later frames may be loud: the loop never reads them) |
| Recording.RecordEndsNoLaterThan | src/whisper-input.py:101-110 | once any frame meets a stop condition, the recording has ended at or before it |
| Whitespace.LStrip | src/whisper-input.py:162 | leading whitespace is removed: the result is the suffix after a run of whitespace and does not start with whitespace |
| Whitespace.RStrip | src/whisper-input.py:162 | trailing whitespace is removed: the result is the prefix before a run of whitespace and does not end with whitespace |
| Whitespace.Strip | src/whisper-input.py:162 | `strip()` returns a slice of the text with only whitespace outside it and no whitespace at either end |
| Whitespace.BlankIffAllSpace | src/whisper-input.py:162-163 | a text is blank (`not text or not text.strip()`) exactly when every character is whitespace |
| Delivery.WaylandDetection | src/whisper-input.py:137-138 | only `XDG_SESSION_TYPE` and `WAYLAND_DISPLAY` decide the session; a session type of `wayland` suffices, and an empty display counts as unset |
| Delivery.CommandFor | src/whisper-input.py:143-204 | each mechanism runs its own tool (argv[0] is the tool's name, or the resolved `wtype` path for `wtype`) with timeout 5 for the copies, 10 for the paste keystroke and 30 for typing; `xclip` reads the text on stdin, every other command has no stdin, and every typing or `wl-copy` command passes the text as its last argument |
| Delivery.InjectEligibility | src/whisper-input.py:170-202 | the source's guards of the four injection steps are exactly the mechanisms' eligibility: tool on PATH, Wayland for wtype, and a successful copy for the paste |
| Delivery.RunChainPrefix | src/whisper-input.py:140-207 | a fallback chain runs a prefix of the enabled commands, each once, in order, recording its outcome |
| Delivery.RunChainStops | src/whisper-input.py:140-207 | a fallback chain stops at the first success, reports success exactly when its last attempt succeeded, and tries everything enabled when it fails |
| Delivery.ChainSucceedsIffSomeStepWould | src/whisper-input.py:140-207 | a fallback chain succeeds exactly when one of its enabled commands would |
| Delivery.CopyMatchesSource | src/whisper-input.py:140-154 | the chain over wl-copy and xclip equals `copy_to_clipboard` branch by branch |
| Delivery.InjectMatchesSource | src/whisper-input.py:165-212 | the chain over the four injection mechanisms plus the advisory equals the source's nested `try` blocks |
| Delivery.DeliverMatchesSource | src/whisper-input.py:156-212 | the generic chain model of `type_text` equals the as-written one for every text, environment, PATH and command outcome |
| Delivery.ChainSound | src/whisper-input.py:140-207 | a chain over an ordered mechanism list runs only eligible mechanisms of that list, each with its own command, recording its outcome |
| Delivery.ChainOrdered | src/whisper-input.py:140-207 | a chain over a list of increasing rank runs its mechanisms in that order |
| Delivery.ChainSkips | src/whisper-input.py:140-207 | a chain skips an eligible mechanism only after an earlier mechanism of its list succeeded |
| Delivery.Phases | src/whisper-input.py:165-212 | a delivery is the copy attempts followed by the injection attempts, and each phase succeeded exactly when one of its attempts exited with status 0 |
| Delivery.BlankTranscriptDoesNothing | src/whisper-input.py:162-163 | an empty or whitespace-only transcript runs no command and prints no advisory |
| Delivery.AdvisoryReflectsOutcome | src/whisper-input.py:209-212 | no advisory exactly when the transcript is blank or an injection succeeded; otherwise the manual-paste hint exactly when a copy succeeded, and the install hint exactly when none did |
| Delivery.AdvisoryMessage | src/whisper-input.py:209-212 | the advisory printed is "Text copied to clipboard (paste manually with Ctrl+V)" when a copy succeeded and "Could not type or copy text. Install wtype (Wayland) or xdotool (X11)" otherwise |
| Delivery.AllInjectionsFailing | src/whisper-input.py:209-212 | when every paste and typing command fails, exactly one advisory is printed, chosen by whether the copy succeeded |
| Delivery.DeliveryRunsEligibleCommands | src/whisper-input.py:140-207 | every command run is the command of a mechanism whose tool is on PATH, Wayland-only mechanisms only in a Wayland session, the paste only after a successful copy |
| Delivery.DeliveryRunsInOrder | src/whisper-input.py:140-207 | commands run in the order wl-copy, xclip, wtype paste, wtype typing, xdotool, ydotool |
| Delivery.DeliverySuccessEndsPhase | src/whisper-input.py:140-207 | after a successful copy only injections follow, and nothing follows a successful injection |
| Delivery.DeliverySkipsOnlyAfterSuccess | src/whisper-input.py:140-207 | an eligible mechanism that was not run was skipped only because an earlier mechanism of the same phase succeeded |

## Left out

- Audio capture and the wave file: PyAudio stream setup, reads and teardown,
  the wave header and `wf.close()` are I/O; the file is an append-only
  sequence of writes.
- `audioop.rms` computes a floating-point square root; each frame's and each
  calibration read's RMS is a given integer.
- Calibration.PercentileIndex: `int(len(samples) * 0.95)` is a float product;
  it is taken as the exact `(n * 95) / 100`, assumed to agree with the float
  result for the sample counts a capture produces (64 for the default 1.5 s).
- The calibration's chunk count `int(44100 / 1024 * duration)` is capture
  plumbing: the model takes whatever sequence of reads it is given.
- Recording.Step: `time.time()` is read up to three times per iteration; the
  model uses one clock reading per frame, in the frame's own unit, so
  durations are compared in that unit.
- Recording.Step: the truthiness test of `last_sound_time` is modelled as
  written (set and non-zero); a clock reading of exactly 0 would disable the
  silence stop, as it does in the program.
- Recording.Run: the loop is run over a finite sequence of frames; an endless
  stream without a stop condition is not modelled, and running out of frames
  stands for the read raising or an interrupt, after which only the flush runs.
- `time.sleep(0.05)` before the paste keystroke has no effect on the
  decisions and is left out.
- Delivery.CommandFor: the oracle decides every outcome; exceptions other
  than a non-zero exit or a timeout (which the xclip branch also swallows),
  the xclip child left running after a timeout, and the UTF-8 encoding of the
  text on xclip's stdin are not modelled.
- Standard-error messages (speech detected, length reached, colours) other
  than the choice of the final advisory are output only.
- Whisper transcription, desktop notifications, beeps, argument parsing and
  the top-level script sequencing (lines 214 on) are external collaborators
  or user interface with no decision logic of their own.
