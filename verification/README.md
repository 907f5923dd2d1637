# whisper_transcriber, modelled in Dafny

whisper_transcriber is a command-line tool. It records audio from the microphone, or takes an audio or video file, and transcribes it with a Whisper speech-recognition pipeline. It then writes the text to a transcript file whose name is not yet taken. This project models the sequential logic around those steps and proves properties of it:

- **Filename allocator** (`generate_filename`, module `Transcript`, with the path helpers in `PathText`). The base name is the stem of the source file when the source path is non-empty and exists. Otherwise it is the default (`recording`). The allocator probes `{base}_transcription_{n}.{ext}` for n = 1, 2, … and returns the first name that does not exist. The filesystem is a finite set of existing path strings. `os.path.basename` and `os.path.splitext` are modelled as in POSIX Python, including the rule that leading dots do not start an extension (`.bashrc` has none). `str(n)` is decimal rendering with a proved inverse.
- **Recorder state** (`AudioWhisper`, module `Recorder`). A class with the two fields the source mutates: `recording` and `frames`. It has the space-bar toggle `on_press`, one pass of the capture loop in `record` (the device read is passed in as a `ReadOutcome`), and the end of `record`. That last step either gives None with no file, or the wave file holding the frames joined in order. `RecordSession` drives these transitions in one fixed order of events.
- **Transcribe guard and cleanup**. `transcribe(None)` returns the fixed message without consulting the pipeline. The pipeline is a function argument. `cleanup_temp_files` is a loop over the list that removes each existing path. A `None` entry, or a path that `os.remove` refuses (the `undeletable` set), is reported and the loop goes on.

Toggling recording off before any chunk is buffered does not end `record`. The loop at whisper_recorder.py:81-82 exits only with a non-empty buffer, so `record` returns None only when a read fails on an empty buffer. See `CaptureStep` and `RecordSession`.

## Model

| member | source | states |
|---|---|---|
| `PathText.Basename` | to_transcript.py:13 | the basename is the longest suffix of the path that holds no `/`: it has no separator, is a suffix, and the character just before it is `/` |
| `PathText.SplitExt` | to_transcript.py:13 | root + ext rebuilds the name; ext is empty or starts with `.` and holds no further `.` and no `/` |
| `PathText.SplitExtRemovesIffExtension` | to_transcript.py:13 | on a name with no separator, splitext removes something exactly when some `.` follows a non-dot character |
| `PathText.Stem` | to_transcript.py:13 | the stem is a prefix of the basename with no `/`; it is shorter exactly when the basename has an extension, and then what it drops is the last `.` and the text after it |
| `PathText.Decimal` | to_transcript.py:20 | the counter's text is a non-empty run of decimal digits with no leading zero |
| `PathText.DecimalRoundTrip` | to_transcript.py:20 | parsing the decimal text of n gives back n |
| `PathText.DecimalInjective` | to_transcript.py:20 | different counters have different decimal texts |
| `Transcript.UsesSource` | to_transcript.py:11 | the source is used only when it is given, non-empty and exists; None, the empty path or a missing path means it is not |
| `Transcript.BaseName` | to_transcript.py:11-15 | with a non-empty existing source the base is its stem (the basename cut at its last extension, fully described by `Stem`'s contract), so it holds no separator and is a prefix of the basename; otherwise it is the default base |
| `Transcript.OutputName` | to_transcript.py:20 | the probed name is the base, then `_transcription_`, then the counter's decimal text, then `.` and the extension, with nothing else in between |
| `Transcript.OutputNameInjective` | to_transcript.py:20 | two counters give the same `{base}_transcription_{n}.{ext}` name only if they are equal |
| `Transcript.CollisionsBounded` | to_transcript.py:19-23 | if the names for 1..n-1 all exist then n ≤ \|existing\| + 1, so the probe loop ends after at most \|existing\| + 1 probes |
| `Transcript.FirstFreeUnique` | to_transcript.py:18-23 | there is only one smallest free counter |
| `Transcript.FirstFreeAfterRun` | to_transcript.py:18-23 | if names 1..N exist and N+1 does not, the first free counter is N+1 (N = 0: a free first name gives counter 1) |
| `Transcript.GenerateFilename` | to_transcript.py:10-23 | the result does not exist, has the shape `{base}_transcription_{n}.{ext}` for the chosen base, and n is the smallest free counter, at most \|existing\| + 1 |
| `Transcript.LectureStem` | to_transcript.py:11-13 | the stem of `lecture.mp4` is `lecture` |
| `Transcript.LectureFirstName` | to_transcript.py:20 | counter 1 for base `lecture` and extension `txt` gives `lecture_transcription_1.txt` |
| `Transcript.LectureTranscriptName` | to_transcript.py:10-23 | with `lecture.mp4` existing and `lecture_transcription_1.txt` free, the allocator returns `lecture_transcription_1.txt` |
| `Recorder.Concat` | whisper_recorder.py:98 | the joined payload is empty exactly when every frame is empty |
| `Recorder.ConcatAdditive` | whisper_recorder.py:98 | joining two runs of chunks equals joining each run and concatenating the results |
| `Recorder.ConcatAppend` | whisper_recorder.py:77 | appending a chunk to the frames appends its bytes at the end of the joined payload |
| `Recorder.AudioWhisper.constructor` | whisper_recorder.py:40-41 | a new recorder is not recording and holds no frames |
| `Recorder.AudioWhisper.OnPress` | whisper_recorder.py:43-51 | another key changes nothing; space while idle starts recording with empty frames; space while recording stops it and keeps the frames |
| `Recorder.AudioWhisper.CaptureStep` | whisper_recorder.py:73-82 | while recording, a read appends its chunk after the earlier ones and the payload grows by its bytes, and a failed read stops the loop with the frames unchanged; while idle nothing changes and the loop stops exactly when frames are non-empty |
| `Recorder.AudioWhisper.SaveRecording` | whisper_recorder.py:89-101 | empty frames give None and no file; otherwise the result is the output path and the file holds the joined frames as 2-channel, 2-byte, 44100 Hz audio |
| `Recorder.RecordSession` | whisper_recorder.py:53-101 | after space, k successful reads, then a failed read or a second space: the loop ends unless k = 0 and the device did not fail; the result is a path exactly when k > 0, and the file then holds the k chunks joined in order |
| `Recorder.Transcribe` | whisper_recorder.py:132-139 | no audio file gives the fixed message; an audio file gives the pipeline's text for it |
| `Recorder.TranscribeNoneIgnoresPipeline` | whisper_recorder.py:134-135 | the answer for no audio file is `No audio file to transcribe` whatever the pipeline is, so the pipeline plays no part |
| `Recorder.EntryErrors` | whisper_recorder.py:149-153 | one entry reports at most one error, and none exactly when it is a path that is missing or can be removed |
| `Recorder.CleanupErrors` | whisper_recorder.py:148-153 | at most one error is reported per list entry |
| `Recorder.CleanupErrorsEmpty` | whisper_recorder.py:148-153 | cleanup reports no error exactly when every entry is a path and none of them is an existing file whose removal fails |
| `Recorder.CleanupTempFiles` | whisper_recorder.py:141-153 | afterwards the filesystem is the old one minus the listed paths that could be removed: listed existing removable paths are gone, unlisted paths are untouched; the errors are reported per entry, in list order |

## Left out

- Model loading and inference: the torch device and dtype choice, `from_pretrained` and the pipeline (whisper_recorder.py:11-37, 138-139). These are calls into external libraries and floating-point inference. The pipeline is a `string -> string` argument of `Transcribe`.
- Audio device and file I/O: PyAudio stream setup and teardown, the wave writer, and the sample size query (whisper_recorder.py:64-69, 84-87, 94-99). The written file is returned as a `WaveFile` value. The sample width of 16-bit PCM is the constant 2. Each successful read returns CHUNK = 1024 two-channel 16-bit frames (4096 bytes); the model lets a chunk be any byte sequence.
- The keyboard listener thread and the busy-wait of `record` (whisper_recorder.py:60-62, 73-82). Only single transitions are modelled, plus one fixed order of events in `RecordSession`. Concurrent interleavings of the two threads are not modelled.
- `extract_audio_from_video` (whisper_recorder.py:103-130). It wraps the video library; on any exception it prints an error and returns None.
- `main` (to_transcript.py:26-74): the console menu and prompts, printing, writing the transcript file, and the catch-all exception handler.
- Console messages (`print`) in every operation. Cleanup errors are returned as a list instead of being printed.
- Filesystem semantics: the filesystem is a set of path strings. There is no path normalisation (`./a` and `a` are different paths), no distinction between files and directories, and no race between probing and writing. Why `os.remove` fails is not modelled either: the caller supplies the `undeletable` set.
- Windows path rules: `Basename` and `SplitExt` follow the POSIX `os.path`, which has `/` as its only separator.
- Default arguments: `generate_filename`'s `default_base='recording'` and `ext='txt'` are the constants `DefaultBase` and `DefaultExt`, which callers pass explicitly. `record`'s default `output_filename="output.wav"` is not modelled: `SaveRecording` and `RecordSession` take the output path as an argument.
- The read size `CHUNK = 1024` (whisper_recorder.py:55) is not modelled, because a read's bytes are an argument.
