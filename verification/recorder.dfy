/**
 * The recorder side of whisper_recorder.py: the space-bar toggle over the
 * `recording` flag and the `frames` buffer, one step of the capture loop,
 * the save-or-None decision at the end of `record`, the `transcribe` guard
 * and the best-effort removal of temporary files.
 *
 * The audio device, the wave writer, the keyboard listener and the speech
 * recognition pipeline are outside the model: a device read is an argument
 * (ReadOutcome), the file that would be written is returned as a WaveFile
 * value, and the pipeline is a function argument.
 */
module Recorder {
  import opened Wrappers

  newtype Byte = x: int | 0 <= x < 256

  /** One buffer of raw PCM bytes as returned by a stream read. */
  type Chunk = seq<Byte>

  /** Stream and wave parameters of `record`. */
  const Channels: nat := 2
  const SampleWidth: nat := 2  // bytes per sample of 16-bit signed PCM
  const Rate: nat := 44100

  const NoAudioMessage: string := "No audio file to transcribe"

  /** A key event as delivered by the keyboard listener. */
  datatype Key = Space | OtherKey(name: string)

  /** The outcome of one `stream.read(CHUNK)`: data, or an exception. */
  datatype ReadOutcome = Data(bytes: Chunk) | ReadError

  /** The wave file `record` writes: header parameters and the sample bytes. */
  datatype WaveFile = WaveFile(path: string, channels: nat, sampleWidth: nat, rate: nat, data: seq<Byte>)

  /** `b''.join(chunks)`: the chunks' bytes one after the other. */
  function Concat(chunks: seq<Chunk>): (data: seq<Byte>)
    ensures data == [] <==> forall i :: 0 <= i < |chunks| ==> chunks[i] == []
  {
    if chunks == [] then [] else chunks[0] + Concat(chunks[1..])
  }

  /** Joining two runs of chunks is joining their joins. */
  lemma {:induction false} ConcatAdditive(a: seq<Chunk>, b: seq<Chunk>)
    ensures Concat(a + b) == Concat(a) + Concat(b)
  {
    if a == [] {
      assert a + b == b;
    } else {
      assert (a + b)[1..] == a[1..] + b;
      ConcatAdditive(a[1..], b);
    }
  }

  /** Appending a chunk appends its bytes at the end of the payload. */
  lemma ConcatAppend(chunks: seq<Chunk>, c: Chunk)
    ensures Concat(chunks + [c]) == Concat(chunks) + c
  {
    ConcatAdditive(chunks, [c]);
    assert Concat([c]) == c + Concat([]);
  }

  /** The recording state of an `AudioWhisper` object. */
  class AudioWhisper {
    var recording: bool
    var frames: seq<Chunk>

    /** The initial recording state (the model loading is not modelled). */
    constructor ()
      ensures !recording && frames == []
    {
      recording := false;
      frames := [];
    }

    /** The audio bytes the buffer holds: the frames joined in order. */
    function Payload(): (data: seq<Byte>)
      reads this
    {
      Concat(frames)
    }

    /**
     * `on_press`: space toggles recording; starting a recording discards
     * the frames of any earlier one; every other key changes nothing.
     */
    method OnPress(key: Key)
      modifies this
      ensures key != Space ==> recording == old(recording) && frames == old(frames)
      ensures key == Space && !old(recording) ==> recording && frames == []
      ensures key == Space && old(recording) ==> !recording && frames == old(frames)
    {
      if key == Space {
        if !recording {
          frames := [];
          recording := true;
        } else {
          recording := false;
        }
      }
    }

    /**
     * One pass of the capture loop in `record`. While recording, a
     * successful read appends its chunk after all earlier ones and the loop
     * goes on, and a failed read ends the loop with the buffer as it was.
     * While not recording nothing is read, and the loop ends exactly when
     * the buffer is non-empty.
     */
    method CaptureStep(read: ReadOutcome) returns (stop: bool)
      modifies this
      ensures recording == old(recording)
      ensures old(recording) && read.Data? ==> frames == old(frames) + [read.bytes] && !stop
      ensures old(recording) && read.ReadError? ==> frames == old(frames) && stop
      ensures !old(recording) ==> frames == old(frames) && (stop <==> frames != [])
      ensures Payload() == if old(recording) && read.Data? then old(Payload()) + read.bytes else old(Payload())
    {
      if recording {
        match read
        case Data(bytes) =>
          ConcatAppend(frames, bytes);
          frames := frames + [bytes];
          stop := false;
        case ReadError =>
          stop := true;
      } else {
        stop := |frames| > 0;
      }
    }

    /**
     * The end of `record`: with an empty buffer nothing is written and the
     * result is None; otherwise the wave file at `outputFilename` holds the
     * frames joined in order, as 2-channel 16-bit 44.1 kHz audio, and its
     * path is returned.
     */
    method SaveRecording(outputFilename: string) returns (result: Option<string>, written: Option<WaveFile>)
      ensures result.None? <==> frames == []
      ensures result.Some? ==> result.value == outputFilename
      ensures written.None? <==> result.None?
      ensures written.Some? ==>
                written.value == WaveFile(outputFilename, Channels, SampleWidth, Rate, Payload())
    {
      if |frames| == 0 {
        return None, None;
      }
      written := Some(WaveFile(outputFilename, Channels, SampleWidth, Rate, Concat(frames)));
      result := Some(outputFilename);
    }
  }

  /**
   * One run of `record` under a fixed order of events: space, a read for
   * each chunk, then either a failing read or space followed by one more
   * pass of the loop; the recording is saved if the loop ended. The loop
   * ends unless no chunk was read and the device did not fail: a toggle
   * off with an empty buffer leaves the loop waiting. A recording with at
   * least one chunk is saved as those chunks joined in order; one with
   * none gives None and no file.
   */
  method RecordSession(chunks: seq<Chunk>, deviceFails: bool, outputFilename: string)
    returns (stopped: bool, result: Option<string>, written: Option<WaveFile>)
    ensures stopped <==> deviceFails || chunks != []
    ensures result.Some? <==> chunks != []
    ensures chunks != [] ==>
              result == Some(outputFilename)
              && written == Some(WaveFile(outputFilename, Channels, SampleWidth, Rate, Concat(chunks)))
    ensures chunks == [] ==> written.None?
  {
    var w := new AudioWhisper();
    w.OnPress(Space);
    var i := 0;
    while i < |chunks|
      invariant 0 <= i <= |chunks|
      invariant w.recording && w.frames == chunks[..i]
    {
      var _ := w.CaptureStep(Data(chunks[i]));
      i := i + 1;
    }
    assert chunks[..i] == chunks;
    if deviceFails {
      stopped := w.CaptureStep(ReadError);
    } else {
      w.OnPress(Space);
      // An idle pass reads nothing, so this argument is never looked at.
      stopped := w.CaptureStep(ReadError);
    }
    if stopped {
      result, written := w.SaveRecording(outputFilename);
    } else {
      result, written := None, None;
    }
  }

  /**
   * `transcribe`: without an audio file the fixed message is returned and
   * the pipeline is not consulted; otherwise the pipeline's text is.
   */
  function Transcribe(audioFile: Option<string>, pipeline: string -> string): (text: string)
    ensures audioFile.None? ==> text == NoAudioMessage
    ensures audioFile.Some? ==> text == pipeline(audioFile.value)
  {
    if audioFile.None? then NoAudioMessage else pipeline(audioFile.value)
  }

  /** The guard's answer does not depend on the pipeline at all. */
  lemma TranscribeNoneIgnoresPipeline(p: string -> string, q: string -> string)
    ensures Transcribe(None, p) == Transcribe(None, q) == NoAudioMessage
  {
  }

  /** A failure reported by `cleanup_temp_files` for one entry. */
  datatype CleanupError =
    | NotAPath             // the entry is None: the existence test raises
    | RemoveFailed(path: string)  // the file exists but `os.remove` raises

  /** The paths named by the entries of a cleanup list. */
  function ListedPaths(files: seq<Option<string>>): (paths: set<string>) {
    set i | 0 <= i < |files| && files[i].Some? :: files[i].value
  }

  /** The error reported for one entry; `undeletable` are the existing paths `os.remove` refuses. */
  function EntryErrors(existing: set<string>, undeletable: set<string>, entry: Option<string>)
    : (errors: seq<CleanupError>)
    ensures |errors| <= 1
    ensures errors == [] <==> entry.Some? && !(entry.value in existing && entry.value in undeletable)
  {
    match entry
    case None => [NotAPath]
    case Some(p) => if p in existing && p in undeletable then [RemoveFailed(p)] else []
  }

  /** The errors reported while cleaning up `files`, in list order, at most one per entry. */
  function CleanupErrors(existing: set<string>, undeletable: set<string>, files: seq<Option<string>>)
    : (errors: seq<CleanupError>)
    ensures |errors| <= |files|
  {
    if files == [] then []
    else CleanupErrors(existing, undeletable, files[..|files| - 1])
         + EntryErrors(existing, undeletable, files[|files| - 1])
  }

  /** Cleanup reports nothing exactly when every entry is a path and none of them is an existing undeletable file. */
  lemma {:induction false} CleanupErrorsEmpty(existing: set<string>, undeletable: set<string>, files: seq<Option<string>>)
    ensures CleanupErrors(existing, undeletable, files) == [] <==>
              forall i :: 0 <= i < |files| ==>
                files[i].Some? && !(files[i].value in existing && files[i].value in undeletable)
  {
    if files != [] {
      var init := files[..|files| - 1];
      CleanupErrorsEmpty(existing, undeletable, init);
      assert forall i :: 0 <= i < |init| ==> init[i] == files[i];
    }
  }

  /**
   * `cleanup_temp_files`: every listed path that exists is removed unless
   * its removal fails; paths not listed are untouched; a failure on one
   * entry is reported and the loop goes on with the rest.
   */
  method CleanupTempFiles(existing: set<string>, undeletable: set<string>, filesToRemove: seq<Option<string>>)
    returns (remaining: set<string>, errors: seq<CleanupError>)
    ensures remaining == existing - (ListedPaths(filesToRemove) - undeletable)
    ensures errors == CleanupErrors(existing, undeletable, filesToRemove)
  {
    remaining := existing;
    errors := [];
    for i := 0 to |filesToRemove|
      invariant remaining == existing - (ListedPaths(filesToRemove[..i]) - undeletable)
      invariant errors == CleanupErrors(existing, undeletable, filesToRemove[..i])
    {
      assert filesToRemove[..i + 1][..i] == filesToRemove[..i];
      assert ListedPaths(filesToRemove[..i + 1]) ==
             ListedPaths(filesToRemove[..i]) + (if filesToRemove[i].Some? then {filesToRemove[i].value} else {});
      match filesToRemove[i]
      case None =>
        errors := errors + [NotAPath];
      case Some(path) =>
        if path in remaining {
          if path in undeletable {
            errors := errors + [RemoveFailed(path)];
          } else {
            remaining := remaining - {path};
          }
        }
    }
    assert filesToRemove[..|filesToRemove|] == filesToRemove;
  }
}
