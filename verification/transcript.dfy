/**
 * The output-filename allocator of to_transcript.py: pick a base name from
 * the source file's stem (or a default), then take the first counter n = 1,
 * 2, 3, ... for which `{base}_transcription_{n}.{ext}` does not exist.
 * The filesystem is the finite set of paths that exist.
 */
module Transcript {
  import opened Wrappers
  import opened PathText

  /** Default arguments of `generate_filename`. */
  const DefaultBase: string := "recording"
  const DefaultExt: string := "txt"

  /** The fixed text between the base name and the counter. */
  const Infix: string := "_transcription_"

  /** `source_path and os.path.exists(source_path)`: a non-empty path that exists. */
  predicate UsesSource(source: Option<string>, existing: set<string>): (uses: bool)
    ensures uses ==> source.Some? && |source.value| > 0 && source.value in existing
    ensures source.None? || source.value == [] || source.value !in existing ==> !uses
  {
    source.Some? && source.value != [] && source.value in existing
  }

  /**
   * The base name: the stem of an existing source path, else the default.
   * A base taken from the source is its stem, so (by Stem's contract) it
   * holds no separator and is the basename cut at its last extension.
   */
  function BaseName(source: Option<string>, existing: set<string>, defaultBase: string): (base: string)
    ensures UsesSource(source, existing) ==> base == Stem(source.value)
    ensures UsesSource(source, existing) ==>
              Sep !in base && |base| <= |Basename(source.value)| && base == Basename(source.value)[..|base|]
    ensures !UsesSource(source, existing) ==> base == defaultBase
  {
    if UsesSource(source, existing) then Stem(source.value) else defaultBase
  }

  /** The probed name `f"{base}_transcription_{n}.{ext}"`. */
  function OutputName(base: string, n: nat, ext: string): (name: string)
    ensures |name| == |base| + |Infix| + |Decimal(n)| + 1 + |ext|
    ensures name[..|base|] == base && name[|base|..|base| + |Infix|] == Infix
    ensures name[|base| + |Infix|..|base| + |Infix| + |Decimal(n)|] == Decimal(n)
    ensures name[|name| - |ext| - 1] == ExtSep && name[|name| - |ext|..] == ext
  {
    base + Infix + Decimal(n) + [ExtSep] + ext
  }

  /** Two counters give the same probed name only if they are equal. */
  lemma OutputNameInjective(base: string, ext: string, a: nat, b: nat)
    requires OutputName(base, a, ext) == OutputName(base, b, ext)
    ensures a == b
  {
    var s := OutputName(base, a, ext);
    assert |Decimal(a)| == |Decimal(b)|;
    assert Decimal(a) == s[|base| + |Infix|..|base| + |Infix| + |Decimal(a)|] == Decimal(b);
    DecimalInjective(a, b);
  }

  /** Every probe for a counter in 1 .. n-1 collided with an existing path. */
  predicate AllCollide(existing: set<string>, base: string, ext: string, n: nat) {
    forall k :: 1 <= k < n ==> OutputName(base, k, ext) in existing
  }

  /** n is the smallest positive counter whose name does not exist. */
  predicate IsFirstFree(existing: set<string>, base: string, ext: string, n: nat) {
    && n >= 1
    && OutputName(base, n, ext) !in existing
    && AllCollide(existing, base, ext, n)
  }

  /**
   * A run of collisions for 1 .. n-1 uses n-1 distinct existing paths, so at
   * most |existing| + 1 probes are ever made.
   */
  lemma {:induction false} CollisionsBounded(existing: set<string>, base: string, ext: string, n: nat)
    requires AllCollide(existing, base, ext, n)
    ensures n <= |existing| + 1
    decreases n
  {
    if n > 1 {
      var last := OutputName(base, n - 1, ext);
      forall k | 1 <= k < n - 1
        ensures OutputName(base, k, ext) in existing - {last}
      {
        if OutputName(base, k, ext) == last {
          OutputNameInjective(base, ext, k, n - 1);
        }
      }
      CollisionsBounded(existing - {last}, base, ext, n - 1);
    }
  }

  /** The first free counter is unique. */
  lemma FirstFreeUnique(existing: set<string>, base: string, ext: string, m: nat, n: nat)
    requires IsFirstFree(existing, base, ext, m) && IsFirstFree(existing, base, ext, n)
    ensures m == n
  {
  }

  /**
   * If the names for 1 .. runLength all exist and the next one does not,
   * the first free counter is runLength + 1 (with runLength = 0: the first
   * probe is free, so the counter is 1).
   */
  lemma FirstFreeAfterRun(existing: set<string>, base: string, ext: string, runLength: nat, n: nat)
    requires forall k :: 1 <= k <= runLength ==> OutputName(base, k, ext) in existing
    requires OutputName(base, runLength + 1, ext) !in existing
    requires IsFirstFree(existing, base, ext, n)
    ensures n == runLength + 1
  {
    FirstFreeUnique(existing, base, ext, n, runLength + 1);
  }

  /**
   * `generate_filename`: the probe loop starts at 1 and steps by 1 until a
   * name is free. The result never exists, has the shape
   * `{base}_transcription_{n}.{ext}` for the base chosen by BaseName, and its
   * counter n is the smallest free one, at most |existing| + 1.
   */
  method GenerateFilename(source: Option<string>, existing: set<string>, defaultBase: string, ext: string)
    returns (outputFilename: string)
    ensures outputFilename !in existing
    ensures exists n: nat ::
              && IsFirstFree(existing, BaseName(source, existing, defaultBase), ext, n)
              && n <= |existing| + 1
              && outputFilename == OutputName(BaseName(source, existing, defaultBase), n, ext)
  {
    var baseName := BaseName(source, existing, defaultBase);
    var counter: nat := 1;
    while true
      invariant counter >= 1
      invariant AllCollide(existing, baseName, ext, counter)
      decreases |existing| + 1 - counter
    {
      CollisionsBounded(existing, baseName, ext, counter);
      outputFilename := OutputName(baseName, counter, ext);
      if outputFilename !in existing {
        assert IsFirstFree(existing, baseName, ext, counter);
        return;
      }
      CollisionsBounded(existing, baseName, ext, counter + 1);
      counter := counter + 1;
    }
  }

  /** The stem of `lecture.mp4` is `lecture`. */
  lemma LectureStem()
    ensures Stem("lecture.mp4") == "lecture"
  {
    var source := "lecture.mp4";
    assert forall j :: 0 <= j < |source| ==> source[j] != Sep;
    assert Basename(source) == source;
    assert source[0] != ExtSep && source[7] == ExtSep;
    assert HasExtension(source);
    var stem := Stem(source);
    assert forall j :: 0 <= j < |source| && j != 7 ==> source[j] != ExtSep;
    assert |stem| == 7;
  }

  /** The first transcript name for `lecture`. */
  lemma LectureFirstName()
    ensures OutputName("lecture", 1, DefaultExt) == "lecture_transcription_1.txt"
  {
    assert Decimal(1) == "1";
  }

  /**
   * A client of GenerateFilename: an existing `lecture.mp4` whose first
   * transcript name is free is transcribed to `lecture_transcription_1.txt`.
   */
  method LectureTranscriptName(existing: set<string>) returns (outputFilename: string)
    requires "lecture.mp4" in existing
    requires "lecture_transcription_1.txt" !in existing
    ensures outputFilename == "lecture_transcription_1.txt"
  {
    LectureStem();
    LectureFirstName();
    assert BaseName(Some("lecture.mp4"), existing, DefaultBase) == "lecture";
    assert IsFirstFree(existing, "lecture", DefaultExt, 1);
    outputFilename := GenerateFilename(Some("lecture.mp4"), existing, DefaultBase, DefaultExt);
    ghost var n: nat :| IsFirstFree(existing, "lecture", DefaultExt, n)
                        && outputFilename == OutputName("lecture", n, DefaultExt);
    FirstFreeUnique(existing, "lecture", DefaultExt, n, 1);
  }
}
