/**
 * The string operations the filename allocator relies on: POSIX
 * `os.path.basename`, `os.path.splitext` and the decimal rendering of a
 * counter inside an f-string. Paths are plain character sequences.
 */
module PathText {

  /** The POSIX directory separator. */
  const Sep: char := '/'

  /** The extension separator. */
  const ExtSep: char := '.'

  /** Index of the last occurrence of `c` in `s`, or -1 (Python's `str.rfind`). */
  function LastIndexOf(s: string, c: char): (i: int)
    ensures -1 <= i < |s|
    ensures i >= 0 ==> s[i] == c
    ensures forall j :: i < j < |s| ==> s[j] != c
  {
    if |s| == 0 then -1
    else if s[|s| - 1] == c then |s| - 1
    else LastIndexOf(s[..|s| - 1], c)
  }

  /** Every character of `s` is the extension separator. */
  predicate AllDots(s: string) {
    forall i :: 0 <= i < |s| ==> s[i] == ExtSep
  }

  /**
   * `name` has a real extension: some dot comes after a character that is
   * not a dot (so `.bashrc` and `..` have none, `a.b` and `.a.b` have one).
   */
  predicate HasExtension(name: string) {
    exists i, j :: 0 <= i < j < |name| && name[i] != ExtSep && name[j] == ExtSep
  }

  /**
   * `os.path.basename`: the part after the last separator. It is the longest
   * suffix of `p` that holds no separator.
   */
  function Basename(p: string): (name: string)
    ensures Sep !in name
    ensures |name| <= |p| && name == p[|p| - |name|..]
    ensures |name| < |p| ==> p[|p| - |name| - 1] == Sep
  {
    p[LastIndexOf(p, Sep) + 1..]
  }

  /**
   * `os.path.splitext` (POSIX): splits off the text from the last dot, unless
   * that dot lies in the directory part or only dots precede it in the last
   * path component. Returns (root, ext).
   */
  function SplitExt(p: string): (parts: (string, string))
    ensures parts.0 + parts.1 == p
    ensures parts.1 == [] || (parts.1[0] == ExtSep && Sep !in parts.1 && ExtSep !in parts.1[1..])
  {
    var sepIndex := LastIndexOf(p, Sep);
    var dotIndex := LastIndexOf(p, ExtSep);
    if dotIndex > sepIndex && !AllDots(p[sepIndex + 1..dotIndex]) then
      assert p[..dotIndex] + p[dotIndex..] == p;
      (p[..dotIndex], p[dotIndex..])
    else
      (p, [])
  }

  /** On a name without separators, splitext removes something exactly when the name has an extension. */
  lemma SplitExtRemovesIffExtension(name: string)
    requires Sep !in name
    ensures SplitExt(name).1 != [] <==> HasExtension(name)
  {
    var dotIndex := LastIndexOf(name, ExtSep);
    assert LastIndexOf(name, Sep) == -1;
    if SplitExt(name).1 != [] {
      var i :| 0 <= i < dotIndex && name[i] != ExtSep;
      assert 0 <= i < dotIndex < |name| && name[i] != ExtSep && name[dotIndex] == ExtSep;
    }
    if HasExtension(name) {
      var i, j :| 0 <= i < j < |name| && name[i] != ExtSep && name[j] == ExtSep;
      assert j <= dotIndex;
      assert name[..dotIndex][i] != ExtSep;
    }
  }

  /**
   * The stem: the basename with its last extension removed. It is a prefix
   * of the basename, holds no separator, and is shorter exactly when the
   * basename has an extension; what it drops starts with the basename's
   * last dot.
   */
  function Stem(p: string): (stem: string)
    ensures Sep !in stem
    ensures |stem| <= |Basename(p)| && stem == Basename(p)[..|stem|]
    ensures |stem| < |Basename(p)| <==> HasExtension(Basename(p))
    ensures |stem| < |Basename(p)| ==>
              Basename(p)[|stem|] == ExtSep && ExtSep !in Basename(p)[|stem| + 1..]
  {
    var name := Basename(p);
    var parts := SplitExt(name);
    SplitExtRemovesIffExtension(name);
    assert name == parts.0 + parts.1;
    assert name[..|parts.0|] == parts.0;
    assert name[|parts.0|..] == parts.1;
    parts.0
  }

  /** The digit character for `d` < 10. */
  function DigitChar(d: nat): (c: char)
    requires d < 10
    ensures '0' <= c <= '9'
  {
    (d + '0' as int) as char
  }

  predicate IsDigit(c: char) {
    '0' <= c <= '9'
  }

  /** Python's `str(n)` for a non-negative integer: decimal, no leading zeros. */
  function Decimal(n: nat): (s: string)
    ensures |s| >= 1
    ensures forall i :: 0 <= i < |s| ==> IsDigit(s[i])
    ensures s[0] == '0' ==> n == 0
    decreases n
  {
    if n < 10 then [DigitChar(n)] else Decimal(n / 10) + [DigitChar(n % 10)]
  }

  /** Reads back a string of decimal digits (the inverse of Decimal). */
  function ParseDecimal(s: string): (n: nat)
    requires forall i :: 0 <= i < |s| ==> IsDigit(s[i])
  {
    if s == [] then 0
    else ParseDecimal(s[..|s| - 1]) * 10 + DigitValue(s[|s| - 1])
  }

  /** The value of a digit character (the inverse of DigitChar). */
  function DigitValue(c: char): (d: nat)
    requires IsDigit(c)
    ensures d < 10 && DigitChar(d) == c
  {
    c as int - '0' as int
  }

  lemma {:induction false} DecimalRoundTrip(n: nat)
    ensures ParseDecimal(Decimal(n)) == n
    decreases n
  {
    var s := Decimal(n);
    if n >= 10 {
      DecimalRoundTrip(n / 10);
      assert s[..|s| - 1] == Decimal(n / 10);
    } else {
      assert s[..0] == [];
    }
  }

  /** Distinct counters are rendered as distinct strings. */
  lemma DecimalInjective(a: nat, b: nat)
    requires Decimal(a) == Decimal(b)
    ensures a == b
  {
    DecimalRoundTrip(a);
    DecimalRoundTrip(b);
  }
}
