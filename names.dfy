/** The strings the tiler builds: decimal numbers (`str` of a non-negative
    int), patch file names, `os.path.join` of a label directory and a file
    name, and the slide name taken from the slide's path. */
module Names {

  predicate IsDigit(c: char)
  {
    '0' <= c <= '9'
  }

  ghost predicate AllDigits(s: string)
  {
    forall i :: 0 <= i < |s| ==> IsDigit(s[i])
  }

  function DigitChar(d: nat): (c: char)
    requires d < 10
    ensures IsDigit(c)
  {
    (48 + d) as char
  }

  /** `str(n)` for `n >= 0`: decimal digits, most significant first. */
  function NatToString(n: nat): string
    decreases n
  {
    if n < 10 then [DigitChar(n)] else NatToString(n / 10) + [DigitChar(n % 10)]
  }

  /** The value of a string of decimal digits; the inverse of `NatToString`. */
  function ParseNat(s: string): nat
    requires AllDigits(s)
  {
    if s == [] then 0
    else 10 * ParseNat(s[..|s| - 1]) + (s[|s| - 1] as int - 48)
  }

  /** `str(n)` is a non-empty run of digits without a leading zero. */
  lemma {:induction false} NatToStringDigits(n: nat)
    ensures |NatToString(n)| > 0 && AllDigits(NatToString(n))
    ensures NatToString(n)[0] == '0' <==> n == 0
    decreases n
  {
    if n >= 10 {
      NatToStringDigits(n / 10);
    }
  }

  /** Reading back `str(n)` gives `n`. */
  lemma {:induction false} ParseNatToString(n: nat)
    ensures AllDigits(NatToString(n)) && ParseNat(NatToString(n)) == n
    decreases n
  {
    NatToStringDigits(n);
    if n >= 10 {
      ParseNatToString(n / 10);
      var s := NatToString(n);
      assert s[..|s| - 1] == NatToString(n / 10);
    }
  }

  /** Distinct numbers print differently. */
  lemma NatToStringInjective(a: nat, b: nat)
    requires NatToString(a) == NatToString(b)
    ensures a == b
  {
    ParseNatToString(a);
    ParseNatToString(b);
  }

  /** Two strings made of a run of digits, a separator that is not a digit,
      and a rest: equal strings have equal runs and equal rests. */
  lemma SplitAtSeparator(a: string, b: string, sep: char, r1: string, r2: string)
    requires AllDigits(a) && AllDigits(b) && !IsDigit(sep)
    requires a + [sep] + r1 == b + [sep] + r2
    ensures a == b && r1 == r2
  {
    var s1, s2 := a + [sep] + r1, b + [sep] + r2;
    assert |a| == |b| by {
      assert s1[|a|] == sep && s2[|b|] == sep;
    }
    assert a == s1[..|a|] && b == s2[..|b|];
    assert r1 == s1[|a| + 1..] && r2 == s2[|b| + 1..];
  }

  /** `prefix + "_" + str(x) + "_" + str(y) + "." + output_format`. */
  function FileName(prefix: string, x: nat, y: nat, format: string): string
  {
    prefix + "_" + NatToString(x) + "_" + NatToString(y) + "." + format
  }

  /** `str(n)` for any integer: a `-` before the digits of a negative one. */
  function IntToString(n: int): string
  {
    if n < 0 then "-" + NatToString(-n) else NatToString(n)
  }

  /** For a fixed prefix and format the file name determines the position:
      two patches at different positions never share a file name. */
  lemma FileNameInjective(prefix: string, x1: nat, y1: nat, x2: nat, y2: nat, format: string)
    requires FileName(prefix, x1, y1, format) == FileName(prefix, x2, y2, format)
    ensures x1 == x2 && y1 == y2
  {
    var a1, a2 := NatToString(x1), NatToString(x2);
    var b1, b2 := NatToString(y1), NatToString(y2);
    Regroup2(prefix, a1, b1, format);
    Regroup2(prefix, a2, b2, format);
    SamePrefix(prefix + ['_'], a1 + ['_'] + (b1 + ['.'] + format), a2 + ['_'] + (b2 + ['.'] + format));
    NatToStringDigits(x1);
    NatToStringDigits(x2);
    NatToStringDigits(y1);
    NatToStringDigits(y2);
    SplitAtSeparator(a1, a2, '_', b1 + ['.'] + format, b2 + ['.'] + format);
    SplitAtSeparator(b1, b2, '.', format, format);
    NatToStringInjective(x1, x2);
    NatToStringInjective(y1, y2);
  }

  lemma Regroup2(a: string, b: string, c: string, d: string)
    ensures a + "_" + b + "_" + c + "." + d == (a + ['_']) + (b + ['_'] + (c + ['.'] + d))
  {
  }

  lemma SamePrefix(p: string, r1: string, r2: string)
    requires p + r1 == p + r2
    ensures r1 == r2
  {
    assert r1 == (p + r1)[|p|..];
    assert r2 == (p + r2)[|p|..];
  }

  lemma Regroup(a: string, b: string, c: string, d: string)
    ensures a + "_" + b + "_" + c + "." + d == a + ['_'] + (b + "_" + c + "." + d)
  {
  }

  /** A file name led by a number: the number is determined by the name. */
  lemma NumberedFileNameInjective(k1: nat, x1: nat, y1: nat, k2: nat, x2: nat, y2: nat, format: string)
    requires FileName(NatToString(k1), x1, y1, format) == FileName(NatToString(k2), x2, y2, format)
    ensures k1 == k2
  {
    var t1 := NatToString(x1) + "_" + NatToString(y1) + "." + format;
    var t2 := NatToString(x2) + "_" + NatToString(y2) + "." + format;
    Regroup(NatToString(k1), NatToString(x1), NatToString(y1), format);
    Regroup(NatToString(k2), NatToString(x2), NatToString(y2), format);
    NatToStringDigits(k1);
    NatToStringDigits(k2);
    SplitAtSeparator(NatToString(k1), NatToString(k2), '_', t1, t2);
    NatToStringInjective(k1, k2);
  }

  /** `os.path.join(a, b)` on POSIX: an absolute `b` replaces `a`; otherwise
      a `/` is inserted unless `a` is empty or already ends with one. */
  function PathJoin(a: string, b: string): string
  {
    if |b| > 0 && b[0] == '/' then b
    else if a == [] || a[|a| - 1] == '/' then a + b
    else a + "/" + b
  }

  /** The joined path ends with the file name it was given. */
  lemma PathJoinEndsWith(a: string, b: string)
    ensures var p := PathJoin(a, b); |p| >= |b| && p[|p| - |b|..] == b
  {
    var p := PathJoin(a, b);
    if !(|b| > 0 && b[0] == '/') {
      if a == [] || a[|a| - 1] == '/' {
        assert p == a + b;
      } else {
        assert p == (a + "/") + b;
      }
    }
  }

  /** A relative file name under a label directory that does not end with
      `/` lands at `label + "/" + file_name`. */
  lemma PathJoinPlain(a: string, b: string)
    requires a != [] && a[|a| - 1] != '/' && (b == [] || b[0] != '/')
    ensures PathJoin(a, b) == a + "/" + b
  {
  }

  /** `patch_path`: the label's directory, or the label's `.zip` archive when
      patches are zipped, joined with the file name. */
  function PatchPath(name: string, zip: bool, fileName: string): string
  {
    PathJoin(if zip then name + ".zip" else name, fileName)
  }

  /** The index of the last occurrence of `c` in `s`, `-1` if there is none
      (`str.rfind`). */
  function LastIndex(s: string, c: char): (i: int)
    ensures -1 <= i < |s|
    ensures i >= 0 ==> s[i] == c
    ensures forall k :: i < k < |s| ==> s[k] != c
  {
    if s == [] then -1
    else if s[|s| - 1] == c then |s| - 1
    else LastIndex(s[..|s| - 1], c)
  }

  /** The index of the first occurrence of `c` in `s`, `|s|` if there is
      none. */
  function FirstIndex(s: string, c: char): (i: nat)
    ensures i <= |s|
    ensures i < |s| ==> s[i] == c
    ensures forall k :: 0 <= k < i ==> s[k] != c
  {
    if s == [] then 0
    else if s[0] == c then 0
    else 1 + FirstIndex(s[1..], c)
  }

  /** `PurePath.name`: the last component of a path. */
  function BaseName(path: string): string
  {
    path[LastIndex(path, '/') + 1..]
  }

  /** `PurePath.suffix`: from the last `.` of the name, when that dot is
      neither the first nor the last character; otherwise empty. */
  function Suffix(name: string): string
  {
    var i := LastIndex(name, '.');
    if 0 < i < |name| - 1 then name[i..] else ""
  }

  /** `PurePath.stem`: the name without its suffix. */
  function Stem(name: string): string
  {
    var i := LastIndex(name, '.');
    if 0 < i < |name| - 1 then name[..i] else name
  }

  /** Stem and suffix split the name. */
  lemma StemSuffix(name: string)
    ensures Stem(name) + Suffix(name) == name
  {
  }

  /** Python's `t in s` for strings. */
  predicate Contains(s: string, t: string)
    decreases |s|
  {
    |t| <= |s| && (s[..|t|] == t || (s != [] && Contains(s[1..], t)))
  }

  /** `process_slide`: the slide name is the stem of the slide file; a TCGA
      slide name is cut at its first `.`, dropping the case UUID. */
  function SlideName(path: string): string
  {
    var stem := Stem(BaseName(path));
    if Contains(stem, "TCGA") then stem[..FirstIndex(stem, '.')] else stem
  }

  /** The slide name is a prefix of the file's stem; for a TCGA slide it
      holds no `.`. */
  lemma SlideNameIsPrefix(path: string)
    ensures var stem := Stem(BaseName(path));
      |SlideName(path)| <= |stem| && SlideName(path) == stem[..|SlideName(path)|]
    ensures Contains(Stem(BaseName(path)), "TCGA") ==> '.' !in SlideName(path)
  {
  }

  /** A TCGA slide file keeps only the part before the first dot. */
  lemma TcgaSlideName()
    ensures SlideName("/data/TCGA-A1.5f3e.svs") == "TCGA-A1"
  {
    TcgaBaseName();
    TcgaStem();
    TcgaCut();
  }

  lemma TcgaCut()
    ensures var stem := "TCGA-A1.5f3e";
      Contains(stem, "TCGA") && stem[..FirstIndex(stem, '.')] == "TCGA-A1"
  {
    var stem := "TCGA-A1.5f3e";
    assert stem[..4] == "TCGA";
    assert stem[7] == '.' && forall k :: 0 <= k < 7 ==> stem[k] != '.';
  }

  lemma TcgaBaseName()
    ensures BaseName("/data/TCGA-A1.5f3e.svs") == "TCGA-A1.5f3e.svs"
  {
    var p := "/data/TCGA-A1.5f3e.svs";
    assert p[5] == '/' && forall k :: 5 < k < |p| ==> p[k] != '/';
  }

  lemma TcgaStem()
    ensures Stem("TCGA-A1.5f3e.svs") == "TCGA-A1.5f3e"
  {
    var name := "TCGA-A1.5f3e.svs";
    assert name[12] == '.' && forall k :: 12 < k < |name| ==> name[k] != '.';
  }
}
