/**
  The filename gate and the output naming of the watcher (handbrakevidz.py).

  A delivered file is eligible when `re.search(r'[\s]{1,2}[xX]{2}\.(mp4|mkv|avi|wmv)$', name)`
  finds a match. The search is unanchored on the left, so the `{1,2}` does not bound the
  whitespace run, and `[xX]{2}` accepts `Xx` and `xX` as well as `xx` and `XX`.
  The output name is `Path(re.sub(r'[\s]{1,2}[xX]{2}\.', '.', name)).stem + '.mp4'`,
  placed beside the input.
*/
module PathMatcher {

  /** A file as `Path(root) / name`: the directory it lies in and its last component.
      Names never contain '/'. */
  datatype FilePath = FilePath(parent: string, name: string) {
    /** `str(path)`: the text the state files store and compare. */
    function Str(): string { parent + "/" + name }
  }

  // ---------------------------------------------------------------------------
  // Character classes
  // ---------------------------------------------------------------------------

  /** Python's `\s` on str patterns: the characters for which `str.isspace()` holds. */
  predicate IsSpace(c: char) {
    var n := c as int;
    || 0x09 <= n <= 0x0D
    || 0x1C <= n <= 0x20
    || n == 0x85 || n == 0xA0 || n == 0x1680
    || 0x2000 <= n <= 0x200A
    || n == 0x2028 || n == 0x2029 || n == 0x202F || n == 0x205F || n == 0x3000
  }

  /** The class `[xX]`. */
  predicate IsMarkerX(c: char) { c == 'x' || c == 'X' }

  /** The alternation `(mp4|mkv|avi|wmv)` of the gate. */
  const VideoExtensions: seq<string> := ["mp4", "mkv", "avi", "wmv"]

  // ---------------------------------------------------------------------------
  // The gate, as regex semantics
  // ---------------------------------------------------------------------------

  /** `$` without MULTILINE: the end of the string, or just before a final newline. */
  predicate AtDollar(s: string, e: int) {
    e == |s| || (0 <= e && e == |s| - 1 && s[e] == '\n')
  }

  /** The pattern `[\s]{1,2}[xX]{2}\.(exts)$` matches starting at index i, taking k
      whitespace characters and alternative a of `exts`. */
  ghost predicate PatternMatchesAt(exts: seq<string>, s: string, i: int, k: int, a: int) {
    && 0 <= i && 1 <= k <= 2 && 0 <= a < |exts|
    && i + k + 3 + |exts[a]| <= |s|
    && (forall j | i <= j < i + k :: IsSpace(s[j]))
    && IsMarkerX(s[i + k]) && IsMarkerX(s[i + k + 1]) && s[i + k + 2] == '.'
    && s[i + k + 3 .. i + k + 3 + |exts[a]|] == exts[a]
    && AtDollar(s, i + k + 3 + |exts[a]|)
  }

  /** `re.search` of the gate pattern finds some match in s. */
  ghost predicate SearchFinds(exts: seq<string>, s: string) {
    exists i, k, a :: PatternMatchesAt(exts, s, i, k, a)
  }

  // ---------------------------------------------------------------------------
  // The gate, as a suffix check
  // ---------------------------------------------------------------------------

  /** t ends with one whitespace character, two of `[xX]`, a dot and then ext. */
  predicate EndsWithMarker(t: string, ext: string) {
    var n := |ext| + 4;
    && |t| >= n
    && IsSpace(t[|t| - n])
    && IsMarkerX(t[|t| - n + 1]) && IsMarkerX(t[|t| - n + 2])
    && t[|t| - n + 3] == '.'
    && t[|t| - |ext|..] == ext
  }

  /** t ends with the marker followed by one of exts. */
  predicate EndsWithAnyMarker(t: string, exts: seq<string>)
    decreases |exts|
  {
    |exts| > 0 && (EndsWithMarker(t, exts[0]) || EndsWithAnyMarker(t, exts[1..]))
  }

  /** The gate over an arbitrary extension list: the marker ends the name, or ends it
      up to one final newline. */
  predicate IsValidSuffixWith(exts: seq<string>, s: string) {
    || EndsWithAnyMarker(s, exts)
    || (|s| > 0 && s[|s| - 1] == '\n' && EndsWithAnyMarker(s[..|s| - 1], exts))
  }

  /** `VideoFolderHandler.is_valid_suffix`. */
  predicate IsValidSuffix(s: string) {
    IsValidSuffixWith(VideoExtensions, s)
  }

  lemma {:induction false} EndsWithAnyMarkerIff(t: string, exts: seq<string>)
    ensures EndsWithAnyMarker(t, exts) <==> exists a | 0 <= a < |exts| :: EndsWithMarker(t, exts[a])
    decreases |exts|
  {
    if |exts| > 0 {
      EndsWithAnyMarkerIff(t, exts[1..]);
      if EndsWithAnyMarker(t, exts[1..]) {
        var a :| 0 <= a < |exts[1..]| && EndsWithMarker(t, exts[1..][a]);
        assert EndsWithMarker(t, exts[a + 1]);
      }
      if exists a | 0 <= a < |exts| :: EndsWithMarker(t, exts[a]) {
        var a :| 0 <= a < |exts| && EndsWithMarker(t, exts[a]);
        if a > 0 {
          assert EndsWithMarker(t, exts[1..][a - 1]);
        }
      }
    }
  }

  /** A marker that ends t gives a regex match ending at |t|, and t is a prefix of s. */
  lemma MarkerGivesMatch(exts: seq<string>, s: string, t: string, a: int)
    requires 0 <= a < |exts| && EndsWithMarker(t, exts[a])
    requires |t| <= |s| && s[..|t|] == t && AtDollar(s, |t|)
    ensures PatternMatchesAt(exts, s, |t| - |exts[a]| - 4, 1, a)
  {
    var i := |t| - |exts[a]| - 4;
    assert s[i + 4 .. i + 4 + |exts[a]|] == t[|t| - |exts[a]|..];
  }

  /** A regex match ends a prefix of s with the marker; the prefix is s itself or s
      without its final newline. */
  lemma MatchGivesMarker(exts: seq<string>, s: string, i: int, k: int, a: int)
    requires PatternMatchesAt(exts, s, i, k, a)
    ensures IsValidSuffixWith(exts, s)
  {
    var e := i + k + 3 + |exts[a]|;
    var t := s[..e];
    assert IsSpace(s[i + k - 1]);
    assert t[|t| - |exts[a]|..] == exts[a];
    assert EndsWithMarker(t, exts[a]);
    EndsWithAnyMarkerIff(t, exts);
    if e == |s| {
      assert t == s;
    } else {
      assert t == s[..|s| - 1];
    }
  }

  /** The suffix check is exactly what `re.search` of the gate pattern decides. */
  lemma IsValidSuffixIsRegexSearch(exts: seq<string>, s: string)
    ensures IsValidSuffixWith(exts, s) <==> SearchFinds(exts, s)
  {
    if IsValidSuffixWith(exts, s) {
      if EndsWithAnyMarker(s, exts) {
        EndsWithAnyMarkerIff(s, exts);
        var a :| 0 <= a < |exts| && EndsWithMarker(s, exts[a]);
        MarkerGivesMatch(exts, s, s, a);
      } else {
        var t := s[..|s| - 1];
        EndsWithAnyMarkerIff(t, exts);
        var a :| 0 <= a < |exts| && EndsWithMarker(t, exts[a]);
        MarkerGivesMatch(exts, s, t, a);
      }
    }
    if SearchFinds(exts, s) {
      var i, k, a :| PatternMatchesAt(exts, s, i, k, a);
      MatchGivesMarker(exts, s, i, k, a);
    }
  }

  /** Because the search is unanchored on the left, whatever precedes the last
      whitespace character is irrelevant: three or more spaces pass, and so do the
      mixed-case markers `Xx` and `xX`. */
  lemma AcceptsAnyMarkerAfterAnyPrefix(p: string, c: char, m1: char, m2: char, ext: string)
    requires IsSpace(c) && IsMarkerX(m1) && IsMarkerX(m2) && ext in VideoExtensions
    ensures IsValidSuffix(p + [c, m1, m2, '.'] + ext)
    ensures SearchFinds(VideoExtensions, p + [c, m1, m2, '.'] + ext)
  {
    var s := p + [c, m1, m2, '.'] + ext;
    var a :| 0 <= a < |VideoExtensions| && VideoExtensions[a] == ext;
    assert s[|s| - |ext|..] == ext;
    assert EndsWithMarker(s, VideoExtensions[a]);
    EndsWithAnyMarkerIff(s, VideoExtensions);
    IsValidSuffixIsRegexSearch(VideoExtensions, s);
  }

  /** The characters a marker ending in ext can consist of: whitespace, `[xX]`, the dot
      and the extension's letters, none of which is a '/'. */
  lemma {:induction false} MarkerAfterSlash(q: string, t: string, ext: string)
    requires |q| > 0 && q[|q| - 1] == '/' && ext in VideoExtensions
    ensures EndsWithMarker(q + t, ext) <==> EndsWithMarker(t, ext)
  {
    var s := q + t;
    if |t| >= 7 {
      assert s[|s| - 3..] == t[|t| - 3..];
    } else {
      assert s[|q| - 1] == '/';
      assert !EndsWithMarker(s, ext);
    }
  }

  lemma {:induction false} AnyMarkerAfterSlash(q: string, t: string, exts: seq<string>)
    requires |q| > 0 && q[|q| - 1] == '/'
    requires forall a | 0 <= a < |exts| :: exts[a] in VideoExtensions
    ensures EndsWithAnyMarker(q + t, exts) <==> EndsWithAnyMarker(t, exts)
    decreases |exts|
  {
    if |exts| > 0 {
      MarkerAfterSlash(q, t, exts[0]);
      AnyMarkerAfterSlash(q, t, exts[1..]);
    }
  }

  /** The gate looks only at the end of a name, and never past a '/': whatever stands
      before the last '/' does not change its answer. */
  lemma GateIgnoresDirectories(p: string, t: string)
    ensures IsValidSuffix(p + "/" + t) <==> IsValidSuffix(t)
  {
    var q := p + "/";
    assert p + "/" + t == q + t;
    AnyMarkerAfterSlash(q, t, VideoExtensions);
    if |t| > 0 {
      assert (q + t)[..|q + t| - 1] == q + t[..|t| - 1];
      AnyMarkerAfterSlash(q, t[..|t| - 1], VideoExtensions);
    }
  }

  /** Two files stored under the same path text get the same answer from the gate,
      however the text splits into directory and name. */
  lemma SamePathSameVerdict(v: FilePath, u: FilePath)
    requires v.Str() == u.Str()
    ensures IsValidSuffix(v.name) <==> IsValidSuffix(u.name)
  {
    var s := v.Str();
    if |v.name| == |u.name| {
      assert v.name == s[|s| - |v.name|..] == u.name;
    } else if |v.name| > |u.name| {
      var k := |v.name| - |u.name| - 1;
      assert v.name == v.name[..k] + "/" + u.name by {
        assert v.name[k..] == s[|s| - |u.name| - 1..] == "/" + u.name;
        assert v.name == v.name[..k] + v.name[k..];
      }
      GateIgnoresDirectories(v.name[..k], u.name);
    } else {
      var k := |u.name| - |v.name| - 1;
      assert u.name == u.name[..k] + "/" + v.name by {
        assert u.name[k..] == s[|s| - |v.name| - 1..] == "/" + v.name;
        assert u.name == u.name[..k] + u.name[k..];
      }
      GateIgnoresDirectories(u.name[..k], v.name);
    }
  }

  // ---------------------------------------------------------------------------
  // re.sub of the marker
  // ---------------------------------------------------------------------------

  /** The pattern `[\s]{1,2}[xX]{2}\.` matches at the front of s with exactly k
      whitespace characters (for k in {1, 2}, s[0] and s[k-1] are all of them). */
  predicate MarkerAt(s: string, k: int) {
    && 1 <= k <= 2 && |s| >= k + 3
    && IsSpace(s[0]) && IsSpace(s[k - 1])
    && IsMarkerX(s[k]) && IsMarkerX(s[k + 1]) && s[k + 2] == '.'
  }

  /** `re.sub(r'[\s]{1,2}[xX]{2}\.', '.', s)`: scanning left to right, a match at the
      current position is taken greedily (two whitespace characters before one),
      replaced by '.', and scanning resumes after it; otherwise one character is kept. */
  function StripMarkers(s: string): (r: string)
    ensures |r| <= |s|
    ensures |s| > 0 ==> |r| > 0
    decreases |s|
  {
    if |s| == 0 then []
    else if MarkerAt(s, 2) then "." + StripMarkers(s[5..])
    else if MarkerAt(s, 1) then "." + StripMarkers(s[4..])
    else [s[0]] + StripMarkers(s[1..])
  }

  /** The pattern matches at index i of s with k whitespace characters. */
  predicate MatchesAt(s: string, i: int, k: int)
    requires 0 <= i <= |s|
  {
    MarkerAt(s[i..], k)
  }

  /** No match of either width starts at index i of s. */
  predicate NoMatchAt(s: string, i: int)
    requires 0 <= i <= |s|
  {
    !MatchesAt(s, i, 1) && !MatchesAt(s, i, 2)
  }

  /** No marker match starts anywhere in s. */
  predicate NoMarkerIn(s: string) {
    forall i | 0 <= i < |s| :: !MatchesAt(s, i, 1)
  }

  /** Text without whitespace is left alone by the substitution. */
  lemma {:induction false} StripWithoutSpaces(t: string)
    requires forall i | 0 <= i < |t| :: !IsSpace(t[i])
    ensures StripMarkers(t) == t
    decreases |t|
  {
    if |t| > 0 {
      StripWithoutSpaces(t[1..]);
      assert t == [t[0]] + t[1..];
    }
  }

  /** Where no match starts at the front, the first character is copied. */
  lemma StripStep(s: string)
    requires |s| > 0 && NoMatchAt(s, 0)
    ensures StripMarkers(s) == [s[0]] + StripMarkers(s[1..])
  {
    assert s[0..] == s;
  }

  /** No match starts at any of the first n positions of s. */
  predicate CleanFront(s: string, n: int)
    requires 0 <= n <= |s|
    decreases n
  {
    n == 0 || (NoMatchAt(s, 0) && CleanFront(s[1..], n - 1))
  }

  /** The first n positions are clean when no match starts at any of them. */
  lemma {:induction false} CleanFrontOfPositions(s: string, n: int)
    requires 0 <= n <= |s|
    requires forall i | 0 <= i < n :: NoMatchAt(s, i)
    ensures CleanFront(s, n)
    decreases n
  {
    if n > 0 {
      assert NoMatchAt(s, 0);
      forall i | 0 <= i < n - 1 ensures NoMatchAt(s[1..], i) {
        assert s[1..][i..] == s[i + 1..];
        assert NoMatchAt(s, i + 1);
      }
      CleanFrontOfPositions(s[1..], n - 1);
    }
  }

  /** A front p in which no match starts is copied unchanged. */
  lemma {:induction false} StripKeepsFront(p: string, t: string)
    requires CleanFront(p + t, |p|)
    ensures StripMarkers(p + t) == p + StripMarkers(t)
    decreases |p|
  {
    if |p| == 0 {
      assert p + t == t;
    } else {
      var s := p + t;
      var rest := p[1..];
      assert s[1..] == rest + t;
      StripKeepsFront(rest, t);
      calc {
        StripMarkers(s);
        { StripStep(s); }
        [s[0]] + StripMarkers(rest + t);
        [p[0]] + (rest + StripMarkers(t));
        { ConsAppend(p[0], rest, StripMarkers(t)); assert [p[0]] + rest == p; }
        p + StripMarkers(t);
      }
    }
  }

  /** Associativity of one concatenation, kept in a lemma of its own: proved inline
      inside the calculation above it makes the solver run out of resources. */
  lemma ConsAppend(c: char, a: string, b: string)
    ensures [c] + (a + b) == ([c] + a) + b
  {
  }

  /** A stem free of markers that does not end in whitespace, followed by text that
      starts with whitespace, has no match starting inside the stem. */
  lemma NoMatchInsideStem(stem: string, b: string)
    requires NoMarkerIn(stem) && |stem| > 0 && !IsSpace(stem[|stem| - 1])
    requires |b| > 0 && IsSpace(b[0])
    ensures forall i | 0 <= i < |stem| :: NoMatchAt(stem + b, i)
  {
    forall i | 0 <= i < |stem|
      ensures NoMatchAt(stem + b, i)
    {
      var w := (stem + b)[i..];
      var l := |stem| - i;
      assert w[l] == b[0];
      assert !IsMarkerX(b[0]) && b[0] != '.';
      if l >= 4 {
        assert w[..4] == stem[i..][..4];
        assert !MatchesAt(stem, i, 1);
      }
      if l >= 5 {
        assert w[1..][..4] == stem[i + 1..][..4];
        assert !MatchesAt(stem, i + 1, 1);
      }
      assert w[l - 1] == stem[|stem| - 1];
    }
  }

  /** `Path(n).name` for a single component n (no '/'): `Path('.')` has an empty name. */
  function PathName(n: string): string {
    if n == "." then "" else n
  }

  /** Index of the last occurrence of c in s, or -1 (`str.rfind`). */
  function RFind(s: string, c: char): (i: int)
    ensures -1 <= i < |s|
    ensures 0 <= i ==> s[i] == c
    ensures forall j | i < j < |s| :: s[j] != c
    decreases |s|
  {
    if |s| == 0 then -1
    else if s[|s| - 1] == c then |s| - 1
    else RFind(s[..|s| - 1], c)
  }

  /** `PurePath.stem`: the name without its final suffix, where a suffix is a last '.'
      that is neither the first nor the last character. */
  function Stem(name: string): (r: string)
    ensures r == name || (0 < |r| < |name| - 1 && r == name[..|r|] && name[|r|] == '.'
                          && forall j | |r| < j < |name| :: name[j] != '.')
  {
    var i := RFind(name, '.');
    if 0 < i < |name| - 1 then name[..i] else name
  }

  /** The output file name derived from an input file name (lines 232-235). */
  function OutputName(fileName: string): (r: string)
    ensures |r| >= 4 && r[|r| - 4..] == ".mp4"
  {
    Stem(PathName(StripMarkers(fileName))) + ".mp4"
  }

  /** The output path: beside the input (line 236). */
  function OutputPath(video: FilePath): (out: FilePath)
    ensures out.parent == video.parent
    ensures |out.name| >= 4 && out.name[|out.name| - 4..] == ".mp4"
  {
    FilePath(video.parent, OutputName(video.name))
  }

  /** The marker tail itself collapses to '.' followed by the extension. */
  lemma StripMarkedTail(ws: string, m1: char, m2: char, ext: string)
    requires 1 <= |ws| <= 2 && forall j | 0 <= j < |ws| :: IsSpace(ws[j])
    requires IsMarkerX(m1) && IsMarkerX(m2) && forall j | 0 <= j < |ext| :: !IsSpace(ext[j])
    ensures StripMarkers(ws + [m1, m2, '.'] + ext) == "." + ext
  {
    var tail := ws + [m1, m2, '.'] + ext;
    StripWithoutSpaces(ext);
    if |ws| == 2 {
      assert MarkerAt(tail, 2);
      assert tail[5..] == ext;
    } else {
      assert !MarkerAt(tail, 2);
      assert MarkerAt(tail, 1);
      assert tail[4..] == ext;
    }
  }

  /** The stem of `stem + "." + ext` is stem when ext is a non-empty, dot-free suffix. */
  lemma StemOfDotted(stem: string, ext: string)
    requires |stem| > 0 && |ext| > 0 && forall j | 0 <= j < |ext| :: ext[j] != '.'
    ensures Stem(stem + "." + ext) == stem
  {
    var n := stem + "." + ext;
    assert n[|stem|] == '.';
    assert forall j | |stem| < j < |n| :: n[j] == ext[j - |stem| - 1];
    assert RFind(n, '.') == |stem|;
    assert n[..|stem|] == stem;
  }

  /** A stem free of markers that does not end in whitespace is copied unchanged when
      what follows it starts with whitespace. */
  lemma StripAfterCleanStem(stem: string, tail: string)
    requires |stem| > 0 && !IsSpace(stem[|stem| - 1]) && NoMarkerIn(stem)
    requires |tail| > 0 && IsSpace(tail[0])
    ensures StripMarkers(stem + tail) == stem + StripMarkers(tail)
  {
    NoMatchInsideStem(stem, tail);
    CleanFrontOfPositions(stem + tail, |stem|);
    StripKeepsFront(stem, tail);
  }

  /** For a marked name `stem + 1-2 whitespace + xx/XX (or mixed) + '.' + ext` whose stem
      is non-empty, does not end in whitespace and holds no marker of its own, the
      substitution leaves exactly `stem + "." + ext`. */
  lemma {:induction false} StripMarkedFile(stem: string, ws: string, m1: char, m2: char, ext: string)
    requires |stem| > 0 && !IsSpace(stem[|stem| - 1]) && NoMarkerIn(stem)
    requires 1 <= |ws| <= 2 && forall j | 0 <= j < |ws| :: IsSpace(ws[j])
    requires IsMarkerX(m1) && IsMarkerX(m2) && forall j | 0 <= j < |ext| :: !IsSpace(ext[j])
    ensures StripMarkers(stem + ws + [m1, m2, '.'] + ext) == stem + "." + ext
  {
    var tail := ws + [m1, m2, '.'] + ext;
    calc {
      StripMarkers(stem + ws + [m1, m2, '.'] + ext);
      { assert stem + ws + [m1, m2, '.'] + ext == stem + tail; }
      StripMarkers(stem + tail);
      { assert IsSpace(tail[0]); StripAfterCleanStem(stem, tail); }
      stem + StripMarkers(tail);
      { StripMarkedTail(ws, m1, m2, ext); }
      stem + "." + ext;
    }
  }

  /** The extensions of the gate are three characters, none of them whitespace or '.'. */
  lemma ExtensionChars(ext: string)
    requires ext in VideoExtensions
    ensures |ext| == 3 && forall j | 0 <= j < |ext| :: !IsSpace(ext[j]) && ext[j] != '.'
  {
  }

  /** Such a marked name passes the gate. */
  lemma MarkedFilePasses(stem: string, ws: string, m1: char, m2: char, ext: string)
    requires 1 <= |ws| <= 2 && forall j | 0 <= j < |ws| :: IsSpace(ws[j])
    requires IsMarkerX(m1) && IsMarkerX(m2) && ext in VideoExtensions
    ensures IsValidSuffix(stem + ws + [m1, m2, '.'] + ext)
  {
    var p := stem + ws[..|ws| - 1];
    assert stem + ws + [m1, m2, '.'] + ext == p + [ws[|ws| - 1], m1, m2, '.'] + ext;
    AcceptsAnyMarkerAfterAnyPrefix(p, ws[|ws| - 1], m1, m2, ext);
  }

  /** The output name of a marked name whose stem is non-empty, does not end in
      whitespace and holds no marker of its own is exactly `stem + ".mp4"`. */
  lemma OutputNameOfMarkedFile(stem: string, ws: string, m1: char, m2: char, ext: string)
    requires |stem| > 0 && !IsSpace(stem[|stem| - 1]) && NoMarkerIn(stem)
    requires 1 <= |ws| <= 2 && forall j | 0 <= j < |ws| :: IsSpace(ws[j])
    requires IsMarkerX(m1) && IsMarkerX(m2) && ext in VideoExtensions
    ensures OutputName(stem + ws + [m1, m2, '.'] + ext) == stem + ".mp4"
  {
    ExtensionChars(ext);
    StripMarkedFile(stem, ws, m1, m2, ext);
    var stripped := stem + "." + ext;
    assert PathName(stripped) == stripped by {
      assert |stripped| > 1;
    }
    StemOfDotted(stem, ext);
  }
  /** Marked files that share a stem share their output, whatever their marker and
      extension: `a xx.mp4` and `a  XX.mkv` in one folder both map to `a.mp4`. */
  lemma MarkedFilesShareOutput(stem: string, ws1: string, a1: char, b1: char, ext1: string,
                               ws2: string, a2: char, b2: char, ext2: string)
    requires |stem| > 0 && !IsSpace(stem[|stem| - 1]) && NoMarkerIn(stem)
    requires 1 <= |ws1| <= 2 && forall j | 0 <= j < |ws1| :: IsSpace(ws1[j])
    requires 1 <= |ws2| <= 2 && forall j | 0 <= j < |ws2| :: IsSpace(ws2[j])
    requires IsMarkerX(a1) && IsMarkerX(b1) && ext1 in VideoExtensions
    requires IsMarkerX(a2) && IsMarkerX(b2) && ext2 in VideoExtensions
    ensures OutputName(stem + ws1 + [a1, b1, '.'] + ext1) == OutputName(stem + ws2 + [a2, b2, '.'] + ext2) == stem + ".mp4"
  {
    OutputNameOfMarkedFile(stem, ws1, a1, b1, ext1);
    OutputNameOfMarkedFile(stem, ws2, a2, b2, ext2);
  }


  /** Appending a whitespace character and a marker pair to a clean stem that does not
      end in whitespace leaves a clean stem. */
  lemma NoMarkerInExtended(stem: string, c: char, m1: char, m2: char)
    requires |stem| > 0 && !IsSpace(stem[|stem| - 1]) && NoMarkerIn(stem)
    requires IsSpace(c) && IsMarkerX(m1) && IsMarkerX(m2)
    ensures NoMarkerIn(stem + [c, m1, m2])
  {
    var t := stem + [c, m1, m2];
    forall i | 0 <= i < |t| ensures !MatchesAt(t, i, 1) {
      if i + 3 < |stem| {
        assert t[i..][..4] == stem[i..][..4];
        assert !MatchesAt(stem, i, 1);
      } else if i + 3 < |t| {
        assert t[i + 3] != '.';
      }
    }
  }

  /** The substitution is not idempotent: in a doubled marker it removes the second one
      only, which exposes the first; a second pass removes that one too. */
  lemma StripCanExposeMarker(stem: string, ext: string)
    requires |stem| > 0 && !IsSpace(stem[|stem| - 1]) && NoMarkerIn(stem) && ext in VideoExtensions
    ensures StripMarkers(stem + " xx xx." + ext) == stem + " xx." + ext
    ensures StripMarkers(StripMarkers(stem + " xx xx." + ext)) == stem + "." + ext
  {
    ExtensionChars(ext);
    var inner := stem + [' ', 'x', 'x'];
    NoMarkerInExtended(stem, ' ', 'x', 'x');
    StripMarkedFile(inner, [' '], 'x', 'x', ext);
    assert stem + " xx xx." + ext == inner + [' '] + ['x', 'x', '.'] + ext;
    assert inner + "." + ext == stem + " xx." + ext;
    StripMarkedFile(stem, [' '], 'x', 'x', ext);
    assert stem + " xx." + ext == stem + [' '] + ['x', 'x', '.'] + ext;
  }

  /** The output name of a name with a doubled marker keeps the first marker. */
  lemma DoubledMarkerOutputName(stem: string, ext: string)
    requires |stem| > 0 && !IsSpace(stem[|stem| - 1]) && NoMarkerIn(stem) && ext in VideoExtensions
    ensures OutputName(stem + " xx xx." + ext) == stem + " xx.mp4"
  {
    var inner := stem + [' ', 'x', 'x'];
    DoubledSpelling(stem, ext);
    NoMarkerInExtended(stem, ' ', 'x', 'x');
    OutputNameOfMarkedFile(inner, [' '], 'x', 'x', ext);
  }

  /** The doubled marker name split after its first marker pair. Kept apart from the
      lemma that uses it, where the same sequence equalities cost the solver too much. */
  lemma DoubledSpelling(stem: string, ext: string)
    ensures stem + " xx xx." + ext == stem + [' ', 'x', 'x'] + [' '] + ['x', 'x', '.'] + ext
    ensures stem + [' ', 'x', 'x'] + ".mp4" == stem + " xx.mp4"
  {
  }

  /** Any name ending in " xx.mp4" passes the gate. */
  lemma MarkedMp4Passes(stem: string)
    ensures IsValidSuffix(stem + " xx.mp4")
  {
    assert stem + " xx.mp4" == stem + [' ', 'x', 'x', '.'] + "mp4";
    AcceptsAnyMarkerAfterAnyPrefix(stem, ' ', 'x', 'x', "mp4");
  }

  /** Consequently a name with a doubled marker yields an output name that still
      carries a marker, and so itself passes the gate. */
  lemma OutputOfDoubledMarkerIsEligible(stem: string, ext: string)
    requires |stem| > 0 && !IsSpace(stem[|stem| - 1]) && NoMarkerIn(stem) && ext in VideoExtensions
    ensures IsValidSuffix(OutputName(stem + " xx xx." + ext))
  {
    DoubledMarkerOutputName(stem, ext);
    MarkedMp4Passes(stem);
  }
}
