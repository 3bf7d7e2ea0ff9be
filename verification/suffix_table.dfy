/**
  The stand-alone copy of the gate in test_suffix_validation.py, which also accepts
  `.mpg`, and the script's table of expected results.
*/
module SuffixTable {
  import opened PathMatcher

  /** The alternation `(mp4|mkv|avi|wmv|mpg)` of the test copy. */
  const TestExtensions: seq<string> := ["mp4", "mkv", "avi", "wmv", "mpg"]

  /** `is_valid_suffix` of the test script. */
  predicate IsValidSuffixTest(s: string) {
    IsValidSuffixWith(TestExtensions, s)
  }

  /** The twenty rows of the script: a file name and the result it expects. */
  const SuffixCases: seq<(string, bool)> := [
    ("video xx.mp4", true),
    ("video  xx.mp4", true),
    ("video XX.mp4", true),
    ("video  XX.mp4", true),
    ("movie xx.mkv", true),
    ("movie  XX.mkv", true),
    ("clip xx.avi", true),
    ("clip  xx.wmv", true),
    ("my video xx.mp4", true),
    ("my_video  XX.mkv", true),
    ("video.mp4", false),
    ("video.mkv", false),
    ("videoxx.mp4", false),
    ("video   xx.mp4", false),
    ("video x.mp4", false),
    ("video xxx.mp4", false),
    ("video Xx.mp4", false),
    ("video xX.mp4", false),
    ("video xx.txt", false),
    ("video xx.mov", false)
  ]

  /** Joining two extension lists joins the alternatives. */
  lemma {:induction false} EndsWithAnyMarkerAppend(t: string, a: seq<string>, b: seq<string>)
    ensures EndsWithAnyMarker(t, a + b) <==> EndsWithAnyMarker(t, a) || EndsWithAnyMarker(t, b)
    decreases |a|
  {
    if |a| == 0 {
      assert a + b == b;
    } else {
      assert (a + b)[1..] == a[1..] + b;
      EndsWithAnyMarkerAppend(t, a[1..], b);
    }
  }

  /** The test copy accepts exactly what the watcher's gate accepts, plus names whose
      marker is followed by `mpg`. */
  lemma TestGateIsWatcherGatePlusMpg(s: string)
    ensures IsValidSuffixTest(s) <==> IsValidSuffix(s) || IsValidSuffixWith(["mpg"], s)
  {
    assert TestExtensions == VideoExtensions + ["mpg"];
    EndsWithAnyMarkerAppend(s, VideoExtensions, ["mpg"]);
    if |s| > 0 {
      EndsWithAnyMarkerAppend(s[..|s| - 1], VideoExtensions, ["mpg"]);
    }
  }

  /** On every name that does not end in `.mpg` (or `.mpg` and a newline) the two
      copies of the gate agree. */
  lemma TestGateAgreesAwayFromMpg(s: string)
    requires !(|s| >= 4 && s[|s| - 4..] == ".mpg")
    requires !(|s| >= 5 && s[|s| - 5..] == ".mpg\n")
    ensures IsValidSuffixTest(s) <==> IsValidSuffix(s)
  {
    TestGateIsWatcherGatePlusMpg(s);
    NoMpgMarker(s);
  }

  /** A name that does not end in `.mpg` (or `.mpg` and a newline) has no `mpg` marker. */
  lemma NoMpgMarker(s: string)
    requires !(|s| >= 4 && s[|s| - 4..] == ".mpg")
    requires !(|s| >= 5 && s[|s| - 5..] == ".mpg\n")
    ensures !IsValidSuffixWith(["mpg"], s)
  {
    MpgMarkerEndsInMpg(s);
    if |s| > 0 && s[|s| - 1] == '\n' {
      var t := s[..|s| - 1];
      MpgMarkerEndsInMpg(t);
      if |t| >= 4 {
        assert s[|s| - 5..] == t[|t| - 4..] + "\n";
      }
    }
  }

  /** A name whose marker is followed by `mpg` ends in `.mpg`. */
  lemma MpgMarkerEndsInMpg(t: string)
    ensures EndsWithAnyMarker(t, ["mpg"]) ==> |t| >= 4 && t[|t| - 4..] == ".mpg"
  {
    assert ["mpg"][1..] == [];
    if EndsWithAnyMarker(t, ["mpg"]) {
      assert EndsWithMarker(t, "mpg");
      assert t[|t| - 4..] == [t[|t| - 4]] + t[|t| - 3..];
    }
  }

  /** The valid rows ending in `.mp4` are accepted. */
  lemma ValidRowsMp4()
    ensures SuffixCases[0].1 && IsValidSuffixTest(SuffixCases[0].0)
    ensures SuffixCases[1].1 && IsValidSuffixTest(SuffixCases[1].0)
    ensures SuffixCases[2].1 && IsValidSuffixTest(SuffixCases[2].0)
  {
    RowPasses(SuffixCases[0].0, 0);
    RowPasses(SuffixCases[1].0, 0);
    RowPasses(SuffixCases[2].0, 0);
  }

  /** The remaining valid rows ending in `.mp4` are accepted. */
  lemma ValidRowsMp4More()
    ensures SuffixCases[3].1 && IsValidSuffixTest(SuffixCases[3].0)
    ensures SuffixCases[8].1 && IsValidSuffixTest(SuffixCases[8].0)
  {
    RowPasses(SuffixCases[3].0, 0);
    RowPasses(SuffixCases[8].0, 0);
  }

  /** The valid rows ending in `.mkv` are accepted. */
  lemma ValidRowsMkv()
    ensures SuffixCases[4].1 && IsValidSuffixTest(SuffixCases[4].0)
    ensures SuffixCases[5].1 && IsValidSuffixTest(SuffixCases[5].0)
    ensures SuffixCases[9].1 && IsValidSuffixTest(SuffixCases[9].0)
  {
    RowPasses(SuffixCases[4].0, 1);
    RowPasses(SuffixCases[5].0, 1);
    RowPasses(SuffixCases[9].0, 1);
  }

  /** The valid rows ending in `.avi` and `.wmv` are accepted. */
  lemma ValidRowsAviWmv()
    ensures SuffixCases[6].1 && IsValidSuffixTest(SuffixCases[6].0)
    ensures SuffixCases[7].1 && IsValidSuffixTest(SuffixCases[7].0)
  {
    RowPasses(SuffixCases[6].0, 2);
    RowPasses(SuffixCases[7].0, 3);
  }

  /** A name ending in a marker and alternative a of the test copy passes it. */
  lemma RowPasses(s: string, a: int)
    requires 0 <= a < |TestExtensions| && EndsWithMarker(s, TestExtensions[a])
    ensures IsValidSuffixTest(s)
  {
    EndsWithAnyMarkerIff(s, TestExtensions);
  }

  /** Seven of the ten rows that expect rejection are rejected. */
  lemma InvalidRowsRejected()
    ensures forall r | 10 <= r < |SuffixCases| && r !in {13, 16, 17} ::
              !SuffixCases[r].1 && !IsValidSuffixTest(SuffixCases[r].0)
  {
  }

  /** Rows 13, 16 and 17 ("video   xx.mp4", "video Xx.mp4", "video xX.mp4") expect a
      rejection, but the search finds a match in each: the table is wrong about them. */
  lemma TableRowsThatFail()
    ensures forall r | r in {13, 16, 17} ::
              0 <= r < |SuffixCases| && !SuffixCases[r].1 && SearchFinds(TestExtensions, SuffixCases[r].0)
  {
    forall r | r in {13, 16, 17}
      ensures 0 <= r < |SuffixCases| && !SuffixCases[r].1 && SearchFinds(TestExtensions, SuffixCases[r].0)
    {
      var s := SuffixCases[r].0;
      assert IsValidSuffixTest(s);
      IsValidSuffixIsRegexSearch(TestExtensions, s);
    }
  }

  /** The test copy accepts `.mpg`, which the watcher's gate does not. */
  lemma MpgOnlyInTestCopy()
    ensures IsValidSuffixTest("video xx.mpg")
    ensures !IsValidSuffix("video xx.mpg")
  {
  }

  /** The extension match is case-sensitive in both copies. */
  lemma ExtensionIsCaseSensitive()
    ensures !IsValidSuffix("video xx.MP4") && !IsValidSuffixTest("video xx.MP4")
  {
  }
}
