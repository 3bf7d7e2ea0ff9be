/**
  The resolution policy: keep the source height up to 540 lines, otherwise (or when the
  height could not be probed) scale down to 480 lines. handbrakevidz.py computes only the
  flag; test_resolution_logic.py returns the flag, the target height and a reason.
*/
module Resolution {
  import opened Optional

  /** Heights up to and including this keep their resolution. */
  const KeepThreshold := 540

  /** The height a downscaled encode is given. */
  const DownscaleTarget := 480

  /** `should_downscale` as computed inline by `compress_video` (lines 258-260). */
  predicate ShouldDownscale(height: Option<int>) {
    !(height.Some? && height.value <= KeepThreshold)
  }

  /** The flag is set exactly when the height is unknown or above the threshold. */
  lemma ShouldDownscaleCases(height: Option<int>)
    ensures ShouldDownscale(height) <==> height.None? || height.value > 540
    ensures height == Some(540) ==> !ShouldDownscale(height)
    ensures height == Some(541) ==> ShouldDownscale(height)
  {
  }

  predicate IsDigit(c: char) { '0' <= c <= '9' }

  function DigitChar(d: int): (c: char)
    requires 0 <= d < 10
    ensures IsDigit(c) && c as int - '0' as int == d
  {
    ('0' as int + d) as char
  }

  /** Decimal digits of n, most significant first, without leading zeros. */
  function NatToString(n: nat): (s: string)
    ensures |s| >= 1
    ensures forall i | 0 <= i < |s| :: IsDigit(s[i])
    ensures |s| > 1 ==> s[0] != '0'
    decreases n
  {
    if n < 10 then [DigitChar(n)] else NatToString(n / 10) + [DigitChar(n % 10)]
  }

  /** Python's `str(n)` for the height interpolated into a reason. */
  function IntToString(n: int): (s: string)
    ensures |s| >= 1
    ensures s[0] == '-' <==> n < 0
  {
    if n < 0 then "-" + NatToString(-n) else NatToString(n)
  }

  /** What the test script's `should_downscale` returns. */
  datatype Decision = Decision(downscale: bool, target: int, reason: string)

  /** `should_downscale` of test_resolution_logic.py. */
  function Decide(height: Option<int>): (d: Decision)
    ensures d.target <= KeepThreshold
    ensures d.downscale ==> d.target == DownscaleTarget
    ensures !d.downscale ==> height == Some(d.target)
  {
    match height
    case None => Decision(true, 480, "Resolution unknown, defaulting to 480p")
    case Some(h) =>
      if h <= 540 then
        Decision(false, h, "Source is " + IntToString(h) + "p (\U{2264}540p), keeping original")
      else
        Decision(true, 480, "Source is " + IntToString(h) + "p (>540p), downscaling to 480p")
  }

  /** The test copy's flag is the flag the watcher computes, for every input. */
  lemma DecideAgreesWithWatcher(height: Option<int>)
    ensures Decide(height).downscale == ShouldDownscale(height)
  {
  }

  /** The table of test_resolution_logic.py: 360, 480 and 540 keep their height;
      720, 1080, 1440, 2160 and an unknown height go to 480. */
  lemma ResolutionTable()
    ensures Decide(Some(360)).downscale == false && Decide(Some(360)).target == 360
    ensures Decide(Some(480)).downscale == false && Decide(Some(480)).target == 480
    ensures Decide(Some(540)).downscale == false && Decide(Some(540)).target == 540
    ensures Decide(Some(720)).downscale && Decide(Some(720)).target == 480
    ensures Decide(Some(1080)).downscale && Decide(Some(1080)).target == 480
    ensures Decide(Some(1440)).downscale && Decide(Some(1440)).target == 480
    ensures Decide(Some(2160)).downscale && Decide(Some(2160)).target == 480
    ensures Decide(None).downscale && Decide(None).target == 480
  {
  }
}
