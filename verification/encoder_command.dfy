/**
  The argument list handed to the encoder on POSIX systems (handbrakevidz.py lines 266-288).
*/
module EncoderCommand {
  import opened Optional
  import Resolution

  /** Input, output, no user presets, NVEnc H.265, constant quality 22. */
  function CommandHead(handbrake: string, input: string, output: string): seq<string> {
    [handbrake, "-i", input, "-o", output, "--preset-import-file", "none",
     "-e", "nvenc_h265", "-q", "22"]
  }

  /** The height constraint, present only when downscaling. */
  const HeightFlag: seq<string> := ["--height", "480"]

  /** Aspect, web optimisation, all audio and subtitle tracks, timestamps, language,
      no anamorphic. */
  const CommonFlags: seq<string> := [
    "--keep-display-aspect", "-O", "--all-audio", "--all-subtitles",
    "--copy-timestamps", "--native-language", "eng", "--non-anamorphic"
  ]

  /** `--height 480` occurs as two adjacent arguments. */
  predicate HasHeightLimit(cmd: seq<string>) {
    exists i | 0 <= i < |cmd| - 1 :: cmd[i] == "--height" && cmd[i + 1] == "480"
  }

  /** The command of `compress_video`. */
  function BuildCommand(handbrake: string, input: string, output: string, downscale: bool): (cmd: seq<string>)
    ensures |cmd| == if downscale then 21 else 19
    ensures cmd[..11] == CommandHead(handbrake, input, output)
    ensures cmd[0] == handbrake && cmd[2] == input && cmd[4] == output
    ensures cmd[|cmd| - 8..] == CommonFlags
    ensures downscale ==> cmd[11..13] == HeightFlag
  {
    CommandHead(handbrake, input, output) + (if downscale then HeightFlag else []) + CommonFlags
  }

  /** Whatever the executable and the paths are, the command carries `--height 480`
      exactly when downscaling. */
  lemma HeightLimitIffDownscale(handbrake: string, input: string, output: string, downscale: bool)
    ensures HasHeightLimit(BuildCommand(handbrake, input, output, downscale)) <==> downscale
  {
    var cmd := BuildCommand(handbrake, input, output, downscale);
    if downscale {
      assert cmd[11] == "--height" && cmd[12] == "480";
    } else {
      forall i | 0 <= i < |cmd| - 1
        ensures !(cmd[i] == "--height" && cmd[i + 1] == "480")
      {
        if i < 10 {
          assert cmd[i + 1] == CommandHead(handbrake, input, output)[i + 1];
        }
      }
    }
  }

  /** The example commands printed by test_resolution_logic.py: 360 and 480 line sources
      get no height flag, 720 and 1080 line sources get `--height 480`. */
  lemma ExampleCommands(handbrake: string, input: string, output: string)
    ensures !HasHeightLimit(BuildCommand(handbrake, input, output, Resolution.ShouldDownscale(Some(360))))
    ensures !HasHeightLimit(BuildCommand(handbrake, input, output, Resolution.ShouldDownscale(Some(480))))
    ensures HasHeightLimit(BuildCommand(handbrake, input, output, Resolution.ShouldDownscale(Some(720))))
    ensures HasHeightLimit(BuildCommand(handbrake, input, output, Resolution.ShouldDownscale(Some(1080))))
  {
    HeightLimitIffDownscale(handbrake, input, output, false);
    HeightLimitIffDownscale(handbrake, input, output, true);
  }
}
