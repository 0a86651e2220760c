/**
 * How `src/utils/image_utils.py` talks to a headless browser: the ordered
 * list of executables it tries, the GL backend flag chosen from the machine
 * architecture, the argument list handed to the browser, and the
 * normalisation of the render target.
 *
 * Host queries are parameters: the architecture string that
 * `platform.machine()` reports, and the two filesystem oracles
 * `os.path.exists` and `Path(..).resolve().as_uri()`.
 */
module Chromium {
  import opened Wrappers
  import opened Text

  /** Architectures on which the software GL backend is used. */
  const SwiftshaderArchitectures: set<string> := {"x86_64", "amd64", "i386", "i686"}

  /** The executables tried, in this order. */
  const Executables: seq<string> :=
    ["chromium-browser", "chromium", "google-chrome", "google-chrome-stable", "chromium-headless-shell"]

  /** The one executable that takes the target before its flags. */
  const HeadlessShell: string := "chromium-headless-shell"

  const SwiftshaderFlag: string := "--use-gl=swiftshader"
  const EglFlag: string := "--use-gl=egl"
  const ScreenshotPrefix: string := "--screenshot="
  const WindowSizePrefix: string := "--window-size="

  /** The GL backend flag for the machine architecture `machine`. */
  function GlFlag(machine: string): (flag: string)
    ensures flag == SwiftshaderFlag <==> Lower(machine) in SwiftshaderArchitectures
    ensures flag == EglFlag <==> Lower(machine) !in SwiftshaderArchitectures
  {
    if Lower(machine) in SwiftshaderArchitectures then SwiftshaderFlag else EglFlag
  }

  function ScreenshotFlag(imgPath: string): string {
    ScreenshotPrefix + imgPath
  }

  function WindowSizeFlag(width: int, height: int): string {
    WindowSizePrefix + DecimalString(width) + "," + DecimalString(height)
  }

  /** The fifteen flags every invocation carries, in order. */
  function BaseFlags(imgPath: string, width: int, height: int, machine: string): seq<string> {
    [ "--headless",
      ScreenshotFlag(imgPath),
      WindowSizeFlag(width, height),
      "--disable-dev-shm-usage",
      "--disable-gpu",
      GlFlag(machine),
      "--hide-scrollbars",
      "--in-process-gpu",
      "--js-flags=--jitless",
      "--disable-zero-copy",
      "--disable-gpu-memory-buffer-compositor-resources",
      "--disable-extensions",
      "--disable-plugins",
      "--mute-audio",
      "--no-sandbox" ]
  }

  /**
   * The argument list for one browser run: the executable, then the target
   * and the base flags, the target coming first only for the headless shell.
   */
  function BuildCommand(executable: string, target: string, imgPath: string,
                        dimensions: (int, int), machine: string): (cmd: seq<string>)
    ensures |cmd| == 17 && cmd[0] == executable
    ensures executable == HeadlessShell ==> cmd[1] == target
    ensures executable != HeadlessShell ==> cmd[16] == target
    ensures var flags := if executable == HeadlessShell then cmd[2..] else cmd[1..16];
            flags == BaseFlags(imgPath, dimensions.0, dimensions.1, machine)
  {
    var flags := BaseFlags(imgPath, dimensions.0, dimensions.1, machine);
    var cmd := if executable == HeadlessShell then [executable, target] + flags
               else [executable] + flags + [target];
    cmd
  }

  /** Every invocation asks for the screenshot file, the window size and the GL backend. */
  lemma CommandCarriesFlags(executable: string, target: string, imgPath: string,
                            dimensions: (int, int), machine: string)
    ensures var cmd := BuildCommand(executable, target, imgPath, dimensions, machine);
            ScreenshotFlag(imgPath) in cmd && WindowSizeFlag(dimensions.0, dimensions.1) in cmd
            && GlFlag(machine) in cmd && "--headless" in cmd && "--no-sandbox" in cmd
  {
  }

  /** What a browser reads back out of an argument list built above. */
  datatype Invocation = Invocation(executable: string, target: string, imgPath: string,
                                   width: int, height: int, glFlag: string)

  /** The text after `prefix`, when `s` starts with it. */
  function AfterPrefix(s: string, prefix: string): (r: Option<string>)
    ensures r.Some? <==> StartsWith(s, prefix)
    ensures r.Some? ==> s == prefix + r.value
  {
    if StartsWith(s, prefix) then Some(s[|prefix|..]) else None
  }

  /** Reads `--window-size=<w>,<h>`. */
  function ParseWindowSize(flag: string): Option<(int, int)> {
    match AfterPrefix(flag, WindowSizePrefix)
    case None => None
    case Some(rest) =>
      var k := IndexOf(rest, ',');
      if k == |rest| then None
      else match (ParseDecimal(rest[..k]), ParseDecimal(rest[k + 1..]))
        case (Some(w), Some(h)) => Some((w, h))
        case _ => None
  }

  /**
   * Reads an argument list the way the browser does: the executable decides
   * where the target stands, and the screenshot path, window size and GL
   * backend are read from their flags.
   */
  function ParseCommand(cmd: seq<string>): Option<Invocation> {
    if |cmd| != 17 then None
    else if cmd[0] == HeadlessShell then ReadFlags(cmd[0], cmd[1], cmd[2..])
    else ReadFlags(cmd[0], cmd[16], cmd[1..16])
  }

  function ReadFlags(executable: string, target: string, flags: seq<string>): Option<Invocation>
    requires |flags| == 15
  {
    var path := AfterPrefix(flags[1], ScreenshotPrefix);
    var size := ParseWindowSize(flags[2]);
    if path.Some? && size.Some? then
      Some(Invocation(executable, target, path.value, size.value.0, size.value.1, flags[5]))
    else None
  }

  lemma ScreenshotRoundTrip(imgPath: string)
    ensures AfterPrefix(ScreenshotFlag(imgPath), ScreenshotPrefix) == Some(imgPath)
  {
  }

  lemma WindowSizeRoundTrip(width: int, height: int)
    ensures ParseWindowSize(WindowSizeFlag(width, height)) == Some((width, height))
  {
    var w, h := DecimalString(width), DecimalString(height);
    var flag := WindowSizeFlag(width, height);
    assert flag == WindowSizePrefix + (w + [','] + h);
    assert AfterPrefix(flag, WindowSizePrefix) == Some(w + [','] + h);
    DecimalHasNoComma(width);
    IndexOfJoin(w, ',', h);
    var rest := w + [','] + h;
    assert rest[..|w|] == w && rest[|w| + 1..] == h;
    DecimalRoundTrip(width);
    DecimalRoundTrip(height);
  }

  lemma ReadBaseFlags(executable: string, target: string, imgPath: string,
                      dimensions: (int, int), machine: string)
    ensures ReadFlags(executable, target, BaseFlags(imgPath, dimensions.0, dimensions.1, machine))
            == Some(Invocation(executable, target, imgPath, dimensions.0, dimensions.1, GlFlag(machine)))
  {
    var flags := BaseFlags(imgPath, dimensions.0, dimensions.1, machine);
    assert flags[1] == ScreenshotFlag(imgPath);
    assert flags[2] == WindowSizeFlag(dimensions.0, dimensions.1);
    assert flags[5] == GlFlag(machine);
    ScreenshotRoundTrip(imgPath);
    WindowSizeRoundTrip(dimensions.0, dimensions.1);
  }

  /**
   * The argument list loses nothing: the executable, the target, the output
   * path, both window dimensions and the GL backend can all be read back,
   * whichever executable it was built for.
   */
  lemma CommandRoundTrip(executable: string, target: string, imgPath: string,
                         dimensions: (int, int), machine: string)
    ensures ParseCommand(BuildCommand(executable, target, imgPath, dimensions, machine))
            == Some(Invocation(executable, target, imgPath, dimensions.0, dimensions.1, GlFlag(machine)))
  {
    var flags := BaseFlags(imgPath, dimensions.0, dimensions.1, machine);
    ReadBaseFlags(executable, target, imgPath, dimensions, machine);
    var cmd := BuildCommand(executable, target, imgPath, dimensions, machine);
    assert ParseCommand(cmd) == ReadFlags(executable, target, flags);
  }

  /**
   * Both argument orders carry the same arguments: moving the target to the
   * front for the headless shell changes positions, not contents.
   */
  lemma SameArgumentsEitherOrder(executable: string, target: string, imgPath: string,
                                 dimensions: (int, int), machine: string)
    requires executable != HeadlessShell
    ensures multiset(BuildCommand(HeadlessShell, target, imgPath, dimensions, machine)[1..])
         == multiset(BuildCommand(executable, target, imgPath, dimensions, machine)[1..])
  {
    var flags := BaseFlags(imgPath, dimensions.0, dimensions.1, machine);
    assert BuildCommand(HeadlessShell, target, imgPath, dimensions, machine)[1..] == [target] + flags;
    assert BuildCommand(executable, target, imgPath, dimensions, machine)[1..] == flags + [target];
  }

  // ---------------------------------------------------------------------
  // Target normalisation.
  // ---------------------------------------------------------------------

  /** `target.startswith(("http://", "https://", "file://"))`. */
  predicate HasUrlScheme(target: string) {
    StartsWith(target, "http://") || StartsWith(target, "https://") || StartsWith(target, "file://")
  }

  /**
   * URLs pass through; an existing local path becomes its file URI;
   * anything else passes through unchanged.
   */
  function NormalizeTarget(target: string, pathExists: string -> bool, asUri: string -> string): (r: string)
    ensures r != target ==> !HasUrlScheme(target) && pathExists(target) && r == asUri(target)
    ensures HasUrlScheme(target) ==> r == target
    ensures !HasUrlScheme(target) && pathExists(target) ==> r == asUri(target)
  {
    if HasUrlScheme(target) then target
    else if pathExists(target) then asUri(target)
    else target
  }

  /**
   * `Path.as_uri()` always yields a `file://` URI, so a normalised target is
   * either a URL or a string that names no existing path.
   */
  lemma NormalizedIsUrlOrMissing(target: string, pathExists: string -> bool, asUri: string -> string)
    requires forall p :: StartsWith(asUri(p), "file://")
    ensures var r := NormalizeTarget(target, pathExists, asUri);
            HasUrlScheme(r) || (r == target && !pathExists(target))
  {
  }

  /** Normalising an already normalised target changes nothing. */
  lemma NormalizeIdempotent(target: string, pathExists: string -> bool, asUri: string -> string)
    requires forall p :: StartsWith(asUri(p), "file://")
    ensures var r := NormalizeTarget(target, pathExists, asUri);
            NormalizeTarget(r, pathExists, asUri) == r
  {
  }
}
