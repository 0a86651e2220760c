# Image utilities: a Dafny model of the decision logic

`src/utils/image_utils.py` fetches images, rotates and crops them for a
display, and renders web pages to bitmaps by running a headless Chromium.
Almost all of it delegates to an image library, an HTTP client or a
subprocess. This project models the deterministic decisions taken around
those calls and proves what they guarantee:

- **Screenshot fallback** (`Screenshot`): the loop of `take_screenshot` over
  the ordered executable list. It skips executables not on PATH and stops at
  the first run that exits 0 and leaves the output file. An exit with code
  132 (the status a shell reports for a child killed by SIGILL) is passed
  over silently; a browser killed by SIGILL itself exits with -4 and is
  recorded as an error like any other code. Every other failure adds
  exactly one error. It is a method with a `for` loop, `continue` and
  `break`, proved against recursive specification functions. What the host
  does for each candidate is an input: a sequence of `Attempt` values (not on
  PATH, timed out, launch exception, or exit code with output-file existence
  and stderr).
- **Command builder** (`Chromium`): the 17-element argument list, the
  per-executable target position, and the GL backend chosen from the
  architecture string. A parser reads the list back, and a round-trip lemma
  shows that nothing is lost.
- **Target normalisation** (`Chromium.NormalizeTarget`). `os.path.exists`
  and `Path(..).resolve().as_uri()` are function parameters.
- **Rotation angle** and **crop box** (`Geometry`): exact integer versions of
  the arithmetic in `change_orientation` and `resize_image`.
- **HTTP status acceptance** (`Fetch`): the test in `get_image`.
- `Text` holds the Python string behaviour these rely on: `startswith`,
  `lower`, `str(int)`, and `strip()`.

Two behaviours of the code worth stating on their own:

- `keep-width` suppresses centring in both crop branches (lines 101 and 106).
- "Failed to take screenshot: No chromium executable found" is logged
  whenever `errors` is empty, including when every executable on PATH exited
  with 132 (lines 197-207).

The output file is created empty by `NamedTemporaryFile(delete=False)` before
the loop runs (lines 162-163). So `os.path.exists` after an exit code of 0
holds unless the browser removed the file. The model keeps that existence test
as an input (`Exited.fileExists`), as the code writes it. A run that exits 0
without writing a screenshot therefore ends the loop, no later candidate is
tried, and the failure only shows when the image is read back (lines
213-219), which the model reports as `LoadFailed`.

## Model

| member | source | states |
|---|---|---|
| `Chromium.GlFlag` | src/utils/image_utils.py:25-29 | the flag is `--use-gl=swiftshader` exactly when the lower-cased architecture is one of x86_64, amd64, i386, i686, and `--use-gl=egl` exactly otherwise |
| `Chromium.BuildCommand` | src/utils/image_utils.py:40-62 | 17 arguments, the executable first; the target is second for `chromium-headless-shell` and last for every other executable; the remaining 15 are the base flags in order |
| `Chromium.CommandCarriesFlags` | src/utils/image_utils.py:42-58 | every command contains `--screenshot=<path>`, `--window-size=<w>,<h>`, the GL flag, `--headless` and `--no-sandbox` |
| `Chromium.CommandRoundTrip` | src/utils/image_utils.py:40-62 | reading a built command back recovers the executable, target, output path, both window dimensions and the GL flag |
| `Chromium.WindowSizeRoundTrip` | src/utils/image_utils.py:45 | `--window-size=<w>,<h>` parses back to exactly `(w, h)`, negative values included |
| `Chromium.SameArgumentsEitherOrder` | src/utils/image_utils.py:60-62 | for any executable other than `chromium-headless-shell`, its command and the headless shell's carry the same multiset of arguments after the executable |
| `Chromium.NormalizeTarget` | src/utils/image_utils.py:32-37 | URLs with http, https or file schemes are unchanged; otherwise an existing path becomes its URI; the result differs from the input only in that case |
| `Chromium.NormalizedIsUrlOrMissing` | src/utils/image_utils.py:32-37 | since `as_uri` yields `file://` URIs, a normalised target is a URL or an unchanged string naming no existing path |
| `Chromium.NormalizeIdempotent` | src/utils/image_utils.py:32-37 | normalising a normalised target changes nothing |
| `Fetch.GetImage` | src/utils/image_utils.py:64-71 | the body is decoded exactly when 200 <= status < 300 or status == 304; otherwise the result is absent |
| `Fetch.StatusBoundaries` | src/utils/image_utils.py:67 | 200, 299 and 304 are accepted; 199, 300, 303, 305 and 404 are not |
| `Geometry.RotationAngle` | src/utils/image_utils.py:73-80 | an angle exists exactly for "horizontal" and "vertical"; it is one of 0, 90, 180, 270; it is at least 180 exactly when inverted; it is a multiple of 180 exactly for "horizontal" |
| `Geometry.RotationAngleInjective` | src/utils/image_utils.py:73-80 | distinct accepted (orientation, inverted) pairs rotate by distinct angles |
| `Geometry.RotationAngleExamples` | src/utils/image_utils.py:73-80 | horizontal 0, vertical 90, horizontal inverted 180, vertical inverted 270; an unknown tag has no angle |
| `Geometry.CropFor` | src/utils/image_utils.py:94-107 | the box lies inside the source; a source wider than the target ratio keeps its height and its kept width is the largest not exceeding the target ratio, otherwise the same for height; with keep-width both offsets are 0, without it the two margins on each axis differ by at most one |
| `Geometry.SameRatioKeepsWholeImage` | src/utils/image_utils.py:98-107 | under exact arithmetic, a source that already has the target ratio is not cropped |
| `Geometry.ResizeImage` | src/utils/image_utils.py:84-113 | the output size is exactly the desired size; the crop is the crop box for the `keep-width` setting looked up in the settings, so it lies in the source, keeps one full dimension, and is anchored at the origin when `keep-width` is among the settings |
| `Screenshot.EffectiveTimeout` | src/utils/image_utils.py:166-177 | a timeout is passed to the subprocess exactly when `timeout_ms` is given and non-zero |
| `Screenshot.FailureOf` | src/utils/image_utils.py:179-203 | an attempt adds at most one error, naming its executable; it adds none exactly when the executable is absent, succeeded or exited with 132 |
| `Screenshot.FirstSuccess` | src/utils/image_utils.py:192-194 | the index of the first attempt that exited 0 with the output file present, and none exactly when no attempt did |
| `Screenshot.TryCandidates` | src/utils/image_utils.py:168-203 | `screenshot_taken` holds exactly when some attempt succeeds; the errors and the launched commands are those of the attempts up to and including the first success, so no later candidate runs |
| `Screenshot.LaunchedFollowsPresent` | src/utils/image_utils.py:170-174 | exactly the candidates on PATH are launched, in list order, each with its own command |
| `Screenshot.FailuresEmptyIff` | src/utils/image_utils.py:181-203 | the error list is empty exactly when every attempt was absent, exited 132 or succeeded |
| `Screenshot.FailuresAtMostLaunched` | src/utils/image_utils.py:181-203 | there are no more errors than launched commands, and each error names a candidate |
| `Screenshot.FractionText` | src/utils/image_utils.py:182 | the fraction digits of the timeout in seconds have no trailing zero beyond the first digit and denote the milliseconds exactly |
| `Screenshot.SecondsTextRoundTrip` | src/utils/image_utils.py:166-182 | the seconds printed in a timeout message start with a minus sign exactly when the timeout is negative, and read back as whole seconds, a point and the fraction digits they yield exactly the timeout in milliseconds |
| `Screenshot.SecondsTextExamples` | src/utils/image_utils.py:166 | 5000 ms prints as 5.0, 1500 as 1.5, 250 as 0.25, 30001 as 30.001, -2000 as -2.0 |
| `Screenshot.Message` | src/utils/image_utils.py:182-201 | every error message starts with the executable's name |
| `Screenshot.Messages` | src/utils/image_utils.py:208-211 | the rendered error list has one message per error, in order |
| `Screenshot.TakeScreenshot` | src/utils/image_utils.py:157-224 | the commands run are those of the candidates on PATH up to the first success, each built with the normalised target; after a success the result is the image read back, and the summary is the capture exactly when reading succeeded and the read failure otherwise; without a success the result is absent, and the summary is "no executable found" exactly when every attempt was silent, and the error list otherwise |
| `Screenshot.IllegalInstructionEverywhere` | src/utils/image_utils.py:196-207 | when every executable on PATH exits with 132, nothing succeeds and no error is recorded |
| `Screenshot.CleanExitWithoutFileIsAnError` | src/utils/image_utils.py:192-202 | exit code 0 without the output file records an exit-code error with the stripped stderr |
| `Text.Lower` | src/utils/image_utils.py:26 | same length; every ASCII upper-case letter is lowered and every other character is kept |
| `Text.DecimalRoundTrip` | src/utils/image_utils.py:45 | the decimal text of an integer parses back to the integer |
| `Text.Strip` | src/utils/image_utils.py:201 | the result is a middle slice of the input that neither starts nor ends with whitespace, and everything cut away is whitespace |
| `Text.StripIdempotent` | src/utils/image_utils.py:201 | stripping twice equals stripping once |

## Left out

- Pixel work of the image library: rotating, cropping, Lanczos resizing,
  the enhancement stages, box blur, fit/contain, pasting and decoding. These
  act on opaque bitmaps. So `apply_image_enhancement` and `pad_image_blur`
  are not modelled at all.
- `compute_image_hash`: SHA-256 over raw pixel bytes is foreign code; only a
  None check would remain.
- The HTTP request in `get_image`: only the status decision is modelled.
  Decoding is a function parameter, and the exceptions it can raise are not
  modelled.
- `take_screenshot_html`, the temporary files, and the cleanup in the
  `finally` block. Creating, writing and removing temporary files are not
  modelled. The output path is a parameter.
- `shutil.which` and `subprocess.run` are inputs (`Attempt`). So are decoding
  stderr with replacement characters and the text of a launch exception.
- The outer exception handler of `take_screenshot` is modelled only for a
  failure to read the output image (`loaded` is `None`, summary `LoadFailed`).
  The text of that exception is not carried, and other exceptions in that
  block are not modelled.
- Logging. Only the summary branch and the text of the error list are
  modelled. The per-attempt log lines are not.
- `Geometry.CropFor`: uses exact integer ratios and floor division. The
  source compares and divides Python floats and truncates with `int()`. At or
  near a ratio tie, or when a float product or quotient rounds across an
  integer, the source's kept width or height can differ by one from the
  model's.
- `Geometry.SameRatioKeepsWholeImage`: holds under exact arithmetic only. At
  an exact tie the float ratios compare equal, so line 105 runs, and
  `int(img_width / desired_ratio)` can fall one short: a 1440x1020 source
  resized to 960x680 keeps 1019 of its 1020 rows.
- `Geometry.ResizeImage`: assumes integer dimensions. The `int(...)`
  conversion of non-integer desired sizes is not modelled.
- `Text.Lower`: lowers ASCII letters only. Python's `str.lower` also lowers
  other Unicode letters, which never occur in machine architecture names.
- `Screenshot.Message`: renders the timeout in seconds exactly for integer
  milliseconds. For a float `timeout_ms`, or a magnitude of 10^15 or more,
  Python's float printing is not modelled.
