/**
 * The executable fallback loop of `take_screenshot`: walk the candidate
 * browsers in order, skip those not on PATH, run the others one after the
 * other until a run exits 0 and leaves the output file, and collect an error
 * for every failed run except the illegal-instruction exit (code 132).
 *
 * What the host does is an input: for each candidate, one `Attempt` says
 * whether `shutil.which` found it and, if so, how `subprocess.run` ended.
 */
module Screenshot {
  import opened Wrappers
  import opened Text
  import Chromium

  /** How looking up and (if found) running one candidate executable ends. */
  datatype Attempt =
    | NotOnPath                       // `shutil.which` found nothing
    | TimedOut                        // `subprocess.TimeoutExpired`
    | LaunchFailed(reason: string)    // any other exception, as `str(exc)`
    | Exited(code: int, fileExists: bool, stderr: string)
                                      // the exit code, whether the output file
                                      // exists afterwards, and stderr decoded

  /** One entry of the `errors` list, before it is rendered as text. */
  datatype Failure =
    | TimeoutFailure(executable: string, timeoutMs: int)
    | LaunchFailure(executable: string, reason: string)
    | ExitFailure(executable: string, code: int, stderr: string)

  /** Everything about one render that stays fixed across candidates. */
  datatype RenderRequest = RenderRequest(target: string, imgPath: string, dimensions: (int, int),
                                         machine: string, timeoutMs: Option<int>)

  /**
   * The exit status 128 + 4 that a shell reports for a child killed by
   * SIGILL (signal 4). A browser killed by the signal directly is reported
   * by `subprocess` as -4 instead, which the source does not pass over.
   */
  const IllegalInstruction: int := 132

  predicate Succeeded(a: Attempt) {
    a.Exited? && a.code == 0 && a.fileExists
  }

  /** The attempts that add nothing to `errors`. */
  predicate Silent(a: Attempt) {
    a.NotOnPath? || (a.Exited? && (Succeeded(a) || a.code == IllegalInstruction))
  }

  /** A timeout is passed to `subprocess.run` only when `timeout_ms` is truthy. */
  function EffectiveTimeout(timeoutMs: Option<int>): (t: Option<int>)
    ensures t.Some? <==> timeoutMs.Some? && timeoutMs.value != 0
    ensures t.Some? ==> t == timeoutMs
  {
    if timeoutMs.Some? && timeoutMs.value != 0 then timeoutMs else None
  }

  /** A run can only time out when a timeout was passed to it. */
  predicate TimeoutsPossible(timeoutMs: Option<int>, outcomes: seq<Attempt>) {
    EffectiveTimeout(timeoutMs).None? ==> forall j :: 0 <= j < |outcomes| ==> !outcomes[j].TimedOut?
  }

  /** What one attempt adds to `errors`: nothing, or exactly one entry naming the executable. */
  function FailureOf(executable: string, attempt: Attempt, timeoutMs: Option<int>): (f: seq<Failure>)
    requires attempt.TimedOut? ==> EffectiveTimeout(timeoutMs).Some?
    ensures |f| <= 1
    ensures f == [] <==> Silent(attempt)
    ensures |f| == 1 ==> f[0].executable == executable
  {
    match attempt
    case NotOnPath => []
    case TimedOut => [TimeoutFailure(executable, EffectiveTimeout(timeoutMs).value)]
    case LaunchFailed(reason) => [LaunchFailure(executable, reason)]
    case Exited(code, fileExists, stderr) =>
      if code == 0 && fileExists then []
      else if code == IllegalInstruction then []
      else [ExitFailure(executable, code, stderr)]
  }

  /** The `errors` list after the given candidates have been tried. */
  function Failures(candidates: seq<string>, outcomes: seq<Attempt>, timeoutMs: Option<int>): seq<Failure>
    requires |candidates| == |outcomes| && TimeoutsPossible(timeoutMs, outcomes)
    decreases |outcomes|
  {
    if outcomes == [] then []
    else
      var n := |outcomes| - 1;
      Failures(candidates[..n], outcomes[..n], timeoutMs) + FailureOf(candidates[n], outcomes[n], timeoutMs)
  }

  /** The argument lists handed to `subprocess.run` while the given candidates were tried. */
  function Launched(candidates: seq<string>, outcomes: seq<Attempt>, req: RenderRequest): seq<seq<string>>
    requires |candidates| == |outcomes|
    decreases |outcomes|
  {
    if outcomes == [] then []
    else
      var n := |outcomes| - 1;
      Launched(candidates[..n], outcomes[..n], req)
      + if outcomes[n].NotOnPath? then []
        else [Chromium.BuildCommand(candidates[n], req.target, req.imgPath, req.dimensions, req.machine)]
  }

  /** The index of the first attempt that succeeded, if any. */
  function FirstSuccess(outcomes: seq<Attempt>): (k: Option<nat>)
    ensures k.None? <==> NoneSucceeded(outcomes)
    ensures k.Some? ==> k.value < |outcomes| && Succeeded(outcomes[k.value])
                        && forall j :: 0 <= j < k.value ==> !Succeeded(outcomes[j])
  {
    if outcomes == [] then None
    else if Succeeded(outcomes[0]) then Some(0)
    else match FirstSuccess(outcomes[1..])
      case None => None
      case Some(k) => Some(k + 1)
  }

  /** No attempt exited 0 with the output file present. */
  predicate NoneSucceeded(outcomes: seq<Attempt>) {
    forall j :: 0 <= j < |outcomes| ==> !Succeeded(outcomes[j])
  }

  /** How many candidates are looked at: up to the first success, or all of them. */
  function Stop(outcomes: seq<Attempt>): (n: nat)
    ensures n <= |outcomes|
  {
    match FirstSuccess(outcomes)
    case Some(k) => k + 1
    case None => |outcomes|
  }

  /** Extending the tried prefix by one attempt: either it is the first success, or none so far is. */
  lemma SuccessStep(outcomes: seq<Attempt>, i: nat)
    requires i < |outcomes| && NoneSucceeded(outcomes[..i])
    ensures !Succeeded(outcomes[i]) ==> NoneSucceeded(outcomes[..i + 1])
    ensures Succeeded(outcomes[i]) ==> FirstSuccess(outcomes) == Some(i) && Stop(outcomes) == i + 1
  {
    assert forall j :: 0 <= j < i ==> outcomes[..i][j] == outcomes[j];
  }

  lemma FailuresStep(candidates: seq<string>, outcomes: seq<Attempt>, timeoutMs: Option<int>, i: nat)
    requires |candidates| == |outcomes| && TimeoutsPossible(timeoutMs, outcomes) && i < |outcomes|
    ensures Failures(candidates[..i + 1], outcomes[..i + 1], timeoutMs)
            == Failures(candidates[..i], outcomes[..i], timeoutMs) + FailureOf(candidates[i], outcomes[i], timeoutMs)
  {
    assert candidates[..i + 1][..i] == candidates[..i] && outcomes[..i + 1][..i] == outcomes[..i];
  }

  lemma LaunchedStep(candidates: seq<string>, outcomes: seq<Attempt>, req: RenderRequest, i: nat)
    requires |candidates| == |outcomes| && i < |outcomes|
    ensures Launched(candidates[..i + 1], outcomes[..i + 1], req)
            == Launched(candidates[..i], outcomes[..i], req)
               + if outcomes[i].NotOnPath? then []
                 else [Chromium.BuildCommand(candidates[i], req.target, req.imgPath, req.dimensions, req.machine)]
  {
    assert candidates[..i + 1][..i] == candidates[..i] && outcomes[..i + 1][..i] == outcomes[..i];
  }

  /**
   * The loop of `take_screenshot`. `taken` is `screenshot_taken`, `errors`
   * the error list, `launched` the argument lists passed to `subprocess.run`.
   * The loop stops after the first success, so only the attempts before
   * `Stop(outcomes)` leave any trace.
   */
  method TryCandidates(candidates: seq<string>, outcomes: seq<Attempt>, req: RenderRequest)
    returns (taken: bool, errors: seq<Failure>, launched: seq<seq<string>>)
    requires |candidates| == |outcomes| && TimeoutsPossible(req.timeoutMs, outcomes)
    ensures taken <==> !NoneSucceeded(outcomes)
    ensures taken ==> Succeeded(outcomes[Stop(outcomes) - 1])
    ensures errors == Failures(candidates[..Stop(outcomes)], outcomes[..Stop(outcomes)], req.timeoutMs)
    ensures launched == Launched(candidates[..Stop(outcomes)], outcomes[..Stop(outcomes)], req)
  {
    errors := [];
    launched := [];
    taken := false;
    for i := 0 to |candidates|
      invariant !taken
      invariant NoneSucceeded(outcomes[..i])
      invariant errors == Failures(candidates[..i], outcomes[..i], req.timeoutMs)
      invariant launched == Launched(candidates[..i], outcomes[..i], req)
    {
      var executable := candidates[i];
      var attempt := outcomes[i];
      FailuresStep(candidates, outcomes, req.timeoutMs, i);
      LaunchedStep(candidates, outcomes, req, i);
      SuccessStep(outcomes, i);
      if attempt.NotOnPath? {
        continue;
      }
      var command := Chromium.BuildCommand(executable, req.target, req.imgPath, req.dimensions, req.machine);
      launched := launched + [command];
      match attempt {
        case TimedOut =>
          errors := errors + [TimeoutFailure(executable, EffectiveTimeout(req.timeoutMs).value)];
          continue;
        case LaunchFailed(reason) =>
          errors := errors + [LaunchFailure(executable, reason)];
          continue;
        case Exited(code, fileExists, stderr) =>
          if code == 0 && fileExists {
            taken := true;
            break;
          }
          if code == IllegalInstruction {
            continue;
          }
          errors := errors + [ExitFailure(executable, code, stderr)];
      }
    }
    if !taken {
      assert candidates[..|candidates|] == candidates && outcomes[..|outcomes|] == outcomes;
    }
  }

  // ---------------------------------------------------------------------
  // What the loop's trace says.
  // ---------------------------------------------------------------------

  /** The candidates found on PATH, in the order they are tried. */
  function Present(candidates: seq<string>, outcomes: seq<Attempt>): seq<string>
    requires |candidates| == |outcomes|
    decreases |outcomes|
  {
    if outcomes == [] then []
    else
      var n := |outcomes| - 1;
      Present(candidates[..n], outcomes[..n]) + if outcomes[n].NotOnPath? then [] else [candidates[n]]
  }

  /**
   * Exactly the candidates on PATH are launched, one command each, in list
   * order; each command starts with its executable and carries the target.
   */
  lemma {:induction false} LaunchedFollowsPresent(candidates: seq<string>, outcomes: seq<Attempt>, req: RenderRequest)
    requires |candidates| == |outcomes|
    ensures var launched := Launched(candidates, outcomes, req);
            var present := Present(candidates, outcomes);
            |launched| == |present|
            && forall k :: 0 <= k < |launched| ==>
                 launched[k] == Chromium.BuildCommand(present[k], req.target, req.imgPath, req.dimensions, req.machine)
    decreases |outcomes|
  {
    if outcomes != [] {
      var n := |outcomes| - 1;
      LaunchedFollowsPresent(candidates[..n], outcomes[..n], req);
    }
  }

  /** Every attempt was silent. */
  predicate AllSilent(outcomes: seq<Attempt>) {
    forall j :: 0 <= j < |outcomes| ==> Silent(outcomes[j])
  }

  /** No error is recorded exactly when every attempt was silent: absent, exit 132, or the success. */
  lemma {:induction false} FailuresEmptyIff(candidates: seq<string>, outcomes: seq<Attempt>, timeoutMs: Option<int>)
    requires |candidates| == |outcomes| && TimeoutsPossible(timeoutMs, outcomes)
    ensures Failures(candidates, outcomes, timeoutMs) == [] <==> AllSilent(outcomes)
    decreases |outcomes|
  {
    if outcomes != [] {
      var n := |outcomes| - 1;
      var init := outcomes[..n];
      FailuresEmptyIff(candidates[..n], init, timeoutMs);
      var last := FailureOf(candidates[n], outcomes[n], timeoutMs);
      assert Failures(candidates, outcomes, timeoutMs) == Failures(candidates[..n], init, timeoutMs) + last;
      assert outcomes == init + [outcomes[n]];
      assert AllSilent(outcomes) <==> AllSilent(init) && Silent(outcomes[n]);
    }
  }

  /** Every recorded error belongs to a launched candidate, at most one per launch. */
  lemma {:induction false} FailuresAtMostLaunched(candidates: seq<string>, outcomes: seq<Attempt>, req: RenderRequest)
    requires |candidates| == |outcomes| && TimeoutsPossible(req.timeoutMs, outcomes)
    ensures |Failures(candidates, outcomes, req.timeoutMs)| <= |Launched(candidates, outcomes, req)|
    ensures forall k :: 0 <= k < |Failures(candidates, outcomes, req.timeoutMs)| ==>
              Failures(candidates, outcomes, req.timeoutMs)[k].executable in candidates
    decreases |outcomes|
  {
    if outcomes != [] {
      var n := |outcomes| - 1;
      FailuresAtMostLaunched(candidates[..n], outcomes[..n], req);
      var f := Failures(candidates, outcomes, req.timeoutMs);
      var g := Failures(candidates[..n], outcomes[..n], req.timeoutMs);
      assert f == g + FailureOf(candidates[n], outcomes[n], req.timeoutMs);
      forall k | 0 <= k < |f|
        ensures f[k].executable in candidates
      {
        if k < |g| {
          assert g[k].executable in candidates[..n];
        } else {
          assert f[k].executable == candidates[n];
        }
      }
    }
  }

  // ---------------------------------------------------------------------
  // The error messages and the outcome of `take_screenshot`.
  // ---------------------------------------------------------------------

  /** Up to three fraction digits of `f / 1000` with trailing zeros dropped, but at least one digit. */
  function FractionText(f: nat): (s: string)
    requires f < 1000
    ensures 1 <= |s| <= 3 && AllDigits(s)
    ensures |s| > 1 ==> s[|s| - 1] != '0'
    ensures f == (if |s| == 1 then DigitsValue(s) * 100 else if |s| == 2 then DigitsValue(s) * 10 else DigitsValue(s))
  {
    var hundreds, tens, units := f / 100, f / 10 % 10, f % 10;
    ShortDigitsValue(hundreds, tens, units);
    if tens == 0 && units == 0 then [DigitChar(hundreds)]
    else if units == 0 then [DigitChar(hundreds), DigitChar(tens)]
    else [DigitChar(hundreds), DigitChar(tens), DigitChar(units)]
  }

  /** How Python prints `ms / 1000.0` for an integer `ms`: shortest decimal, at least one fraction digit. */
  function SecondsText(ms: int): string {
    var a := if ms < 0 then -ms else ms;
    (if ms < 0 then "-" else "") + NatDigits(a / 1000) + "." + FractionText(a % 1000)
  }

  /** Reads unsigned seconds back into milliseconds: whole seconds, a point, one to three fraction digits. */
  function ParseMagnitude(body: string): Option<nat> {
    var point := IndexOf(body, '.');
    if point == |body| then None
    else
      var whole, fraction := body[..point], body[point + 1..];
      if whole == [] || !AllDigits(whole) || !(1 <= |fraction| <= 3) || !AllDigits(fraction) then None
      else
        var f := if |fraction| == 1 then DigitsValue(fraction) * 100
                 else if |fraction| == 2 then DigitsValue(fraction) * 10
                 else DigitsValue(fraction);
        Some(DigitsValue(whole) * 1000 + f)
  }

  /** Reads a rendering of seconds back into milliseconds, with an optional leading minus sign. */
  function ParseSeconds(s: string): Option<int> {
    if |s| > 0 && s[0] == '-' then
      match ParseMagnitude(s[1..])
      case Some(m) => Some(-(m as int))
      case None => None
    else
      match ParseMagnitude(s)
      case Some(m) => Some(m)
      case None => None
  }

  /** The unsigned part of `SecondsText` reads back to the magnitude it renders. */
  lemma MagnitudeRoundTrip(a: nat)
    ensures ParseMagnitude(NatDigits(a / 1000) + ['.'] + FractionText(a % 1000)) == Some(a)
  {
    var whole, fraction := NatDigits(a / 1000), FractionText(a % 1000);
    var body := whole + ['.'] + fraction;
    assert forall i :: 0 <= i < |whole| ==> IsDigit(whole[i]);
    IndexOfJoin(whole, '.', fraction);
    assert body[..|whole|] == whole && body[|whole| + 1..] == fraction;
    NatDigitsValue(a / 1000);
  }

  /** A sign in front of an unsigned rendering is read back as the sign of the result. */
  lemma SignRoundTrip(negative: bool, body: string, a: nat)
    requires ParseMagnitude(body) == Some(a) && body[0] != '-'
    ensures var s := (if negative then "-" else "") + body; |s| > 0 && (s[0] == '-' <==> negative)
    ensures ParseSeconds((if negative then "-" else "") + body) == Some(if negative then -(a as int) else a as int)
  {
    var s := (if negative then "-" else "") + body;
    if negative {
      assert s[1..] == body;
    } else {
      assert s == body;
    }
  }

  /**
   * The seconds in a timeout message carry the timeout exactly: the text
   * starts with a minus sign just when the milliseconds are negative, and
   * reading it back yields the milliseconds.
   */
  lemma SecondsTextRoundTrip(ms: int)
    ensures var s := SecondsText(ms); |s| > 0 && (s[0] == '-' <==> ms < 0)
    ensures ParseSeconds(SecondsText(ms)) == Some(ms)
  {
    var a := if ms < 0 then -ms else ms;
    var whole := NatDigits(a / 1000);
    var body := whole + ['.'] + FractionText(a % 1000);
    assert SecondsText(ms) == (if ms < 0 then "-" else "") + body;
    MagnitudeRoundTrip(a);
    assert body[0] == whole[0] && IsDigit(whole[0]);
    SignRoundTrip(ms < 0, body, a);
  }

  /** A few renderings, as Python prints the float of seconds. */
  lemma SecondsTextExamples()
    ensures SecondsText(5000) == "5.0"
    ensures SecondsText(1500) == "1.5"
    ensures SecondsText(250) == "0.25"
    ensures SecondsText(30001) == "30.001"
    ensures SecondsText(-2000) == "-2.0"
  {
    assert NatDigits(30) == "30";
  }

  /** The text appended to `errors` for one failure. */
  function Message(f: Failure): (m: string)
    ensures StartsWith(m, f.executable)
  {
    match f
    case TimeoutFailure(executable, ms) => executable + " timed out after " + SecondsText(ms) + " seconds"
    case LaunchFailure(executable, reason) => executable + " failed: " + reason
    case ExitFailure(executable, code, stderr) =>
      executable + " exited with code " + DecimalString(code) + ": " + Strip(stderr)
  }

  function Messages(fs: seq<Failure>): (ms: seq<string>)
    ensures |ms| == |fs| && forall k :: 0 <= k < |fs| ==> ms[k] == Message(fs[k])
  {
    if fs == [] then [] else [Message(fs[0])] + Messages(fs[1..])
  }

  /**
   * Which summary `take_screenshot` logs: none after a capture, "No chromium
   * executable found", the error list, or the exception raised while reading
   * the output image back.
   */
  datatype Summary = Captured | NoExecutableFound | FailedWith(errors: seq<string>) | LoadFailed

  /**
   * `take_screenshot` for the fixed executable list. `outcomes[j]` says what
   * happens to `Executables[j]`; `loaded` is the image read back from the
   * output file, `None` when reading it raises. `launched` lists the
   * argument lists passed to `subprocess.run`, in order.
   */
  method TakeScreenshot<B>(target: string, dimensions: (int, int), timeoutMs: Option<int>,
                           machine: string, imgPath: string,
                           pathExists: string -> bool, asUri: string -> string,
                           outcomes: seq<Attempt>, loaded: Option<B>)
    returns (image: Option<B>, summary: Summary, launched: seq<seq<string>>)
    requires |outcomes| == |Chromium.Executables| && TimeoutsPossible(timeoutMs, outcomes)
    ensures var req := RenderRequest(Chromium.NormalizeTarget(target, pathExists, asUri), imgPath, dimensions,
                                     machine, timeoutMs);
            launched == Launched(Chromium.Executables[..Stop(outcomes)], outcomes[..Stop(outcomes)], req)
    ensures !NoneSucceeded(outcomes) ==>
              image == loaded && (summary == Captured <==> loaded.Some?) && (loaded.None? ==> summary == LoadFailed)
    ensures NoneSucceeded(outcomes) ==>
              var errors := Failures(Chromium.Executables, outcomes, timeoutMs);
              image == None
              && (summary == NoExecutableFound <==> AllSilent(outcomes))
              && (summary != NoExecutableFound ==> summary == FailedWith(Messages(errors)))
  {
    var req := RenderRequest(Chromium.NormalizeTarget(target, pathExists, asUri), imgPath, dimensions,
                             machine, timeoutMs);
    var taken, errors;
    taken, errors, launched := TryCandidates(Chromium.Executables, outcomes, req);
    if !taken {
      assert Stop(outcomes) == |outcomes|;
      assert Chromium.Executables[..|outcomes|] == Chromium.Executables && outcomes[..|outcomes|] == outcomes;
      assert errors == Failures(Chromium.Executables, outcomes, timeoutMs);
      FailuresEmptyIff(Chromium.Executables, outcomes, timeoutMs);
      if errors == [] {
        summary := NoExecutableFound;
      } else {
        summary := FailedWith(Messages(errors));
      }
      return None, summary, launched;
    }
    image := loaded;
    summary := if loaded.Some? then Captured else LoadFailed;
  }

  /**
   * When every executable on PATH dies with an illegal instruction, nothing
   * is captured and the summary is the one for "no executable found".
   */
  lemma IllegalInstructionEverywhere(outcomes: seq<Attempt>, timeoutMs: Option<int>)
    requires |outcomes| == |Chromium.Executables|
    requires forall j :: 0 <= j < |outcomes| ==>
               outcomes[j].NotOnPath? || (outcomes[j].Exited? && outcomes[j].code == IllegalInstruction)
    ensures TimeoutsPossible(timeoutMs, outcomes)
    ensures NoneSucceeded(outcomes) && Failures(Chromium.Executables, outcomes, timeoutMs) == []
  {
    FailuresEmptyIff(Chromium.Executables, outcomes, timeoutMs);
  }

  /** A clean exit that leaves no output file is recorded as a failure like any other exit code. */
  lemma CleanExitWithoutFileIsAnError(executable: string, stderr: string, timeoutMs: Option<int>)
    ensures FailureOf(executable, Exited(0, false, stderr), timeoutMs) == [ExitFailure(executable, 0, stderr)]
    ensures Message(ExitFailure(executable, 0, stderr)) == executable + " exited with code 0: " + Strip(stderr)
  {
    assert DecimalString(0) == "0";
  }
}
