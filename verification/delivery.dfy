/**
 Text delivery (`is_wayland`, `copy_to_clipboard`, `type_text`): copy the
 transcript to the clipboard, then try to paste or type it with the first
 injection tool that works, and finally print one advisory if none did.

 The environment is a map of variables, the PATH lookup of `shutil.which` is
 a map from tool name to resolved path, and running a command is an oracle
 that says whether it exited with status 0, exited otherwise, or timed out.
 */
module Delivery {
  import opened Wrappers
  import opened Whitespace

  /** The external mechanisms, in the order they are tried. */
  datatype Mechanism = WlCopy | Xclip | WtypePaste | WtypeType | Xdotool | Ydotool

  datatype Command = Command(mechanism: Mechanism, argv: seq<string>, stdin: Option<string>, timeout: nat)

  datatype Outcome = Succeeded | NonZeroExit | TimedOut

  datatype Attempt = Attempt(cmd: Command, outcome: Outcome)

  /** The closing message printed when no injection succeeded. */
  datatype Advisory = PasteManually | InstallTools

  /** Everything `type_text` does: the commands run, in order, and the
      advisory it prints, if any. */
  datatype Delivery = Delivery(attempts: seq<Attempt>, advisory: Option<Advisory>)

  /** The result of a short-circuiting chain of steps. */
  datatype Chain = Chain(attempts: seq<Attempt>, succeeded: bool)

  type Environ = map<string, string>

  /** `shutil.which`: tools found on PATH, with their resolved paths. */
  type ToolPaths = map<string, string>

  type Runner = Command -> Outcome

  const CopyOrder: seq<Mechanism> := [WlCopy, Xclip]
  const InjectOrder: seq<Mechanism> := [WtypePaste, WtypeType, Xdotool, Ydotool]

  function Message(a: Advisory): string {
    match a
    case PasteManually => "Text copied to clipboard (paste manually with Ctrl+V)"
    case InstallTools => "Could not type or copy text. Install wtype (Wayland) or xdotool (X11)"
  }

  predicate IsCopy(m: Mechanism) {
    m == WlCopy || m == Xclip
  }

  function Rank(m: Mechanism): nat {
    match m
    case WlCopy => 0
    case Xclip => 1
    case WtypePaste => 2
    case WtypeType => 3
    case Xdotool => 4
    case Ydotool => 5
  }

  /** The executable a mechanism runs. */
  function Tool(m: Mechanism): string {
    match m
    case WlCopy => "wl-copy"
    case Xclip => "xclip"
    case WtypePaste => "wtype"
    case WtypeType => "wtype"
    case Xdotool => "xdotool"
    case Ydotool => "ydotool"
  }

  /** `is_wayland()`: the session type says so, or a Wayland display is set
      to a non-empty value. */
  predicate IsWayland(env: Environ) {
    || ("XDG_SESSION_TYPE" in env && env["XDG_SESSION_TYPE"] == "wayland")
    || ("WAYLAND_DISPLAY" in env && env["WAYLAND_DISPLAY"] != "")
  }

  /** Only the two session variables decide `is_wayland()`; an empty
      `WAYLAND_DISPLAY` counts as unset, and either signal suffices. */
  lemma WaylandDetection(env: Environ, other: Environ)
    requires ("XDG_SESSION_TYPE" in env) == ("XDG_SESSION_TYPE" in other)
    requires "XDG_SESSION_TYPE" in env ==> env["XDG_SESSION_TYPE"] == other["XDG_SESSION_TYPE"]
    requires ("WAYLAND_DISPLAY" in env) == ("WAYLAND_DISPLAY" in other)
    requires "WAYLAND_DISPLAY" in env ==> env["WAYLAND_DISPLAY"] == other["WAYLAND_DISPLAY"]
    ensures IsWayland(env) == IsWayland(other)
    ensures IsWayland(env["WAYLAND_DISPLAY" := ""]) ==
              ("XDG_SESSION_TYPE" in env && env["XDG_SESSION_TYPE"] == "wayland")
    ensures IsWayland(env["XDG_SESSION_TYPE" := "wayland"])
  {
  }

  /** The mechanisms the source only tries in a Wayland session. */
  predicate WaylandOnly(m: Mechanism) {
    m == WlCopy || m == WtypePaste || m == WtypeType
  }

  /** Whether a mechanism's precondition holds: its tool is on PATH, the
      Wayland-only tools need a Wayland session, and the paste keystroke
      needs the transcript to be on the clipboard. */
  predicate Eligible(m: Mechanism, env: Environ, paths: ToolPaths, copied: bool) {
    && Tool(m) in paths
    && (WaylandOnly(m) ==> IsWayland(env))
    && (m == WtypePaste ==> copied)
  }

  /** The command a mechanism runs for `text`. `wtype` is started through the
      path `shutil.which` resolved; the other tools by name. */
  function CommandFor(m: Mechanism, text: string, paths: ToolPaths): (c: Command)
    requires Tool(m) in paths
    ensures c.mechanism == m
    ensures c.timeout == (if IsCopy(m) then 5 else if m == WtypePaste then 10 else 30)
    ensures c.argv != [] && c.argv[0] == (if Tool(m) == "wtype" then paths["wtype"] else Tool(m))
    ensures m == Xclip ==> c.stdin == Some(text)
    ensures m != Xclip ==> c.stdin == None
    ensures m != Xclip && m != WtypePaste ==> c.argv[|c.argv| - 1] == text
  {
    match m
    case WlCopy => Command(m, ["wl-copy", text], None, 5)
    case Xclip => Command(m, ["xclip", "-selection", "clipboard"], Some(text), 5)
    case WtypePaste => Command(m, [paths["wtype"], "-M", "ctrl", "v", "-m", "ctrl"], None, 10)
    case WtypeType => Command(m, [paths["wtype"], "-d", "1", text], None, 30)
    case Xdotool => Command(m, ["xdotool", "type", "--clearmodifiers", "--delay", "1", text], None, 30)
    case Ydotool => Command(m, ["ydotool", "type", "--", text], None, 30)
  }

  /* ---------------------------------------------------------------------- */
  /* The generic chain                                                        */
  /* ---------------------------------------------------------------------- */

  /** The commands of the steps whose precondition held, in order. */
  function Enabled(steps: seq<Option<Command>>): (cs: seq<Command>)
    ensures |cs| <= |steps|
  {
    if steps == [] then []
    else (if steps[0].Some? then [steps[0].value] else []) + Enabled(steps[1..])
  }

  /** Runs the enabled steps in order and stops at the first that succeeds. */
  function RunChain(steps: seq<Option<Command>>, run: Runner): (c: Chain)
    ensures |c.attempts| <= |Enabled(steps)|
  {
    if steps == [] then Chain([], false)
    else if steps[0].None? then RunChain(steps[1..], run)
    else
      var cmd := steps[0].value;
      var outcome := run(cmd);
      if outcome == Succeeded then Chain([Attempt(cmd, outcome)], true)
      else
        var rest := RunChain(steps[1..], run);
        Chain([Attempt(cmd, outcome)] + rest.attempts, rest.succeeded)
  }

  /** The attempts `a` are the first commands of `cs`, each with its
      outcome. */
  predicate RanPrefix(a: seq<Attempt>, cs: seq<Command>, run: Runner) {
    && |a| <= |cs|
    && forall i :: 0 <= i < |a| ==> a[i] == Attempt(cs[i], run(cs[i]))
  }

  /** Only the last attempt may have succeeded, and the chain reports
      success exactly when it did. */
  predicate StopsAtFirstSuccess(c: Chain) {
    && (forall i :: 0 <= i < |c.attempts| - 1 ==> c.attempts[i].outcome != Succeeded)
    && (c.succeeded <==> |c.attempts| > 0 && c.attempts[|c.attempts| - 1].outcome == Succeeded)
  }

  /** The chain runs a prefix of the enabled commands, each once and in
      order. */
  lemma {:induction false} RunChainPrefix(steps: seq<Option<Command>>, run: Runner)
    ensures RanPrefix(RunChain(steps, run).attempts, Enabled(steps), run)
    decreases |steps|
  {
    if steps != [] {
      RunChainPrefix(steps[1..], run);
      var cs := Enabled(steps);
      var tail := Enabled(steps[1..]);
      if steps[0].Some? {
        assert cs == [steps[0].value] + tail;
        var a := RunChain(steps, run).attempts;
        forall i | 0 < i < |a| ensures a[i] == Attempt(cs[i], run(cs[i])) {
          assert cs[i] == tail[i - 1];
        }
      } else {
        assert cs == tail;
      }
    }
  }

  /** Every attempt but the last failed, the chain succeeded exactly when
      the last attempt did, and a failed chain tried every enabled step. */
  lemma {:induction false} RunChainStops(steps: seq<Option<Command>>, run: Runner)
    ensures StopsAtFirstSuccess(RunChain(steps, run))
    ensures !RunChain(steps, run).succeeded ==> |RunChain(steps, run).attempts| == |Enabled(steps)|
    decreases |steps|
  {
    if steps != [] {
      RunChainStops(steps[1..], run);
      if steps[0].Some? {
        assert Enabled(steps) == [steps[0].value] + Enabled(steps[1..]);
      }
    }
  }

  /** A chain succeeds exactly when one of its enabled commands would. */
  lemma ChainSucceedsIffSomeStepWould(steps: seq<Option<Command>>, run: Runner)
    ensures RunChain(steps, run).succeeded <==>
              exists i :: 0 <= i < |Enabled(steps)| && run(Enabled(steps)[i]) == Succeeded
  {
    var c := RunChain(steps, run);
    var cs := Enabled(steps);
    RunChainPrefix(steps, run);
    RunChainStops(steps, run);
    if c.succeeded {
      SucceededWitness(c, cs, run);
    } else {
      FailedNoWitness(c, cs, run);
    }
  }

  lemma SucceededWitness(c: Chain, cs: seq<Command>, run: Runner)
    requires RanPrefix(c.attempts, cs, run) && StopsAtFirstSuccess(c)
    requires c.succeeded
    ensures exists i :: 0 <= i < |cs| && run(cs[i]) == Succeeded
  {
    var i := |c.attempts| - 1;
    assert c.attempts[i] == Attempt(cs[i], run(cs[i]));
  }

  lemma FailedNoWitness(c: Chain, cs: seq<Command>, run: Runner)
    requires RanPrefix(c.attempts, cs, run) && StopsAtFirstSuccess(c)
    requires |c.attempts| == |cs|
    requires !c.succeeded
    ensures forall i :: 0 <= i < |cs| ==> run(cs[i]) != Succeeded
  {
    forall i | 0 <= i < |cs|
      ensures run(cs[i]) != Succeeded
    {
      assert c.attempts[i] == Attempt(cs[i], run(cs[i]));
    }
  }

  /** One step per mechanism of `order`, present when it is eligible. */
  function Steps(order: seq<Mechanism>, text: string, env: Environ, paths: ToolPaths, copied: bool)
    : (steps: seq<Option<Command>>)
    ensures |steps| == |order|
  {
    if order == [] then []
    else
      var m := order[0];
      var step := if Eligible(m, env, paths, copied) then Some(CommandFor(m, text, paths)) else None;
      [step] + Steps(order[1..], text, env, paths, copied)
  }

  /** `copy_to_clipboard(text)`: its attempts and its return value. */
  function CopyToClipboard(text: string, env: Environ, paths: ToolPaths, run: Runner): Chain {
    RunChain(Steps(CopyOrder, text, env, paths, false), run)
  }

  /** `type_text(text)`. */
  function Deliver(text: string, env: Environ, paths: ToolPaths, run: Runner): (d: Delivery)
  {
    if IsBlank(text) then Delivery([], None)
    else
      var copy := CopyToClipboard(text, env, paths, run);
      var inject := RunChain(Steps(InjectOrder, text, env, paths, copy.succeeded), run);
      var advisory :=
        if inject.succeeded then None
        else if copy.succeeded then Some(PasteManually)
        else Some(InstallTools);
      Delivery(copy.attempts + inject.attempts, advisory)
  }

  /* ---------------------------------------------------------------------- */
  /* The source's hand-unrolled chain                                         */
  /* ---------------------------------------------------------------------- */

  /** Runs mechanism `m` once when `cond` holds, else nothing. */
  function TryIf(cond: bool, m: Mechanism, text: string, paths: ToolPaths, run: Runner): (a: seq<Attempt>)
    requires cond ==> Tool(m) in paths
    ensures |a| <= 1
  {
    if cond then [Attempt(CommandFor(m, text, paths), run(CommandFor(m, text, paths)))] else []
  }

  predicate Worked(a: seq<Attempt>) {
    a != [] && a[0].outcome == Succeeded
  }

  /** `copy_to_clipboard` branch by branch: wl-copy on Wayland, and xclip
      when wl-copy was not available or failed. */
  function CopyToClipboardAsWritten(text: string, env: Environ, paths: ToolPaths, run: Runner): Chain {
    var wl := TryIf(IsWayland(env) && "wl-copy" in paths, WlCopy, text, paths, run);
    if Worked(wl) then Chain(wl, true)
    else if "xclip" in paths then
      var x := TryIf(true, Xclip, text, paths, run);
      Chain(wl + x, Worked(x))
    else Chain(wl, false)
  }

  /** `type_text` branch by branch, as the source writes it. */
  function TypeTextAsWritten(text: string, env: Environ, paths: ToolPaths, run: Runner): Delivery {
    if text == [] || Strip(text) == [] then Delivery([], None)
    else
      var copy := CopyToClipboardAsWritten(text, env, paths, run);
      InjectAsWritten(copy.attempts, copy.succeeded, text, env, paths, run)
  }

  /** The injection part of `type_text`, after the copy attempts `pre`. */
  function InjectAsWritten(pre: seq<Attempt>, copied: bool, text: string, env: Environ,
                           paths: ToolPaths, run: Runner): Delivery {
    var paste := TryIf(IsWayland(env) && copied && "wtype" in paths, WtypePaste, text, paths, run);
    if Worked(paste) then Delivery(pre + paste, None)
    else
      var direct := TryIf(IsWayland(env) && "wtype" in paths, WtypeType, text, paths, run);
      if Worked(direct) then Delivery(pre + paste + direct, None)
      else
        var xdo := TryIf("xdotool" in paths, Xdotool, text, paths, run);
        if Worked(xdo) then Delivery(pre + paste + direct + xdo, None)
        else
          var ydo := TryIf("ydotool" in paths, Ydotool, text, paths, run);
          if Worked(ydo) then Delivery(pre + paste + direct + xdo + ydo, None)
          else
            Delivery(pre + paste + direct + xdo + ydo,
                     Some(if copied then PasteManually else InstallTools))
  }

  /** One step of the generic chain is one `try` block of the source. */
  lemma ChainStep(cond: bool, m: Mechanism, text: string, paths: ToolPaths, run: Runner,
                  rest: seq<Option<Command>>)
    requires cond ==> Tool(m) in paths
    ensures var a := TryIf(cond, m, text, paths, run);
            var tail := RunChain(rest, run);
            RunChain([if cond then Some(CommandFor(m, text, paths)) else None] + rest, run)
              == if Worked(a) then Chain(a, true) else Chain(a + tail.attempts, tail.succeeded)
  {
    var step := if cond then Some(CommandFor(m, text, paths)) else None;
    assert ([step] + rest)[1..] == rest;
  }

  lemma StepsCons(order: seq<Mechanism>, text: string, env: Environ, paths: ToolPaths, copied: bool)
    requires order != []
    ensures Steps(order, text, env, paths, copied)
              == [if Eligible(order[0], env, paths, copied) then Some(CommandFor(order[0], text, paths)) else None]
                 + Steps(order[1..], text, env, paths, copied)
  {
  }

  /** The generic chain over the ordered mechanism lists behaves exactly as
      the source's nested conditionals, for every input and every outcome. */
  lemma DeliverMatchesSource(text: string, env: Environ, paths: ToolPaths, run: Runner)
    ensures Deliver(text, env, paths, run) == TypeTextAsWritten(text, env, paths, run)
  {
    CopyMatchesSource(text, env, paths, run);
    if !IsBlank(text) {
      var copy := CopyToClipboard(text, env, paths, run);
      InjectMatchesSource(copy.attempts, copy.succeeded, text, env, paths, run);
    }
  }

  lemma InjectMatchesSource(pre: seq<Attempt>, copied: bool, text: string, env: Environ,
                            paths: ToolPaths, run: Runner)
    ensures var c0 := RunChain(Steps(InjectOrder, text, env, paths, copied), run);
            Delivery(pre + c0.attempts,
                     if c0.succeeded then None
                     else Some(if copied then PasteManually else InstallTools))
              == InjectAsWritten(pre, copied, text, env, paths, run)
  {
    InjectChainUnrolled(pre, copied, text, env, paths, run);
    InjectAsWrittenUnfold(pre, copied, text, env, paths, run);
  }

  lemma InjectChainUnrolled(pre: seq<Attempt>, copied: bool, text: string, env: Environ,
                            paths: ToolPaths, run: Runner)
    ensures
      var c0 := RunChain(Steps(InjectOrder, text, env, paths, copied), run);
      var adv := Some(if copied then PasteManually else InstallTools);
      var a0 := TryIf(IsWayland(env) && copied && "wtype" in paths, WtypePaste, text, paths, run);
      var a1 := TryIf(IsWayland(env) && "wtype" in paths, WtypeType, text, paths, run);
      var a2 := TryIf("xdotool" in paths, Xdotool, text, paths, run);
      var a3 := TryIf("ydotool" in paths, Ydotool, text, paths, run);
      Delivery(pre + c0.attempts, if c0.succeeded then None else adv)
      == if Worked(a0) then Delivery(pre + a0, None)
         else if Worked(a1) then Delivery(pre + a0 + a1, None)
         else if Worked(a2) then Delivery(pre + a0 + a1 + a2, None)
         else if Worked(a3) then Delivery(pre + a0 + a1 + a2 + a3, None)
         else Delivery(pre + a0 + a1 + a2 + a3, adv)
  {
    var w := IsWayland(env);
    InjectEligibility(env, paths, copied);
    var o0 := InjectOrder;
    var o1 := [WtypeType, Xdotool, Ydotool];
    var o2 := [Xdotool, Ydotool];
    var o3 := [Ydotool];
    InjectOrderTails();
    ChainStepsCons(o0, text, env, paths, copied, run);
    ChainStepsCons(o1, text, env, paths, copied, run);
    ChainStepsCons(o2, text, env, paths, copied, run);
    ChainStepsCons(o3, text, env, paths, copied, run);
    var a0 := TryIf(w && copied && "wtype" in paths, WtypePaste, text, paths, run);
    var a1 := TryIf(w && "wtype" in paths, WtypeType, text, paths, run);
    var a2 := TryIf("xdotool" in paths, Xdotool, text, paths, run);
    var a3 := TryIf("ydotool" in paths, Ydotool, text, paths, run);
    var c0 := RunChain(Steps(o0, text, env, paths, copied), run);
    var c1 := RunChain(Steps(o1, text, env, paths, copied), run);
    var c2 := RunChain(Steps(o2, text, env, paths, copied), run);
    var c3 := RunChain(Steps(o3, text, env, paths, copied), run);
    var adv := Some(if copied then PasteManually else InstallTools);
    Unroll(pre, adv, a0, a1, a2, a3, c0, c1, c2, c3);
  }

  lemma InjectOrderTails()
    ensures InjectOrder[1..] == [WtypeType, Xdotool, Ydotool]
    ensures [WtypeType, Xdotool, Ydotool][1..] == [Xdotool, Ydotool]
    ensures [Xdotool, Ydotool][1..] == [Ydotool]
    ensures [Ydotool][1..] == []
  {
  }

  /** The source's guards of the injection steps are the mechanisms'
      eligibility conditions. */
  lemma InjectEligibility(env: Environ, paths: ToolPaths, copied: bool)
    ensures Tool(WtypePaste) == "wtype" && Tool(WtypeType) == "wtype"
    ensures Tool(Xdotool) == "xdotool" && Tool(Ydotool) == "ydotool"
    ensures Eligible(WtypePaste, env, paths, copied) == (IsWayland(env) && copied && "wtype" in paths)
    ensures Eligible(WtypeType, env, paths, copied) == (IsWayland(env) && "wtype" in paths)
    ensures Eligible(Xdotool, env, paths, copied) == ("xdotool" in paths)
    ensures Eligible(Ydotool, env, paths, copied) == ("ydotool" in paths)
  {
  }

  /** Running the steps of `order` is running its first mechanism, if
      eligible, and then the rest unless that one succeeded. */
  lemma ChainStepsCons(order: seq<Mechanism>, text: string, env: Environ, paths: ToolPaths,
                       copied: bool, run: Runner)
    requires order != []
    ensures var a := TryIf(Eligible(order[0], env, paths, copied), order[0], text, paths, run);
            var tail := RunChain(Steps(order[1..], text, env, paths, copied), run);
            RunChain(Steps(order, text, env, paths, copied), run)
              == if Worked(a) then Chain(a, true) else Chain(a + tail.attempts, tail.succeeded)
  {
    StepsCons(order, text, env, paths, copied);
    ChainStep(Eligible(order[0], env, paths, copied), order[0], text, paths, run,
              Steps(order[1..], text, env, paths, copied));
  }

  lemma InjectAsWrittenUnfold(pre: seq<Attempt>, copied: bool, text: string, env: Environ,
                              paths: ToolPaths, run: Runner)
    ensures
      var adv := Some(if copied then PasteManually else InstallTools);
      var a0 := TryIf(IsWayland(env) && copied && "wtype" in paths, WtypePaste, text, paths, run);
      var a1 := TryIf(IsWayland(env) && "wtype" in paths, WtypeType, text, paths, run);
      var a2 := TryIf("xdotool" in paths, Xdotool, text, paths, run);
      var a3 := TryIf("ydotool" in paths, Ydotool, text, paths, run);
      InjectAsWritten(pre, copied, text, env, paths, run)
      == if Worked(a0) then Delivery(pre + a0, None)
         else if Worked(a1) then Delivery(pre + a0 + a1, None)
         else if Worked(a2) then Delivery(pre + a0 + a1 + a2, None)
         else if Worked(a3) then Delivery(pre + a0 + a1 + a2 + a3, None)
         else Delivery(pre + a0 + a1 + a2 + a3, adv)
  {
  }

  /** The arithmetic of unrolling a four-step chain into nested conditionals. */
  lemma Unroll(pre: seq<Attempt>, adv: Option<Advisory>, a0: seq<Attempt>, a1: seq<Attempt>,
               a2: seq<Attempt>, a3: seq<Attempt>, c0: Chain, c1: Chain, c2: Chain, c3: Chain)
    requires c3 == if Worked(a3) then Chain(a3, true) else Chain(a3 + [], false)
    requires c2 == if Worked(a2) then Chain(a2, true) else Chain(a2 + c3.attempts, c3.succeeded)
    requires c1 == if Worked(a1) then Chain(a1, true) else Chain(a1 + c2.attempts, c2.succeeded)
    requires c0 == if Worked(a0) then Chain(a0, true) else Chain(a0 + c1.attempts, c1.succeeded)
    ensures Delivery(pre + c0.attempts, if c0.succeeded then None else adv)
      == if Worked(a0) then Delivery(pre + a0, None)
         else if Worked(a1) then Delivery(pre + a0 + a1, None)
         else if Worked(a2) then Delivery(pre + a0 + a1 + a2, None)
         else if Worked(a3) then Delivery(pre + a0 + a1 + a2 + a3, None)
         else Delivery(pre + a0 + a1 + a2 + a3, adv)
  {
    assert pre + (a0 + (a1 + (a2 + a3))) == pre + a0 + a1 + a2 + a3;
    assert pre + (a0 + (a1 + a2)) == pre + a0 + a1 + a2;
    assert pre + (a0 + a1) == pre + a0 + a1;
  }

  lemma CopyMatchesSource(text: string, env: Environ, paths: ToolPaths, run: Runner)
    ensures CopyToClipboard(text, env, paths, run) == CopyToClipboardAsWritten(text, env, paths, run)
  {
    var o0 := CopyOrder;
    var o1 := [Xclip];
    assert o0[1..] == o1 && o1[1..] == [];
    ChainStepsCons(o0, text, env, paths, false, run);
    ChainStepsCons(o1, text, env, paths, false, run);
    assert Eligible(WlCopy, env, paths, false) == (IsWayland(env) && "wl-copy" in paths);
    assert Eligible(Xclip, env, paths, false) == ("xclip" in paths);
    var x := TryIf("xclip" in paths, Xclip, text, paths, run);
    assert x + [] == x;
  }

  /* ---------------------------------------------------------------------- */
  /* What a chain over an ordered list of mechanisms does                     */
  /* ---------------------------------------------------------------------- */

  predicate RanksIncrease(order: seq<Mechanism>) {
    forall i, j :: 0 <= i < j < |order| ==> Rank(order[i]) < Rank(order[j])
  }

  /** Some attempt ran mechanism `m`. */
  predicate Attempted(attempts: seq<Attempt>, m: Mechanism) {
    exists i :: 0 <= i < |attempts| && attempts[i].cmd.mechanism == m
  }

  /** The attempt ran the command of an eligible mechanism and recorded that
      command's outcome. */
  predicate Ran(at: Attempt, text: string, env: Environ, paths: ToolPaths, copied: bool, run: Runner) {
    && Eligible(at.cmd.mechanism, env, paths, copied)
    && at.cmd == CommandFor(at.cmd.mechanism, text, paths)
    && at.outcome == run(at.cmd)
  }

  predicate AllRan(a: seq<Attempt>, text: string, env: Environ, paths: ToolPaths, copied: bool, run: Runner) {
    forall i :: 0 <= i < |a| ==> Ran(a[i], text, env, paths, copied, run)
  }

  /** Every attempt ran a mechanism of `order`. */
  predicate Within(a: seq<Attempt>, order: seq<Mechanism>) {
    forall i :: 0 <= i < |a| ==> a[i].cmd.mechanism in order
  }

  /** Attempts ran in strictly increasing rank. */
  predicate AttemptsOrdered(a: seq<Attempt>) {
    forall i, j :: 0 <= i < j < |a| ==> Rank(a[i].cmd.mechanism) < Rank(a[j].cmd.mechanism)
  }

  /** An eligible mechanism of `order` was skipped only because an earlier
      one succeeded. */
  predicate SkipsOnlyAfterSuccess(c: Chain, order: seq<Mechanism>, env: Environ, paths: ToolPaths,
                                  copied: bool) {
    forall m :: m in order && Eligible(m, env, paths, copied) && !Attempted(c.attempts, m) ==>
      c.succeeded && |c.attempts| > 0 && Rank(c.attempts[|c.attempts| - 1].cmd.mechanism) < Rank(m)
  }

  lemma RestOfOrder(order: seq<Mechanism>)
    requires order != [] && RanksIncrease(order)
    ensures RanksIncrease(order[1..])
    ensures forall m :: m in order[1..] ==> m in order && Rank(order[0]) < Rank(m)
  {
    var rest := order[1..];
    forall i, j | 0 <= i < j < |rest| ensures Rank(rest[i]) < Rank(rest[j]) {
      assert rest[i] == order[i + 1] && rest[j] == order[j + 1];
    }
    forall m | m in rest ensures m in order && Rank(order[0]) < Rank(m) {
      var k :| 0 <= k < |rest| && rest[k] == m;
      assert order[k + 1] == m;
    }
  }

  /** Every enabled command is the command of an eligible mechanism of
      `order`. */
  predicate CommandsSound(cs: seq<Command>, order: seq<Mechanism>, text: string, env: Environ,
                          paths: ToolPaths, copied: bool) {
    forall k :: 0 <= k < |cs| ==>
      && cs[k].mechanism in order
      && Eligible(cs[k].mechanism, env, paths, copied)
      && cs[k] == CommandFor(cs[k].mechanism, text, paths)
  }

  predicate CommandsOrdered(cs: seq<Command>) {
    forall k, l :: 0 <= k < l < |cs| ==> Rank(cs[k].mechanism) < Rank(cs[l].mechanism)
  }

  /** Every eligible mechanism of `order` has an enabled command. */
  predicate CommandsComplete(cs: seq<Command>, order: seq<Mechanism>, env: Environ,
                             paths: ToolPaths, copied: bool) {
    forall m :: m in order && Eligible(m, env, paths, copied) ==>
      exists k :: 0 <= k < |cs| && cs[k].mechanism == m
  }

  /** The enabled steps of `order`: its first mechanism's command when that
      mechanism is eligible, then those of the rest. */
  lemma EnabledCons(order: seq<Mechanism>, text: string, env: Environ, paths: ToolPaths, copied: bool)
    requires order != []
    ensures Enabled(Steps(order, text, env, paths, copied))
              == (if Eligible(order[0], env, paths, copied) then [CommandFor(order[0], text, paths)] else [])
                 + Enabled(Steps(order[1..], text, env, paths, copied))
  {
    StepsCons(order, text, env, paths, copied);
    var steps := Steps(order, text, env, paths, copied);
    assert steps[1..] == Steps(order[1..], text, env, paths, copied);
  }

  /** The enabled steps of `order` are commands of its eligible mechanisms. */
  lemma {:induction false} EnabledSound(order: seq<Mechanism>, text: string, env: Environ,
                                        paths: ToolPaths, copied: bool)
    ensures CommandsSound(Enabled(Steps(order, text, env, paths, copied)), order, text, env, paths, copied)
    decreases |order|
  {
    if order != [] {
      var rest := order[1..];
      EnabledSound(rest, text, env, paths, copied);
      EnabledCons(order, text, env, paths, copied);
      var tail := Enabled(Steps(rest, text, env, paths, copied));
      SoundWiden(tail, order, text, env, paths, copied);
      if Eligible(order[0], env, paths, copied) {
        SoundPrepend(CommandFor(order[0], text, paths), tail, order, text, env, paths, copied);
      }
    }
  }

  lemma SoundWiden(cs: seq<Command>, order: seq<Mechanism>, text: string, env: Environ,
                   paths: ToolPaths, copied: bool)
    requires order != []
    requires CommandsSound(cs, order[1..], text, env, paths, copied)
    ensures CommandsSound(cs, order, text, env, paths, copied)
  {
    forall k | 0 <= k < |cs| ensures cs[k].mechanism in order {
      assert cs[k].mechanism in order[1..];
    }
  }

  lemma SoundPrepend(c: Command, cs: seq<Command>, order: seq<Mechanism>, text: string, env: Environ,
                     paths: ToolPaths, copied: bool)
    requires c.mechanism in order && Eligible(c.mechanism, env, paths, copied)
    requires c == CommandFor(c.mechanism, text, paths)
    requires CommandsSound(cs, order, text, env, paths, copied)
    ensures CommandsSound([c] + cs, order, text, env, paths, copied)
  {
    var all := [c] + cs;
    forall k | 0 < k < |all| ensures all[k] == cs[k - 1] {}
  }

  /** The enabled steps of `order` keep its rank order. */
  lemma {:induction false} EnabledOrdered(order: seq<Mechanism>, text: string, env: Environ,
                                          paths: ToolPaths, copied: bool)
    requires RanksIncrease(order)
    ensures CommandsOrdered(Enabled(Steps(order, text, env, paths, copied)))
    decreases |order|
  {
    if order != [] {
      var rest := order[1..];
      RestOfOrder(order);
      EnabledOrdered(rest, text, env, paths, copied);
      EnabledSound(rest, text, env, paths, copied);
      EnabledCons(order, text, env, paths, copied);
      var tail := Enabled(Steps(rest, text, env, paths, copied));
      if Eligible(order[0], env, paths, copied) {
        var c := CommandFor(order[0], text, paths);
        forall k | 0 <= k < |tail| ensures Rank(c.mechanism) < Rank(tail[k].mechanism) {
          assert tail[k].mechanism in rest;
        }
        OrderedPrepend(c, tail);
      }
    }
  }

  lemma OrderedPrepend(c: Command, tail: seq<Command>)
    requires CommandsOrdered(tail)
    requires forall k :: 0 <= k < |tail| ==> Rank(c.mechanism) < Rank(tail[k].mechanism)
    ensures CommandsOrdered([c] + tail)
  {
    var cs := [c] + tail;
    forall k, l | 0 <= k < l < |cs| ensures Rank(cs[k].mechanism) < Rank(cs[l].mechanism) {
      assert cs[l] == tail[l - 1];
      if k > 0 {
        assert cs[k] == tail[k - 1];
      }
    }
  }

  /** Every eligible mechanism of `order` has an enabled step. */
  lemma {:induction false} EnabledComplete(order: seq<Mechanism>, text: string, env: Environ,
                                           paths: ToolPaths, copied: bool)
    ensures CommandsComplete(Enabled(Steps(order, text, env, paths, copied)), order, env, paths, copied)
    decreases |order|
  {
    if order != [] {
      var rest := order[1..];
      EnabledComplete(rest, text, env, paths, copied);
      EnabledCons(order, text, env, paths, copied);
      var tail := Enabled(Steps(rest, text, env, paths, copied));
      var head := if Eligible(order[0], env, paths, copied) then [CommandFor(order[0], text, paths)] else [];
      CompletePrepend(head, tail, order, env, paths, copied);
    }
  }

  lemma CompletePrepend(head: seq<Command>, tail: seq<Command>, order: seq<Mechanism>, env: Environ,
                        paths: ToolPaths, copied: bool)
    requires order != [] && CommandsComplete(tail, order[1..], env, paths, copied)
    requires Eligible(order[0], env, paths, copied) ==> |head| == 1 && head[0].mechanism == order[0]
    ensures CommandsComplete(head + tail, order, env, paths, copied)
  {
    var cs := head + tail;
    forall m | m in order && Eligible(m, env, paths, copied)
      ensures exists k :: 0 <= k < |cs| && cs[k].mechanism == m
    {
      if m == order[0] {
        assert cs[0].mechanism == m;
      } else {
        assert m in order[1..];
        var k :| 0 <= k < |tail| && tail[k].mechanism == m;
        assert cs[k + |head|] == tail[k];
      }
    }
  }

  /** The chain over `order` runs only eligible mechanisms of `order`, each
      with its own command. */
  lemma ChainSound(order: seq<Mechanism>, text: string, env: Environ,
                   paths: ToolPaths, copied: bool, run: Runner)
    ensures var c := RunChain(Steps(order, text, env, paths, copied), run);
      Within(c.attempts, order) && AllRan(c.attempts, text, env, paths, copied, run)
  {
    var steps := Steps(order, text, env, paths, copied);
    EnabledSound(order, text, env, paths, copied);
    RunChainPrefix(steps, run);
    PrefixSound(RunChain(steps, run).attempts, Enabled(steps), order, text, env, paths, copied, run);
  }

  lemma PrefixSound(a: seq<Attempt>, cs: seq<Command>, order: seq<Mechanism>, text: string,
                    env: Environ, paths: ToolPaths, copied: bool, run: Runner)
    requires CommandsSound(cs, order, text, env, paths, copied)
    requires RanPrefix(a, cs, run)
    ensures Within(a, order) && AllRan(a, text, env, paths, copied, run)
  {
    forall i | 0 <= i < |a|
      ensures a[i].cmd.mechanism in order && Ran(a[i], text, env, paths, copied, run)
    {
      assert a[i] == Attempt(cs[i], run(cs[i]));
    }
  }

  /** The chain over `order` runs its mechanisms in rank order. */
  lemma ChainOrdered(order: seq<Mechanism>, text: string, env: Environ,
                     paths: ToolPaths, copied: bool, run: Runner)
    requires RanksIncrease(order)
    ensures AttemptsOrdered(RunChain(Steps(order, text, env, paths, copied), run).attempts)
  {
    var steps := Steps(order, text, env, paths, copied);
    EnabledOrdered(order, text, env, paths, copied);
    RunChainPrefix(steps, run);
    PrefixOrdered(RunChain(steps, run).attempts, Enabled(steps), run);
  }

  lemma PrefixOrdered(a: seq<Attempt>, cs: seq<Command>, run: Runner)
    requires CommandsOrdered(cs) && RanPrefix(a, cs, run)
    ensures AttemptsOrdered(a)
  {
    forall i, j | 0 <= i < j < |a| ensures Rank(a[i].cmd.mechanism) < Rank(a[j].cmd.mechanism) {
      assert a[i].cmd == cs[i] && a[j].cmd == cs[j];
    }
  }

  /** An eligible mechanism of `order` is skipped only after an earlier one
      succeeded. */
  lemma ChainSkips(order: seq<Mechanism>, text: string, env: Environ,
                   paths: ToolPaths, copied: bool, run: Runner)
    requires RanksIncrease(order)
    ensures SkipsOnlyAfterSuccess(RunChain(Steps(order, text, env, paths, copied), run), order, env, paths, copied)
  {
    var steps := Steps(order, text, env, paths, copied);
    EnabledOrdered(order, text, env, paths, copied);
    EnabledComplete(order, text, env, paths, copied);
    RunChainPrefix(steps, run);
    RunChainStops(steps, run);
    PrefixSkips(RunChain(steps, run), Enabled(steps), order, env, paths, copied, run);
  }

  lemma PrefixSkips(c: Chain, cs: seq<Command>, order: seq<Mechanism>,
                    env: Environ, paths: ToolPaths, copied: bool, run: Runner)
    requires CommandsOrdered(cs) && CommandsComplete(cs, order, env, paths, copied)
    requires RanPrefix(c.attempts, cs, run) && StopsAtFirstSuccess(c)
    requires !c.succeeded ==> |c.attempts| == |cs|
    ensures SkipsOnlyAfterSuccess(c, order, env, paths, copied)
  {
    var a := c.attempts;
    forall m | m in order && Eligible(m, env, paths, copied) && !Attempted(a, m)
      ensures c.succeeded && |a| > 0 && Rank(a[|a| - 1].cmd.mechanism) < Rank(m)
    {
      var k :| 0 <= k < |cs| && cs[k].mechanism == m;
      assert k >= |a| by {
        assert forall i :: 0 <= i < |a| ==> a[i].cmd == cs[i];
      }
      assert a[|a| - 1].cmd == cs[|a| - 1];
    }
  }

  /* ---------------------------------------------------------------------- */
  /* Properties of a whole delivery                                           */
  /* ---------------------------------------------------------------------- */

  /** Some clipboard copy exited with status 0. */
  predicate CopySucceeded(a: seq<Attempt>) {
    exists i :: 0 <= i < |a| && IsCopy(a[i].cmd.mechanism) && a[i].outcome == Succeeded
  }

  /** Some paste or typing command exited with status 0. */
  predicate InjectSucceeded(a: seq<Attempt>) {
    exists i :: 0 <= i < |a| && !IsCopy(a[i].cmd.mechanism) && a[i].outcome == Succeeded
  }

  predicate AllCopies(a: seq<Attempt>) {
    forall i :: 0 <= i < |a| ==> IsCopy(a[i].cmd.mechanism)
  }

  predicate NoCopies(a: seq<Attempt>) {
    forall i :: 0 <= i < |a| ==> !IsCopy(a[i].cmd.mechanism)
  }

  /** A successful attempt is a copy, and only injections follow it. */
  predicate SuccessEndsPhase(a: seq<Attempt>) {
    forall i, j :: 0 <= i < j < |a| && a[i].outcome == Succeeded ==>
      IsCopy(a[i].cmd.mechanism) && !IsCopy(a[j].cmd.mechanism)
  }

  /** Each mechanism belongs to exactly one phase. */
  lemma PhaseOfMechanism(m: Mechanism)
    ensures m in CopyOrder <==> IsCopy(m)
    ensures m in InjectOrder <==> !IsCopy(m)
  {
  }

  lemma OrdersIncrease()
    ensures RanksIncrease(CopyOrder) && RanksIncrease(InjectOrder)
  {
  }

  /** The copy phase: clipboard commands only, stopping at the first success. */
  lemma CopyPhase(text: string, env: Environ, paths: ToolPaths, run: Runner)
    ensures var c := CopyToClipboard(text, env, paths, run);
      AllCopies(c.attempts) && StopsAtFirstSuccess(c)
  {
    var c := CopyToClipboard(text, env, paths, run);
    assert Within(c.attempts, CopyOrder) by {
      ChainSound(CopyOrder, text, env, paths, false, run);
    }
    RunChainStops(Steps(CopyOrder, text, env, paths, false), run);
    WithinCopyOrder(c.attempts);
  }

  lemma WithinCopyOrder(a: seq<Attempt>)
    requires Within(a, CopyOrder)
    ensures AllCopies(a)
  {
    forall i | 0 <= i < |a| ensures IsCopy(a[i].cmd.mechanism) {
      assert a[i].cmd.mechanism in CopyOrder;
    }
  }

  lemma WithinInjectOrder(a: seq<Attempt>)
    requires Within(a, InjectOrder)
    ensures NoCopies(a)
  {
    forall i | 0 <= i < |a| ensures !IsCopy(a[i].cmd.mechanism) {
      assert a[i].cmd.mechanism in InjectOrder;
    }
  }

  /** The injection phase: paste and typing commands only, stopping at the
      first success. */
  lemma InjectPhase(text: string, env: Environ, paths: ToolPaths, copied: bool, run: Runner)
    ensures var c := RunChain(Steps(InjectOrder, text, env, paths, copied), run);
      NoCopies(c.attempts) && StopsAtFirstSuccess(c)
  {
    var c := RunChain(Steps(InjectOrder, text, env, paths, copied), run);
    assert Within(c.attempts, InjectOrder) by {
      ChainSound(InjectOrder, text, env, paths, copied, run);
    }
    RunChainStops(Steps(InjectOrder, text, env, paths, copied), run);
    WithinInjectOrder(c.attempts);
  }

  /** The two phases of a delivery, related to what its attempts show. */
  lemma Phases(text: string, env: Environ, paths: ToolPaths, run: Runner)
    requires !IsBlank(text)
    ensures var copy := CopyToClipboard(text, env, paths, run);
            var inject := RunChain(Steps(InjectOrder, text, env, paths, copy.succeeded), run);
            var d := Deliver(text, env, paths, run);
            && d.attempts == copy.attempts + inject.attempts
            && (copy.succeeded <==> CopySucceeded(d.attempts))
            && (inject.succeeded <==> InjectSucceeded(d.attempts))
  {
    var copy := CopyToClipboard(text, env, paths, run);
    var inject := RunChain(Steps(InjectOrder, text, env, paths, copy.succeeded), run);
    CopyPhase(text, env, paths, run);
    InjectPhase(text, env, paths, copy.succeeded, run);
    CopySplit(copy, inject.attempts);
    InjectSplit(copy.attempts, inject);
  }

  /** Whether the copy phase succeeded can be read off the concatenated attempts. */
  lemma CopySplit(copy: Chain, rest: seq<Attempt>)
    requires AllCopies(copy.attempts) && NoCopies(rest) && StopsAtFirstSuccess(copy)
    ensures copy.succeeded <==> CopySucceeded(copy.attempts + rest)
  {
    var a := copy.attempts + rest;
    var n := |copy.attempts|;
    if CopySucceeded(a) {
      var i :| 0 <= i < |a| && IsCopy(a[i].cmd.mechanism) && a[i].outcome == Succeeded;
      assert i < n by {
        assert forall k :: n <= k < |a| ==> a[k] == rest[k - n];
      }
      assert a[i] == copy.attempts[i];
    }
    if copy.succeeded {
      assert a[n - 1] == copy.attempts[n - 1];
    }
  }

  /** Whether the injection phase succeeded can be read off the concatenated attempts. */
  lemma InjectSplit(pre: seq<Attempt>, inject: Chain)
    requires AllCopies(pre) && NoCopies(inject.attempts) && StopsAtFirstSuccess(inject)
    ensures inject.succeeded <==> InjectSucceeded(pre + inject.attempts)
  {
    var a := pre + inject.attempts;
    var n := |pre|;
    if InjectSucceeded(a) {
      var i :| 0 <= i < |a| && !IsCopy(a[i].cmd.mechanism) && a[i].outcome == Succeeded;
      assert i >= n by {
        assert forall k :: 0 <= k < n ==> a[k] == pre[k];
      }
      assert a[i] == inject.attempts[i - n];
    }
    if inject.succeeded {
      assert a[|a| - 1] == inject.attempts[|inject.attempts| - 1];
    }
  }

  /** An empty or whitespace-only transcript is neither copied nor typed, and
      no advisory is printed. */
  lemma BlankTranscriptDoesNothing(text: string, env: Environ, paths: ToolPaths, run: Runner)
    requires forall k :: 0 <= k < |text| ==> IsSpace(text[k])
    ensures Deliver(text, env, paths, run) == Delivery([], None)
  {
    BlankIffAllSpace(text);
  }

  /** Exactly one advisory is printed when no paste or typing command
      succeeded: the manual-paste hint if the copy worked, the install hint
      otherwise; none is printed after a success or for a blank transcript. */
  lemma AdvisoryReflectsOutcome(text: string, env: Environ, paths: ToolPaths, run: Runner)
    ensures var d := Deliver(text, env, paths, run);
      && (d.advisory == None <==> IsBlank(text) || InjectSucceeded(d.attempts))
      && (d.advisory == Some(PasteManually) <==>
            !IsBlank(text) && !InjectSucceeded(d.attempts) && CopySucceeded(d.attempts))
      && (d.advisory == Some(InstallTools) <==>
            !IsBlank(text) && !InjectSucceeded(d.attempts) && !CopySucceeded(d.attempts))
  {
    if !IsBlank(text) {
      Phases(text, env, paths, run);
    }
  }

  /** The advisory line printed tells the user whether the text is on the
      clipboard. */
  lemma AdvisoryMessage(text: string, env: Environ, paths: ToolPaths, run: Runner)
    ensures var d := Deliver(text, env, paths, run);
      d.advisory.Some? ==>
        Message(d.advisory.value) ==
          if CopySucceeded(d.attempts) then "Text copied to clipboard (paste manually with Ctrl+V)"
          else "Could not type or copy text. Install wtype (Wayland) or xdotool (X11)"
  {
    AdvisoryReflectsOutcome(text, env, paths, run);
  }

  /** If every paste and typing command fails (or its tool is missing), the
      advisory is decided by the clipboard copy alone. */
  lemma AllInjectionsFailing(text: string, env: Environ, paths: ToolPaths, run: Runner)
    requires !IsBlank(text)
    requires forall c: Command :: !IsCopy(c.mechanism) ==> run(c) != Succeeded
    ensures var d := Deliver(text, env, paths, run);
      d.advisory == Some(if CopySucceeded(d.attempts) then PasteManually else InstallTools)
  {
    var copy := CopyToClipboard(text, env, paths, run);
    Phases(text, env, paths, run);
    InjectionsFail(text, env, paths, copy.succeeded, run);
  }

  lemma InjectionsFail(text: string, env: Environ, paths: ToolPaths, copied: bool, run: Runner)
    requires forall c: Command :: !IsCopy(c.mechanism) ==> run(c) != Succeeded
    ensures !RunChain(Steps(InjectOrder, text, env, paths, copied), run).succeeded
  {
    var steps := Steps(InjectOrder, text, env, paths, copied);
    var cs := Enabled(steps);
    EnabledSound(InjectOrder, text, env, paths, copied);
    ChainSucceedsIffSomeStepWould(steps, run);
    forall i | 0 <= i < |cs| ensures run(cs[i]) != Succeeded {
      assert cs[i].mechanism in InjectOrder;
    }
  }

  /** Every command a delivery runs is the command of an eligible mechanism
      (given whether the copy succeeded), with its recorded outcome. */
  lemma DeliveryRunsEligibleCommands(text: string, env: Environ, paths: ToolPaths, run: Runner)
    requires !IsBlank(text)
    ensures var a := Deliver(text, env, paths, run).attempts;
      AllRan(a, text, env, paths, CopySucceeded(a), run)
  {
    var copy := CopyToClipboard(text, env, paths, run);
    var inject := RunChain(Steps(InjectOrder, text, env, paths, copy.succeeded), run);
    Phases(text, env, paths, run);
    CopyPhase(text, env, paths, run);
    ChainSound(CopyOrder, text, env, paths, false, run);
    ChainSound(InjectOrder, text, env, paths, copy.succeeded, run);
    ConcatRan(copy.attempts, inject.attempts, text, env, paths, copy.succeeded, run);
  }

  lemma ConcatRan(pre: seq<Attempt>, rest: seq<Attempt>, text: string, env: Environ,
                  paths: ToolPaths, copied: bool, run: Runner)
    requires AllCopies(pre) && AllRan(pre, text, env, paths, false, run)
    requires AllRan(rest, text, env, paths, copied, run)
    ensures AllRan(pre + rest, text, env, paths, copied, run)
  {
    var a := pre + rest;
    forall i | 0 <= i < |a| ensures Ran(a[i], text, env, paths, copied, run) {
      if i < |pre| {
        assert a[i] == pre[i];
        assert IsCopy(pre[i].cmd.mechanism) && Ran(pre[i], text, env, paths, false, run);
      } else {
        assert a[i] == rest[i - |pre|];
      }
    }
  }

  /** A delivery runs its commands in the fixed order wl-copy, xclip, wtype
      paste, wtype typing, xdotool, ydotool. */
  lemma DeliveryRunsInOrder(text: string, env: Environ, paths: ToolPaths, run: Runner)
    requires !IsBlank(text)
    ensures AttemptsOrdered(Deliver(text, env, paths, run).attempts)
  {
    var copy := CopyToClipboard(text, env, paths, run);
    var inject := RunChain(Steps(InjectOrder, text, env, paths, copy.succeeded), run);
    CopyPhase(text, env, paths, run);
    InjectPhase(text, env, paths, copy.succeeded, run);
    OrdersIncrease();
    ChainOrdered(CopyOrder, text, env, paths, false, run);
    ChainOrdered(InjectOrder, text, env, paths, copy.succeeded, run);
    ConcatOrdered(copy.attempts, inject.attempts);
  }

  lemma ConcatOrdered(pre: seq<Attempt>, rest: seq<Attempt>)
    requires AllCopies(pre) && NoCopies(rest)
    requires AttemptsOrdered(pre) && AttemptsOrdered(rest)
    ensures AttemptsOrdered(pre + rest)
  {
    var a := pre + rest;
    var n := |pre|;
    forall i, j | 0 <= i < j < |a| ensures Rank(a[i].cmd.mechanism) < Rank(a[j].cmd.mechanism) {
      if j < n {
        assert a[i] == pre[i] && a[j] == pre[j];
      } else if i >= n {
        assert a[i] == rest[i - n] && a[j] == rest[j - n];
      } else {
        assert a[i] == pre[i] && a[j] == rest[j - n];
      }
    }
  }

  /** A success ends its phase: after a successful copy only paste and
      typing commands follow, and after a successful injection nothing. */
  lemma DeliverySuccessEndsPhase(text: string, env: Environ, paths: ToolPaths, run: Runner)
    requires !IsBlank(text)
    ensures SuccessEndsPhase(Deliver(text, env, paths, run).attempts)
  {
    var copy := CopyToClipboard(text, env, paths, run);
    var inject := RunChain(Steps(InjectOrder, text, env, paths, copy.succeeded), run);
    CopyPhase(text, env, paths, run);
    InjectPhase(text, env, paths, copy.succeeded, run);
    ConcatSuccess(copy.attempts, inject);
    ConcatFirstSuccess(copy, inject.attempts);
  }

  /** No attempt of a completed injection phase is followed by another. */
  lemma ConcatSuccess(pre: seq<Attempt>, inject: Chain)
    requires StopsAtFirstSuccess(inject)
    ensures var a := pre + inject.attempts;
      forall i :: |pre| <= i < |a| - 1 ==> a[i].outcome != Succeeded
  {
    var a := pre + inject.attempts;
    forall i | |pre| <= i < |a| - 1 ensures a[i].outcome != Succeeded {
      assert a[i] == inject.attempts[i - |pre|];
    }
  }

  lemma ConcatFirstSuccess(copy: Chain, rest: seq<Attempt>)
    requires AllCopies(copy.attempts) && NoCopies(rest) && StopsAtFirstSuccess(copy)
    requires var a := copy.attempts + rest;
      forall i :: |copy.attempts| <= i < |a| - 1 ==> a[i].outcome != Succeeded
    ensures SuccessEndsPhase(copy.attempts + rest)
  {
    var a := copy.attempts + rest;
    var n := |copy.attempts|;
    forall i, j | 0 <= i < j < |a| && a[i].outcome == Succeeded
      ensures IsCopy(a[i].cmd.mechanism) && !IsCopy(a[j].cmd.mechanism)
    {
      assert i < n;
      assert a[i] == copy.attempts[i];
      assert i == n - 1;
      assert a[j] == rest[j - n];
    }
  }

  /** An eligible mechanism that was not run was skipped only because an
      earlier mechanism of the same phase (copy, or paste and typing)
      succeeded. */
  lemma DeliverySkipsOnlyAfterSuccess(text: string, env: Environ, paths: ToolPaths, run: Runner,
                                      m: Mechanism)
    requires !IsBlank(text)
    ensures var a := Deliver(text, env, paths, run).attempts;
      Eligible(m, env, paths, CopySucceeded(a)) && !Attempted(a, m) ==>
        exists i :: 0 <= i < |a| && a[i].outcome == Succeeded &&
          IsCopy(a[i].cmd.mechanism) == IsCopy(m) && Rank(a[i].cmd.mechanism) < Rank(m)
  {
    if IsCopy(m) {
      CopySkippedOnlyAfterCopy(text, env, paths, run, m);
    } else {
      InjectionSkippedOnlyAfterInjection(text, env, paths, run, m);
    }
  }

  lemma CopySkippedOnlyAfterCopy(text: string, env: Environ, paths: ToolPaths, run: Runner,
                                 m: Mechanism)
    requires !IsBlank(text) && IsCopy(m)
    ensures var a := Deliver(text, env, paths, run).attempts;
      Eligible(m, env, paths, false) && !Attempted(a, m) ==>
        exists i :: 0 <= i < |a| && a[i].outcome == Succeeded &&
          IsCopy(a[i].cmd.mechanism) && Rank(a[i].cmd.mechanism) < Rank(m)
  {
    var copy := CopyToClipboard(text, env, paths, run);
    var inject := RunChain(Steps(InjectOrder, text, env, paths, copy.succeeded), run);
    assert Deliver(text, env, paths, run).attempts == copy.attempts + inject.attempts;
    CopyPhase(text, env, paths, run);
    InjectPhase(text, env, paths, copy.succeeded, run);
    OrdersIncrease();
    ChainSkips(CopyOrder, text, env, paths, false, run);
    CopySkips(copy, inject.attempts, env, paths, m);
  }

  lemma InjectionSkippedOnlyAfterInjection(text: string, env: Environ, paths: ToolPaths, run: Runner,
                                           m: Mechanism)
    requires !IsBlank(text) && !IsCopy(m)
    ensures var a := Deliver(text, env, paths, run).attempts;
      Eligible(m, env, paths, CopySucceeded(a)) && !Attempted(a, m) ==>
        exists i :: 0 <= i < |a| && a[i].outcome == Succeeded &&
          !IsCopy(a[i].cmd.mechanism) && Rank(a[i].cmd.mechanism) < Rank(m)
  {
    var copy := CopyToClipboard(text, env, paths, run);
    var inject := RunChain(Steps(InjectOrder, text, env, paths, copy.succeeded), run);
    Phases(text, env, paths, run);
    CopyPhase(text, env, paths, run);
    InjectPhase(text, env, paths, copy.succeeded, run);
    OrdersIncrease();
    ChainSkips(InjectOrder, text, env, paths, copy.succeeded, run);
    InjectSkips(copy.attempts, inject, env, paths, copy.succeeded, m);
  }

  lemma CopySkips(copy: Chain, rest: seq<Attempt>, env: Environ, paths: ToolPaths, m: Mechanism)
    requires IsCopy(m) && AllCopies(copy.attempts)
    requires SkipsOnlyAfterSuccess(copy, CopyOrder, env, paths, false)
    requires StopsAtFirstSuccess(copy)
    ensures var a := copy.attempts + rest;
      Eligible(m, env, paths, false) && !Attempted(a, m) ==>
        exists i :: 0 <= i < |a| && a[i].outcome == Succeeded &&
          IsCopy(a[i].cmd.mechanism) && Rank(a[i].cmd.mechanism) < Rank(m)
  {
    var a := copy.attempts + rest;
    var n := |copy.attempts|;
    PhaseOfMechanism(m);
    if Eligible(m, env, paths, false) && !Attempted(a, m) {
      assert !Attempted(copy.attempts, m) by {
        assert forall k :: 0 <= k < n ==> a[k] == copy.attempts[k];
      }
      assert a[n - 1] == copy.attempts[n - 1];
    }
  }

  lemma InjectSkips(pre: seq<Attempt>, inject: Chain, env: Environ, paths: ToolPaths, copied: bool,
                    m: Mechanism)
    requires !IsCopy(m) && NoCopies(inject.attempts)
    requires SkipsOnlyAfterSuccess(inject, InjectOrder, env, paths, copied)
    requires StopsAtFirstSuccess(inject)
    ensures var a := pre + inject.attempts;
      Eligible(m, env, paths, copied) && !Attempted(a, m) ==>
        exists i :: 0 <= i < |a| && a[i].outcome == Succeeded &&
          !IsCopy(a[i].cmd.mechanism) && Rank(a[i].cmd.mechanism) < Rank(m)
  {
    var a := pre + inject.attempts;
    var n := |pre|;
    PhaseOfMechanism(m);
    if Eligible(m, env, paths, copied) && !Attempted(a, m) {
      assert !Attempted(inject.attempts, m) by {
        assert forall k :: 0 <= k < |inject.attempts| ==> a[n + k] == inject.attempts[k];
      }
      assert a[|a| - 1] == inject.attempts[|inject.attempts| - 1];
    }
  }
}
