/** The control loop of robotpy.py (lines 62-137): per cycle a rotation burst, one frame,
    the candidate filter, the oracle when the candidates are ambiguous, the centring
    test and the motion commands; on every way out of the loop a final stop. */
module Control {
  import opened Wrappers
  import opened Text
  import opened Perception
  import opened Oracle

  // ---------------------------------------------------------------------------
  // Target selection (lines 96-105)

  /** The crops of line 101, one per candidate and in candidate order. */
  function Crops(frame: nat, candidates: seq<Detection>): seq<Image> {
    seq(|candidates|, i requires 0 <= i < |candidates| => CropImage(frame, candidates[i].box))
  }

  /** The index the cycle takes from the oracle: the oracle is only asked when more
      than one candidate survives the filter. */
  function OracleIndex(candidates: seq<Detection>, reply: Option<string>): Option<nat> {
    if |candidates| > 1 then ParseReply(reply) else None
  }

  /** Lines 96-105: a lone candidate is taken as it is; among several, the oracle's
      index is taken when it is in range; otherwise nothing is selected. */
  function SelectTarget(candidates: seq<Detection>, idx: Option<nat>): (r: Option<Box>)
    ensures |candidates| == 0 ==> r == None
    ensures |candidates| == 1 ==> r == Some(candidates[0].box)
    ensures |candidates| > 1 ==>
      (r.Some? <==> idx.Some? && idx.value < |candidates|)
      && (r.Some? ==> r.value == candidates[idx.value].box)
    ensures r.Some? ==> exists k :: 0 <= k < |candidates| && candidates[k].box == r.value
  {
    if |candidates| == 1 then Some(candidates[0].box)
    else if |candidates| > 1 && idx.Some? && idx.value < |candidates| then
      Some(candidates[idx.value].box)
    else None
  }

  /** The box a cycle selects among its candidates, given the oracle's reply. */
  function Selected(candidates: seq<Detection>, reply: Option<string>): Option<Box> {
    SelectTarget(candidates, OracleIndex(candidates, reply))
  }

  /** The oracle's reply only matters when it is asked: with at most one candidate the
      selection is the same whatever it would have said. */
  lemma SelectionIgnoresUnaskedOracle(candidates: seq<Detection>, reply: Option<string>, other: Option<string>)
    requires |candidates| <= 1
    ensures Selected(candidates, reply) == Selected(candidates, other)
  {
  }

  /** Among several candidates, option `d` is selected exactly when the first visible
      character of the reply is the digit `d` and `d` indexes a candidate. */
  lemma AmbiguousSelection(candidates: seq<Detection>, text: string)
    requires |candidates| > 1
    ensures Selected(candidates, None) == None
    ensures forall d :: 0 <= d < |candidates| ==>
      (OracleIndex(candidates, Some(text)) == Some(d) <==>
        exists k :: FirstVisibleAt(text, k) && IsDigit(text[k]) && DigitValue(text[k]) == d)
    ensures Selected(candidates, Some(text)).Some? <==>
      exists k :: FirstVisibleAt(text, k) && IsDigit(text[k]) && DigitValue(text[k]) < |candidates|
  {
    forall d | 0 <= d < |candidates|
      ensures OracleIndex(candidates, Some(text)) == Some(d) <==>
        exists k :: FirstVisibleAt(text, k) && IsDigit(text[k]) && DigitValue(text[k]) == d
    {
      ParseReplyDigit(text, d);
    }
    var idx := ParseReply(Some(text));
    if idx.Some? {
      ParseReplyDigit(text, idx.value);
    }
    if exists k :: FirstVisibleAt(text, k) && IsDigit(text[k]) && DigitValue(text[k]) < |candidates| {
      var k :| FirstVisibleAt(text, k) && IsDigit(text[k]) && DigitValue(text[k]) < |candidates|;
      ParseReplyDigit(text, DigitValue(text[k]));
    }
  }

  // ---------------------------------------------------------------------------
  // Centring (lines 82-83, 107-121)

  /** The horizontal centre of a box: the floor of the mean of its left and right
      edges. Python's floor division by a positive constant agrees with Dafny's
      division, also for negative coordinates. */
  function CenterX(b: Box): int {
    (b.x1 + b.x2) / 2
  }

  /** The ends of the centring band: one third and two thirds of the frame width,
      each rounded down. */
  function BandLeft(width: nat): int {
    width / 3
  }

  function BandRight(width: nat): int {
    2 * width / 3
  }

  /** The test of line 114: both ends of the band are inside. */
  predicate IsCentered(b: Box, width: nat) {
    BandLeft(width) <= CenterX(b) <= BandRight(width)
  }

  /** The cycle's decision: go forward when the selected box is centred, else keep scanning. */
  datatype Decision = Scan | Center

  function Decide(target: Option<Box>, width: nat): (d: Decision)
    ensures d == Center <==> target.Some? && IsCentered(target.value, width)
  {
    match target
    case None => Scan
    case Some(b) => if BandLeft(width) <= CenterX(b) <= BandRight(width) then Center else Scan
  }

  /** The band lies within the frame, is never empty, and a box whose centre sits on
      either end of it counts as centred. */
  lemma BandInclusive(b: Box, width: nat)
    ensures 0 <= BandLeft(width) <= BandRight(width) <= width
    ensures CenterX(b) == BandLeft(width) ==> Decide(Some(b), width) == Center
    ensures CenterX(b) == BandRight(width) ==> Decide(Some(b), width) == Center
    ensures CenterX(b) == BandLeft(width) - 1 ==> Decide(Some(b), width) == Scan
    ensures CenterX(b) == BandRight(width) + 1 ==> Decide(Some(b), width) == Scan
  {
    assert width / 3 <= 2 * width / 3 by {
      assert 3 * (width / 3) <= width;
      assert 2 * width - 3 * (width / 3) >= 0;
    }
  }

  // ---------------------------------------------------------------------------
  // The actuator channel (lines 24-29)

  /** The commands the motion platform understands. */
  datatype Command = Right | Stop | Forward

  /** `send_command`: every command is recorded in the order it is issued. Whether the
      request reaches the platform is not observable to the script (failures are
      swallowed), so the log holds the commands issued, delivered or not. */
  class Actuator {
    var sent: seq<Command>

    constructor ()
      ensures sent == []
    {
      sent := [];
    }

    method Send(c: Command)
      modifies this
      ensures sent == old(sent) + [c]
    {
      sent := sent + [c];
    }
  }

  // ---------------------------------------------------------------------------
  // One cycle of the loop (lines 72-129)

  /** A captured frame: an identity, its width `w`, and the detector's output for it. */
  datatype Frame = Frame(id: nat, width: nat, detections: seq<Detection>)

  /** What the world supplies to one cycle: the frame (`None` when `cap.read()` fails),
      the oracle's reply should it be asked (`None` for a failed call), and whether the
      ESC key is pressed when the cycle polls the display. */
  datatype CycleInput = CycleInput(capture: Option<Frame>, reply: Option<string>, stopKey: bool)

  /** How a cycle ends: on to the next one, out of the loop by the ESC key, or out of
      the loop by the exception raised in the filter. */
  datatype CycleEnd = Continue | StopKey | Raised

  /** The commands a cycle issues, the oracle request it makes (if any) and how it ends. */
  datatype CycleResult = CycleResult(commands: seq<Command>, request: Option<seq<Part>>, end: CycleEnd)

  /** The meaning of one cycle, for the lower-cased description `desc`. */
  function CycleSpec(desc: string, input: CycleInput): CycleResult {
    match input.capture
    case None => CycleResult([Right, Stop], None, Continue)
    case Some(f) =>
      match Filter(f.detections, desc)
      case NoTargetWord => CycleResult([Right, Stop], None, Raised)
      case Kept(cands) => CandidateCycle(desc, f, cands, input)
  }

  /** The rest of a cycle once the frame's candidates are known (lines 96-129). */
  function CandidateCycle(desc: string, f: Frame, cands: seq<Detection>, input: CycleInput): CycleResult {
    var request :=
      if |cands| > 1 then Some(Prompt(desc, FrameImage(f.id), Crops(f.id, cands))) else None;
    match Decide(Selected(cands, input.reply), f.width)
    case Center => CycleResult([Right, Stop, Stop, Forward], request, Continue)
    case Scan => CycleResult([Right, Stop], request, if input.stopKey then StopKey else Continue)
  }

  /** `ask_gpt_to_select_target`: build the request, receive the reply, read the index. */
  method AskToSelectTarget(frame: Image, crops: seq<Image>, desc: string, reply: Option<string>)
    returns (request: seq<Part>, idx: Option<nat>)
    ensures request == Prompt(desc, frame, crops)
    ensures idx == ParseReply(reply)
    ensures idx.Some? ==> idx.value < 10
  {
    request := BuildPrompt(desc, frame, crops);
    idx := ParseReply(reply);
  }

  /** One pass through the body of `while True`. */
  method RunCycle(act: Actuator, desc: string, input: CycleInput)
    returns (request: Option<seq<Part>>, end: CycleEnd)
    modifies act
    ensures act.sent == old(act.sent) + CycleSpec(desc, input).commands
    ensures request == CycleSpec(desc, input).request
    ensures end == CycleSpec(desc, input).end
  {
    act.Send(Right);
    act.Send(Stop);
    request := None;
    if input.capture.None? {
      return None, Continue;
    }
    var f := input.capture.value;
    var filtered := FilterCandidates(f.detections, desc);
    if filtered.NoTargetWord? {
      return None, Raised;
    }
    var cands := filtered.candidates;
    var idx: Option<nat> := None;
    if |cands| > 1 {
      var content;
      content, idx := AskToSelectTarget(FrameImage(f.id), Crops(f.id, cands), desc, input.reply);
      request := Some(content);
    }
    var target := SelectTarget(cands, idx);
    if Decide(target, f.width) == Center {
      act.Send(Stop);
      act.Send(Forward);
      return request, Continue;
    }
    end := if input.stopKey then StopKey else Continue;
  }

  /** A cycle sends the rotation burst and nothing more, or the burst followed by
      stop and forward; the latter exactly when a frame arrived, the filter did not
      raise and the selected box is centred. */
  lemma CycleCommands(desc: string, input: CycleInput)
    ensures var c := CycleSpec(desc, input);
      |c.commands| <= 4 && c.commands[..2] == [Right, Stop]
      && (c.commands == [Right, Stop] || c.commands == [Right, Stop, Stop, Forward])
      && (Forward in c.commands <==>
            input.capture.Some? && Filter(input.capture.value.detections, desc).Kept?
            && Decide(Selected(Filter(input.capture.value.detections, desc).candidates, input.reply),
                      input.capture.value.width) == Center)
      && (Forward in c.commands ==> c.end == Continue)
  {
  }

  /** With no candidate, or exactly one, the oracle is not asked; one candidate is then
      followed exactly when its own box is centred. */
  lemma UnambiguousCycle(desc: string, input: CycleInput, f: Frame)
    requires input.capture == Some(f)
    requires Filter(f.detections, desc).Kept? && |Filter(f.detections, desc).candidates| <= 1
    ensures CycleSpec(desc, input).request == None
    ensures Filter(f.detections, desc).candidates == [] ==> CycleSpec(desc, input).commands == [Right, Stop]
    ensures forall c :: Filter(f.detections, desc).candidates == [c] ==>
      (CycleSpec(desc, input).commands == [Right, Stop, Stop, Forward] <==> IsCentered(c.box, f.width))
  {
  }

  /** With several candidates, the cycle asks the oracle once, with the question, the
      frame and every candidate's crop in candidate order; it moves forward exactly when
      the reply's first visible character is a digit `d` indexing a candidate whose box
      is centred. */
  lemma AmbiguousCycle(desc: string, input: CycleInput, f: Frame)
    requires input.capture == Some(f)
    requires Filter(f.detections, desc).Kept? && |Filter(f.detections, desc).candidates| > 1
    ensures var cands := Filter(f.detections, desc).candidates;
      var c := CycleSpec(desc, input);
      c.request.Some? && |c.request.value| == 2 + 2 * |cands|
      && c.request.value[0] == TextPart(Question(desc))
      && c.request.value[1] == ImagePart(FrameImage(f.id))
      && (forall i :: 0 <= i < |cands| ==>
            c.request.value[2 + 2 * i] == TextPart(OptionLabel(i))
            && c.request.value[3 + 2 * i] == ImagePart(CropImage(f.id, cands[i].box)))
      && (input.reply.None? ==> c.commands == [Right, Stop])
      && (forall text :: input.reply == Some(text) ==>
            (c.commands == [Right, Stop, Stop, Forward] <==>
              exists k :: FirstVisibleAt(text, k) && IsDigit(text[k])
                && DigitValue(text[k]) < |cands| && IsCentered(cands[DigitValue(text[k])].box, f.width)))
  {
    var cands := Filter(f.detections, desc).candidates;
    assert CycleSpec(desc, input) == CandidateCycle(desc, f, cands, input);
    CandidateRequest(desc, f, cands);
    CandidateCommands(desc, f, cands, input);
  }

  /** The request for several candidates: the question, the frame, then each
      candidate's label and crop, in candidate order. */
  lemma CandidateRequest(desc: string, f: Frame, cands: seq<Detection>)
    ensures var p := Prompt(desc, FrameImage(f.id), Crops(f.id, cands));
      |p| == 2 + 2 * |cands|
      && p[0] == TextPart(Question(desc)) && p[1] == ImagePart(FrameImage(f.id))
      && forall i :: 0 <= i < |cands| ==>
           p[2 + 2 * i] == TextPart(OptionLabel(i)) && p[3 + 2 * i] == ImagePart(CropImage(f.id, cands[i].box))
  {
    var crops := Crops(f.id, cands);
    assert forall i :: 0 <= i < |cands| ==> crops[i] == CropImage(f.id, cands[i].box);
    PromptLayout(desc, FrameImage(f.id), crops);
  }

  /** With several candidates, a failed oracle call only scans, and a reply leads
      forward exactly when its first visible digit indexes a centred candidate. */
  lemma CandidateCommands(desc: string, f: Frame, cands: seq<Detection>, input: CycleInput)
    requires |cands| > 1
    ensures var c := CandidateCycle(desc, f, cands, input).commands;
      (input.reply.None? ==> c == [Right, Stop])
      && (forall text :: input.reply == Some(text) ==>
            (c == [Right, Stop, Stop, Forward] <==>
              exists k :: FirstVisibleAt(text, k) && IsDigit(text[k])
                && DigitValue(text[k]) < |cands| && IsCentered(cands[DigitValue(text[k])].box, f.width)))
  {
    if input.reply.Some? {
      var text := input.reply.value;
      AmbiguousSelection(cands, text);
      var idx := ParseReply(Some(text));
      if idx.Some? {
        ParseReplyDigit(text, idx.value);
      }
      if exists k :: FirstVisibleAt(text, k) && IsDigit(text[k])
          && DigitValue(text[k]) < |cands| && IsCentered(cands[DigitValue(text[k])].box, f.width) {
        var k :| FirstVisibleAt(text, k) && IsDigit(text[k])
          && DigitValue(text[k]) < |cands| && IsCentered(cands[DigitValue(text[k])].box, f.width);
        ParseReplyDigit(text, DigitValue(text[k]));
      }
    }
  }

  /** The ESC key is only polled on cycles that had a frame, did not raise, and did not
      move forward (the `continue` of line 119 skips the poll). */
  lemma StopKeyOnlyOnScan(desc: string, input: CycleInput)
    ensures CycleSpec(desc, input).end == StopKey <==>
      input.stopKey && input.capture.Some? && Filter(input.capture.value.detections, desc).Kept?
      && CycleSpec(desc, input).commands == [Right, Stop]
  {
  }

  // ---------------------------------------------------------------------------
  // The whole run (lines 62-137)

  /** How the program ends: the camera would not open (nothing is sent), the operator
      interrupted, the ESC key was pressed, or the filter's exception escaped the loop. */
  datatype Exit = NoCamera | Interrupted | StopKeyPressed | Crashed

  datatype RunResult = RunResult(commands: seq<Command>, exit: Exit)

  /** The meaning of each cycle, in order. */
  function CyclesOf(desc: string, inputs: seq<CycleInput>): (cycles: seq<CycleResult>)
    ensures |cycles| == |inputs|
  {
    if inputs == [] then [] else [CycleSpec(desc, inputs[0])] + CyclesOf(desc, inputs[1..])
  }

  lemma {:induction false} CyclesOfAt(desc: string, inputs: seq<CycleInput>, i: nat)
    requires i < |inputs|
    ensures CyclesOf(desc, inputs)[i] == CycleSpec(desc, inputs[i])
  {
    if i > 0 {
      CyclesOfAt(desc, inputs[1..], i - 1);
    }
  }

  /** The loop over the cycles and the `finally` clause: cycles run until one ends by the
      ESC key or an exception; the loop never ends on its own, so when the given cycles
      are used up it is the operator's interrupt that ends it. Either way the last
      command is the stop of line 134. */
  function RunOf(cycles: seq<CycleResult>): RunResult {
    if cycles == [] then RunResult([Stop], Interrupted)
    else
      var c := cycles[0];
      match c.end
      case Continue =>
        var rest := RunOf(cycles[1..]);
        RunResult(c.commands + rest.commands, rest.exit)
      case StopKey => RunResult(c.commands + [Stop], StopKeyPressed)
      case Raised => RunResult(c.commands + [Stop], Crashed)
  }

  function RunSpec(desc: string, inputs: seq<CycleInput>): RunResult {
    RunOf(CyclesOf(desc, inputs))
  }

  /** The script: open the camera (or leave), read and lower-case the description,
      then run the loop. */
  method Run(act: Actuator, cameraOpened: bool, operatorInput: string, inputs: seq<CycleInput>)
    returns (exit: Exit)
    modifies act
    ensures !cameraOpened ==> act.sent == old(act.sent) && exit == NoCamera
    ensures cameraOpened ==>
      act.sent == old(act.sent) + RunSpec(Lower(operatorInput), inputs).commands
      && exit == RunSpec(Lower(operatorInput), inputs).exit
  {
    if !cameraOpened {
      return NoCamera;
    }
    var desc := Lower(operatorInput);
    exit := Loop(act, desc, inputs);
  }

  /** Lines 70-134: cycle until the ESC key, an exception or the interrupt, then send
      the final stop of the `finally` clause. */
  method Loop(act: Actuator, desc: string, inputs: seq<CycleInput>) returns (exit: Exit)
    modifies act
    ensures act.sent == old(act.sent) + RunSpec(desc, inputs).commands
    ensures exit == RunSpec(desc, inputs).exit
  {
    ghost var cycles := CyclesOf(desc, inputs);
    var i := 0;
    while i < |inputs|
      invariant 0 <= i <= |inputs|
      invariant old(act.sent) + RunOf(cycles).commands == act.sent + RunOf(cycles[i..]).commands
      invariant RunOf(cycles).exit == RunOf(cycles[i..]).exit
    {
      var end := CycleAt(act, desc, inputs, i, cycles);
      RunOfStep(cycles, i);
      if end == StopKey {
        act.Send(Stop);
        return StopKeyPressed;
      } else if end == Raised {
        act.Send(Stop);
        return Crashed;
      }
      i := i + 1;
    }
    act.Send(Stop);
    exit := Interrupted;
  }

  /** Cycle `i` of the run: its commands are sent and its ending is returned. */
  method CycleAt(act: Actuator, desc: string, inputs: seq<CycleInput>, i: nat, ghost cycles: seq<CycleResult>)
    returns (end: CycleEnd)
    requires i < |inputs| && cycles == CyclesOf(desc, inputs)
    modifies act
    ensures act.sent == old(act.sent) + cycles[i].commands && end == cycles[i].end
  {
    CyclesOfAt(desc, inputs, i);
    var _, e := RunCycle(act, desc, inputs[i]);
    end := e;
  }

  /** One unfolding of the loop at cycle `i`: its commands, then either the rest of the
      run or the final stop. */
  lemma RunOfStep(cycles: seq<CycleResult>, i: nat)
    requires i < |cycles|
    ensures var c := cycles[i]; var r := RunOf(cycles[i..]); var rest := RunOf(cycles[i + 1..]);
      (c.end == Continue ==> r.commands == c.commands + rest.commands && r.exit == rest.exit)
      && (c.end == StopKey ==> r == RunResult(c.commands + [Stop], StopKeyPressed))
      && (c.end == Raised ==> r == RunResult(c.commands + [Stop], Crashed))
  {
    assert cycles[i..][0] == cycles[i];
    assert cycles[i..][1..] == cycles[i + 1..];
  }

  /** Every way out of the loop sends a final stop, and the run starts with a burst. */
  lemma {:induction false} RunEndsWithStop(desc: string, inputs: seq<CycleInput>)
    ensures var cmds := RunSpec(desc, inputs).commands;
      |cmds| > 0 && cmds[|cmds| - 1] == Stop
      && (inputs != [] ==> cmds[..2] == [Right, Stop])
  {
    var cycles := CyclesOf(desc, inputs);
    if inputs != [] {
      CycleCommands(desc, inputs[0]);
      CyclesOfAt(desc, inputs, 0);
    }
    RunOfEndsWithStop(cycles);
  }

  lemma {:induction false} RunOfEndsWithStop(cycles: seq<CycleResult>)
    ensures var cmds := RunOf(cycles).commands;
      |cmds| > 0 && cmds[|cmds| - 1] == Stop
      && (cycles != [] ==> cmds[..|cycles[0].commands|] == cycles[0].commands)
  {
    if cycles != [] && cycles[0].end == Continue {
      RunOfEndsWithStop(cycles[1..]);
    }
  }

  /** `n` rotation bursts. */
  function ScanBursts(n: nat): seq<Command> {
    if n == 0 then [] else [Right, Stop] + ScanBursts(n - 1)
  }

  /** A cycle that selects no target and keeps going: no frame, or a frame whose
      candidates yield no selection and no ESC key. */
  predicate Untargeted(desc: string, input: CycleInput) {
    match input.capture
    case None => true
    case Some(f) =>
      Filter(f.detections, desc).Kept?
      && Selected(Filter(f.detections, desc).candidates, input.reply) == None
      && !input.stopKey
  }

  /** `n` cycles that select no target send exactly `n` bursts, never forward, and then
      the final stop once the operator interrupts. */
  lemma {:induction false} UntargetedRun(desc: string, inputs: seq<CycleInput>)
    requires forall i :: 0 <= i < |inputs| ==> Untargeted(desc, inputs[i])
    ensures RunSpec(desc, inputs) == RunResult(ScanBursts(|inputs|) + [Stop], Interrupted)
    ensures Forward !in RunSpec(desc, inputs).commands
  {
    if inputs != [] {
      UntargetedRun(desc, inputs[1..]);
      assert Untargeted(desc, inputs[0]);
      assert CyclesOf(desc, inputs)[1..] == CyclesOf(desc, inputs[1..]);
    }
    NoForwardInBursts(|inputs|);
  }

  lemma {:induction false} NoForwardInBursts(n: nat)
    ensures Forward !in ScanBursts(n) && |ScanBursts(n)| == 2 * n
  {
    if n > 0 {
      NoForwardInBursts(n - 1);
    }
  }
}
