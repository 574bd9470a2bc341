# robotpy decision core in Dafny

`robotpy.py` drives a small robot that searches for an object the operator names. The
robot works in cycles:

1. It rotates right in a short burst.
2. It takes one camera frame and runs an object detector on it.
3. It keeps the confident detections whose label contains the last word of the
   operator's description.
4. When several detections remain, it asks a vision-language oracle which one is meant.
5. When the chosen box is centred in the middle third of the frame, it sends `stop` and
   `forward`.

Whichever way the loop ends, it sends a final `stop`.

This project models the decision logic of that script and proves properties of it:

- **`Text`**: the Python string operations it relies on. These are `isspace`, `lower`,
  `split()[-1]`, `strip`, the substring test `in`, the one-digit `isdigit`/`int`, and the
  decimal rendering of an option number.
- **`Perception`**: detections and the candidate filter. `FilterCandidates` is a `while`
  loop, proved against the function `Filter`.
- **`Oracle`**: the disambiguation request and its reply. `BuildPrompt` is a `for` loop,
  proved against the function `Prompt`. `ParseReply` reads the reply.
- **`Control`**: target selection, the centring band, and the command channel. The
  channel is the class `Actuator`, holding the log `sent` of commands in issue order. The
  module also has one cycle of the loop (`RunCycle`, against `CycleSpec`) and the whole
  run (`Run` and `Loop`, against `RunSpec`).
- **`Scenario`**: a worked run of four cycles.

The world enters as values:

- each cycle gets a `CycleInput`: the frame (`None` when the capture fails), the
  oracle's reply (`None` when the call fails) and whether ESC is pressed when the display
  is polled;
- a frame carries its width and the detector's output;
- images are symbolic: the whole frame, or the crop to one box;
- the finite sequence of cycle inputs ends with the operator's `KeyboardInterrupt`.

An empty or all-blank description is not rejected at startup. `target_desc.split()[-1]`
is evaluated only for a detection scoring above the threshold, because `and`
short-circuits. So the first such detection raises `IndexError`, and that exception
leaves the loop through the `finally` clause, which sends `stop`. The model has this as
`FilterResult.NoTargetWord`, the cycle ending `Raised` and the run exiting `Crashed`.

## Model

| member | source | states |
|---|---|---|
| Text.LowerChar | robotpy.py:90 | a letter A-Z maps to its lower-case form and every other character is unchanged |
| Text.Lower | robotpy.py:68 | lower-casing keeps the length and lower-cases each character in place |
| Text.LowerIdempotent | robotpy.py:90 | lower-casing an already lower-cased string changes nothing |
| Text.TrimmedEnd | robotpy.py:92 | the position after the last non-space character: everything after it is white space |
| Text.LeadingSpaces | robotpy.py:55 | the length of the leading run of white space |
| Text.WordStart | robotpy.py:92 | the start of the maximal run of non-space characters that ends at a position |
| Text.LastTokenNone | robotpy.py:92 | `split()` gives no word (so `[-1]` raises) exactly when the string is all white space |
| Text.LastTokenSome | robotpy.py:92 | `LastToken` returns `t` exactly when `t` is the last maximal non-space run, with only white space after it |
| Text.LastTokenIsWord | robotpy.py:92 | the word found is non-empty and contains no white space |
| Text.Strip | robotpy.py:55 | the result is empty exactly when the input is all white space; otherwise it starts and ends with a non-space character and is the input with only white space removed at both ends |
| Text.ContainsAt | robotpy.py:92 | the substring test holds exactly when the needle occurs at some offset of the haystack |
| Text.DigitChar | robotpy.py:43 | the digit character for a value below 10 has that value |
| Text.NatToString | robotpy.py:43 | the rendering of a number is a non-empty string of decimal digits, with no leading zero: it starts with `0` only when it is exactly `0` |
| Text.DecimalRoundTrip | robotpy.py:43 | reading a rendered number back gives the number |
| Perception.FilterCandidates | robotpy.py:86-94 | the filtering loop returns what `Filter` specifies, including the `IndexError` when there is no target word and a detection scores above 0.3 |
| Perception.CandidatesAreSubsequence | robotpy.py:86-94 | each candidate has the lower-cased label, the confidence and the box of the detection at a kept position, the positions strictly increase, and a position is kept exactly when its detection scores above 0.3 and its lower-cased label contains the word |
| Perception.CandidatesSound | robotpy.py:92 | every candidate has confidence above 0.3 and a label containing the word |
| Perception.CandidatesComplete | robotpy.py:92-94 | every detection that passes both tests appears, lower-cased, among the candidates |
| Perception.FilterOutcome | robotpy.py:92 | the filter raises exactly when the description is all white space and some detection scores above 0.3; an all-blank description with no detection above 0.3 keeps no candidate; otherwise it keeps the candidates for the description's last word |
| Oracle.PromptLayout | robotpy.py:38-44 | the request has `2 + 2n` parts: the question, the frame, then for each option `i` in order its label followed by its crop |
| Oracle.OptionLabelIndex | robotpy.py:43 | the label of option `i` is `Option `, then digits reading as `i` with no leading zero (`0` alone for option 0), then `:` |
| Oracle.BuildPrompt | robotpy.py:38-44 | the appending loop produces exactly the layout of `Prompt` |
| Oracle.ParseReply | robotpy.py:55-60 | an index read from the reply is below 10 |
| Oracle.ParseReplyDigit | robotpy.py:55-57 | the reply names `d` exactly when its first non-space character is the digit `d` |
| Oracle.ParseReplyNone | robotpy.py:55-60 | a reply of only white space, or one whose first visible character is not a digit, names nothing |
| Control.SelectTarget | robotpy.py:96-105 | no candidate selects nothing; one selects its own box; among several, something is selected exactly when the index is present and in range, and then it is that candidate's box; anything selected is some candidate's box |
| Control.SelectionIgnoresUnaskedOracle | robotpy.py:96-99 | with at most one candidate the reply has no effect on the selection |
| Control.AmbiguousSelection | robotpy.py:99-105 | among several candidates, option `d` is taken exactly when the reply's first visible character is the digit `d`; something is selected exactly when that digit indexes a candidate; a failed call selects nothing |
| Control.Decide | robotpy.py:107-124 | the cycle goes forward exactly when a box is selected and `w//3 <= (x1+x2)//2 <= 2*w//3` |
| Control.BandInclusive | robotpy.py:83 | the band lies within the frame, is not empty, and includes both of its ends but nothing beyond them |
| Control.Actuator.constructor | robotpy.py:24-29 | the command log starts empty |
| Control.Actuator.Send | robotpy.py:24-29 | sending appends exactly that command to the log |
| Control.AskToSelectTarget | robotpy.py:37-60 | the request is the `Prompt` layout and the index is the parsed reply, below 10 |
| Control.RunCycle | robotpy.py:72-129 | one pass through the loop body sends exactly the commands of `CycleSpec`, makes its oracle request and ends as it specifies |
| Control.CycleCommands | robotpy.py:73-80 | a cycle sends `[right, stop]` or `[right, stop, stop, forward]`, never more than four commands; it sends `forward` exactly when a frame arrived, the filter did not raise and the selected box is centred; a forward cycle always continues |
| Control.UnambiguousCycle | robotpy.py:96-99 | with at most one candidate no request is made; with none the cycle only scans; with one it goes forward exactly when that box is centred |
| Control.AmbiguousCycle | robotpy.py:99-119 | with several candidates the request holds the question, the frame and each candidate's crop in order; a failed call only scans; otherwise the cycle goes forward exactly when the reply's first visible digit indexes a centred candidate |
| Control.CandidateRequest | robotpy.py:38-44 | the request for several candidates is the question, the frame, then for each candidate `i` in order the label `Option i:` and the crop to that candidate's box |
| Control.CandidateCommands | robotpy.py:103-119 | with several candidates, a failed oracle call only scans, and a reply leads forward exactly when its first visible digit indexes a centred candidate |
| Control.StopKeyOnlyOnScan | robotpy.py:119-129 | ESC ends the loop only on a cycle that had a frame, did not raise and only scanned |
| Control.CyclesOf | robotpy.py:71 | there is one cycle result per cycle input |
| Control.CyclesOfAt | robotpy.py:71 | the `i`-th cycle of the run has the meaning `CycleSpec` gives the `i`-th input |
| Control.Run | robotpy.py:63-137 | without a camera nothing is sent; otherwise the log gains exactly the commands of `RunSpec` for the lower-cased description, and the exit is as `RunSpec` says |
| Control.Loop | robotpy.py:70-134 | the loop and its `finally` clause append exactly the commands of `RunSpec` and exit as it says |
| Control.CycleAt | robotpy.py:72-129 | one loop pass sends the commands of that input's cycle and reports how it ended |
| Control.RunOfStep | robotpy.py:71-134 | a continuing cycle is followed by the rest of the run; ESC or an exception is followed only by the final `stop` |
| Control.RunEndsWithStop | robotpy.py:131-134 | every way out of the loop ends the log with `stop`, and a run with a cycle begins with `right, stop` |
| Control.RunOfEndsWithStop | robotpy.py:133-134 | the run's commands end with `stop` and begin with the first cycle's commands |
| Control.UntargetedRun | robotpy.py:71-124 | `n` cycles that select no target send exactly `n` `right, stop` bursts, never `forward`, then the final `stop` |
| Control.NoForwardInBursts | robotpy.py:73-75 | `n` bursts are `2n` commands and none of them is `forward` |
| Scenario.TargetWord | robotpy.py:92 | the last word of "red ball" is "ball" |
| Scenario.Cycle1Forward | robotpy.py:86-119 | of a person, a ball at 0.2 and a centred ball at 0.9, only the last is kept, and the cycle goes forward |
| Scenario.ReplyTen | robotpy.py:57 | the reply "10" names option 1 |
| Scenario.Cycle2Forward | robotpy.py:99-119 | two balls and the reply "1" select the second ball, which is centred, so the cycle goes forward |
| Scenario.Cycle3Scan | robotpy.py:99-105 | two balls and a failed oracle call select nothing, so the cycle scans |
| Scenario.Cycle4Scan | robotpy.py:96-124 | a frame with no detection makes no request and only scans |
| Scenario.ScenarioRun | robotpy.py:70-134 | the four cycles and the interrupt send 13 commands: two forward cycles, two scans, then the final `stop` |

## Left out

- The object detector (robotpy.py:20-21, 85, 89-93) is a foreign model, so detections
  are an input with integer boxes. The `int()` truncation of float coordinates is not
  modelled.
- The oracle request (robotpy.py:47-54) is a network call. Its outcome is an optional
  reply string per cycle, and `None` stands for every exception and for a missing
  message content.
- JPEG and base64 encoding and the crop slicing (robotpy.py:31-35, 101-102) are library
  codecs, so images are symbolic values. Because of this, no exception is modelled for an
  empty or inverted box (which `cv2` may reject).
- HTTP delivery in `send_command` (robotpy.py:24-29) swallows failures. The `Actuator`
  log therefore records commands issued, whether or not they were delivered. The message
  printed on a failure is not modelled.
- Camera setup and capture, drawing, display, `time.sleep` and the release calls
  (robotpy.py:63-66, 74, 78, 110-112, 116, 127, 135-136) are I/O and timing. The capture
  result and the ESC key are per-cycle inputs.
- `KeyboardInterrupt` (robotpy.py:131-132) is modelled only between cycles, as the end
  of the input sequence. An interrupt in the middle of a cycle would cut that cycle's
  commands short, and signals are not modelled.
- `conf` is a real compared exactly with 0.3. Floating-point rounding is not modelled.
- Text.LowerChar: lower-cases only the ASCII letters A-Z. Every other character is left
  unchanged, unlike Python's Unicode `lower()`.
- Text.Lower: built on Text.LowerChar, so it shares that restriction. Python can also
  change length when lower-casing, and this is not modelled. The detector's class names
  are ASCII, but the operator's description (robotpy.py:68) goes through the same
  function and need not be. For example, Python lower-cases U+212A KELVIN SIGN to `k`,
  so the description "\u212Aite" matches the label "kite" in the script but not in the
  model.
- Oracle.ParseReply: reads only ASCII digits. In the source, another Unicode digit either
  gives its value through `int` or raises `ValueError`, which is caught and becomes
  `None`.
- The startup prompt (robotpy.py:68) is an input string. Its echo and every `print` are
  not modelled.
