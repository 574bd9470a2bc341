/** A worked run of four cycles: a lone centred candidate, two candidates resolved by
    the oracle, two candidates with the oracle failing, and a frame with no detection. */
module Scenario {
  import opened Wrappers
  import opened Text
  import opened Perception
  import opened Oracle
  import opened Control

  /** The operator's description, already lower-cased. */
  const Target: string := "red ball"

  const Ball: Box := Box(100, 50, 200, 150)
  const LeftBall: Box := Box(0, 0, 40, 40)
  const MiddleBall: Box := Box(120, 0, 180, 60)

  /** "red ball" is matched through its last word. */
  lemma TargetWord()
    ensures LastToken(Target) == Some("ball")
  {
    var s := Target;
    assert TrimmedEnd(s) == 8;
    assert WordStart(s, 8) == 4 by {
      assert IsSpace(s[3]) && !IsSpace(s[4]) && !IsSpace(s[5]) && !IsSpace(s[6]) && !IsSpace(s[7]);
    }
    assert s[4..8] == "ball";
  }

  /** The detector's labels are lower-case already. */
  lemma LowerBall()
    ensures Lower("sports ball") == "sports ball"
  {
    var a := Lower("sports ball");
    forall k | 0 <= k < 11
      ensures a[k] == "sports ball"[k]
    {
      assert a[k] == LowerChar("sports ball"[k]);
    }
  }

  lemma LowerPerson()
    ensures Lower("person") == "person"
  {
    var p := Lower("person");
    forall k | 0 <= k < 6
      ensures p[k] == "person"[k]
    {
      assert p[k] == LowerChar("person"[k]);
    }
  }

  lemma BallInLabel()
    ensures Contains("sports ball", "ball")
    ensures !Contains("person", "ball")
  {
    var l := "sports ball";
    assert l[7..11] == "ball";
    assert OccursAt(l, "ball", 7);
    ContainsAt(l, "ball");
    assert "person"[..4][0] == 'p';
    assert "person"[1..] == "erson";
    assert "erson"[..4][0] == 'e';
    assert "erson"[1..] == "rson";
    assert "rson"[..4][0] == 'r';
    assert "rson"[1..] == "son";
    assert !Contains("son", "ball");
  }

  lemma BallMatches(conf: real, b: Box)
    requires conf > ConfidenceThreshold
    ensures Matches(Detection("sports ball", conf, b), "ball")
    ensures Lowered(Detection("sports ball", conf, b)) == Detection("sports ball", conf, b)
  {
    LowerBall();
    LowerPerson();
    BallInLabel();
  }

  lemma PersonDoesNotMatch(conf: real, b: Box)
    ensures !Matches(Detection("person", conf, b), "ball")
  {
    LowerBall();
    LowerPerson();
    BallInLabel();
  }

  /** Frame 1: a person, a ball scoring too low, and a ball scoring 0.9 whose box
      (100, 50, 200, 150) has centre 150 in the band [100, 200] of a 300-pixel frame. */
  const Cycle1 := CycleInput(Some(Frame(1, 300, [
      Detection("person", 0.95, Box(0, 0, 90, 200)),
      Detection("sports ball", 0.2, Box(250, 0, 290, 40)),
      Detection("sports ball", 0.9, Ball)])), Some("unused"), false)

  /** Frames 2 and 3: two balls; the oracle names option 1 for frame 2 and fails for frame 3. */
  const Pair := [Detection("sports ball", 0.8, LeftBall), Detection("sports ball", 0.7, MiddleBall)]
  const Cycle2 := CycleInput(Some(Frame(2, 300, Pair)), Some("1"), false)
  const Cycle3 := CycleInput(Some(Frame(3, 300, Pair)), None, false)

  /** Frame 4: nothing detected. */
  const Cycle4 := CycleInput(Some(Frame(4, 300, [])), Some("0"), false)

  lemma CandidatesOfTwo(d0: Detection, d1: Detection, word: string)
    requires Matches(d0, word) && Matches(d1, word)
    ensures CandidatesFor([d0, d1], word) == [Lowered(d0), Lowered(d1)]
  {
    assert [d0, d1][..1] == [d0];
    assert [d0][..0] == [];
    assert CandidatesFor([d0], word) == CandidatesFor([], word) + [Lowered(d0)];
  }

  lemma CandidatesOfThree(d0: Detection, d1: Detection, d2: Detection, word: string)
    requires !Matches(d0, word) && !Matches(d1, word) && Matches(d2, word)
    ensures CandidatesFor([d0, d1, d2], word) == [Lowered(d2)]
  {
    assert [d0, d1, d2][..2] == [d0, d1];
    assert [d0, d1][..1] == [d0];
    assert [d0][..0] == [];
    assert CandidatesFor([d0], word) == CandidatesFor([], word);
    assert CandidatesFor([d0, d1], word) == CandidatesFor([d0], word);
  }

  lemma FilterWith(dets: seq<Detection>, desc: string, word: string, cands: seq<Detection>)
    requires LastToken(desc) == Some(word) && CandidatesFor(dets, word) == cands
    ensures Filter(dets, desc) == Kept(cands)
  {
  }

  lemma PairCandidates()
    ensures Filter(Pair, Target) ==
      Kept([Detection("sports ball", 0.8, LeftBall), Detection("sports ball", 0.7, MiddleBall)])
  {
    TargetWord();
    BallMatches(0.8, LeftBall);
    BallMatches(0.7, MiddleBall);
    CandidatesOfTwo(Pair[0], Pair[1], "ball");
    FilterWith(Pair, Target, "ball",
      [Detection("sports ball", 0.8, LeftBall), Detection("sports ball", 0.7, MiddleBall)]);
  }

  lemma CycleWith(desc: string, input: CycleInput, f: Frame, cands: seq<Detection>)
    requires input.capture == Some(f) && Filter(f.detections, desc) == Kept(cands)
    ensures CycleSpec(desc, input) == CandidateCycle(desc, f, cands, input)
  {
  }

  /** Frame 1: only the confident ball survives, and it is centred. */
  lemma Cycle1Forward()
    ensures Filter(Cycle1.capture.value.detections, Target) == Kept([Detection("sports ball", 0.9, Ball)])
    ensures CycleSpec(Target, Cycle1) == CycleResult([Right, Stop, Stop, Forward], None, Continue)
  {
    var f := Cycle1.capture.value;
    var dets := f.detections;
    TargetWord();
    PersonDoesNotMatch(0.95, Box(0, 0, 90, 200));
    BallMatches(0.9, Ball);
    CandidatesOfThree(dets[0], dets[1], dets[2], "ball");
    var cands := [Detection("sports ball", 0.9, Ball)];
    FilterWith(dets, Target, "ball", cands);
    CycleWith(Target, Cycle1, f, cands);
    assert Selected(cands, Cycle1.reply) == Some(Ball);
    assert CenterX(Ball) == 150 && BandLeft(300) == 100 && BandRight(300) == 200;
  }

  lemma ReplyOne()
    ensures ParseReply(Some("1")) == Some(1)
  {
    assert TrimmedEnd("1") == 1;
    assert LeadingSpaces("1") == 0;
    assert Strip("1") == "1";
  }

  /** Only the first character of the reply is read: "10" names option 1, so with
      eleven or more candidates the options from 10 on can never be chosen. */
  lemma ReplyTen()
    ensures ParseReply(Some("10")) == Some(1)
  {
    assert TrimmedEnd("10") == 2;
    assert LeadingSpaces("10") == 0;
    assert Strip("10") == "10";
  }

  /** Frame 2: the oracle answers "1", selecting the second ball, which is centred. */
  lemma Cycle2Forward()
    ensures CycleSpec(Target, Cycle2).commands == [Right, Stop, Stop, Forward]
    ensures CycleSpec(Target, Cycle2).request.Some?
    ensures CycleSpec(Target, Cycle2).end == Continue
  {
    var f := Cycle2.capture.value;
    var cands := [Detection("sports ball", 0.8, LeftBall), Detection("sports ball", 0.7, MiddleBall)];
    PairCandidates();
    CycleWith(Target, Cycle2, f, cands);
    ReplyOne();
    assert Selected(cands, Cycle2.reply) == Some(MiddleBall);
    assert CenterX(MiddleBall) == 150 && BandLeft(300) == 100 && BandRight(300) == 200;
  }

  /** Frame 3: the oracle call fails, so nothing is selected and the robot scans on. */
  lemma Cycle3Scan()
    ensures CycleSpec(Target, Cycle3).commands == [Right, Stop]
    ensures CycleSpec(Target, Cycle3).request.Some?
    ensures CycleSpec(Target, Cycle3).end == Continue
  {
    var f := Cycle3.capture.value;
    var cands := [Detection("sports ball", 0.8, LeftBall), Detection("sports ball", 0.7, MiddleBall)];
    PairCandidates();
    CycleWith(Target, Cycle3, f, cands);
    assert Selected(cands, None) == None;
  }

  /** Frame 4: no detection, no oracle request, scan on. */
  lemma Cycle4Scan()
    ensures CycleSpec(Target, Cycle4) == CycleResult([Right, Stop], None, Continue)
  {
    var f := Cycle4.capture.value;
    TargetWord();
    FilterWith([], Target, "ball", []);
    CycleWith(Target, Cycle4, f, []);
  }

  lemma RunOfFour(c1: CycleResult, c2: CycleResult, c3: CycleResult, c4: CycleResult)
    requires c1.end == Continue && c2.end == Continue && c3.end == Continue && c4.end == Continue
    ensures RunOf([c1, c2, c3, c4]) ==
      RunResult(c1.commands + c2.commands + c3.commands + c4.commands + [Stop], Interrupted)
  {
    var cs := [c1, c2, c3, c4];
    assert cs[1..] == [c2, c3, c4];
    assert [c2, c3, c4][1..] == [c3, c4];
    assert [c3, c4][1..] == [c4];
    assert [c4][1..] == [];
    assert RunOf([c4]) == RunResult(c4.commands + [Stop], Interrupted);
    assert RunOf([c3, c4]) == RunResult(c3.commands + c4.commands + [Stop], Interrupted);
    assert RunOf([c2, c3, c4]) == RunResult(c2.commands + c3.commands + c4.commands + [Stop], Interrupted);
  }

  lemma RunOfFourInputs(desc: string, i1: CycleInput, i2: CycleInput, i3: CycleInput, i4: CycleInput)
    requires CycleSpec(desc, i1).end == Continue && CycleSpec(desc, i2).end == Continue
    requires CycleSpec(desc, i3).end == Continue && CycleSpec(desc, i4).end == Continue
    ensures RunSpec(desc, [i1, i2, i3, i4]) ==
      RunResult(CycleSpec(desc, i1).commands + CycleSpec(desc, i2).commands
        + CycleSpec(desc, i3).commands + CycleSpec(desc, i4).commands + [Stop], Interrupted)
  {
    var inputs := [i1, i2, i3, i4];
    var cycles := CyclesOf(desc, inputs);
    CyclesOfAt(desc, inputs, 0);
    CyclesOfAt(desc, inputs, 1);
    CyclesOfAt(desc, inputs, 2);
    CyclesOfAt(desc, inputs, 3);
    assert cycles == [CycleSpec(desc, i1), CycleSpec(desc, i2), CycleSpec(desc, i3), CycleSpec(desc, i4)];
    RunOfFour(cycles[0], cycles[1], cycles[2], cycles[3]);
  }

  /** The four cycles followed by the operator's interrupt: two forward moves, two
      scan-only cycles, and the final stop. */
  lemma ScenarioRun()
    ensures RunSpec(Target, [Cycle1, Cycle2, Cycle3, Cycle4]) ==
      RunResult([Right, Stop, Stop, Forward, Right, Stop, Stop, Forward, Right, Stop, Right, Stop, Stop],
                Interrupted)
  {
    Cycle1Forward();
    Cycle2Forward();
    Cycle3Scan();
    Cycle4Scan();
    RunOfFourInputs(Target, Cycle1, Cycle2, Cycle3, Cycle4);
    ScenarioCommands(CycleSpec(Target, Cycle1).commands, CycleSpec(Target, Cycle2).commands,
      CycleSpec(Target, Cycle3).commands, CycleSpec(Target, Cycle4).commands);
  }

  lemma ScenarioCommands(a: seq<Command>, b: seq<Command>, c: seq<Command>, d: seq<Command>)
    requires a == [Right, Stop, Stop, Forward] && b == [Right, Stop, Stop, Forward]
    requires c == [Right, Stop] && d == [Right, Stop]
    ensures a + b + c + d + [Stop] ==
      [Right, Stop, Stop, Forward, Right, Stop, Stop, Forward, Right, Stop, Right, Stop, Stop]
  {
  }
}
