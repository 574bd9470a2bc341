/** The disambiguation request of `ask_gpt_to_select_target` (robotpy.py lines 37-60):
    the message parts sent to the oracle and the reading of its free-text reply. */
module Oracle {
  import opened Wrappers
  import opened Text
  import opened Perception

  /** An image sent to the oracle, named by what was encoded: the whole frame, or the
      crop of the frame to one candidate's box. */
  datatype Image = FrameImage(frame: nat) | CropImage(frame: nat, box: Box)

  /** One entry of the `content` list: a text part or an image part. */
  datatype Part = TextPart(text: string) | ImagePart(image: Image)

  /** The question placed first in the request. */
  function Question(desc: string): string {
    "Which of the following is the '" + desc + "'? Reply with index (0, 1, 2...)"
  }

  /** The text part that introduces option `i`. */
  function OptionLabel(i: nat): string {
    "Option " + NatToString(i) + ":"
  }

  /** The request content for the frame and the crops, as the loop leaves it. */
  function Prompt(desc: string, frame: Image, crops: seq<Image>): seq<Part> {
    if crops == [] then [TextPart(Question(desc)), ImagePart(frame)]
    else
      var i := |crops| - 1;
      Prompt(desc, frame, crops[..i]) + [TextPart(OptionLabel(i)), ImagePart(crops[i])]
  }

  /** The request has `2 + 2 * |crops|` parts: the question, the frame, and then for
      each option in order its label followed by its crop. */
  lemma {:induction false} PromptLayout(desc: string, frame: Image, crops: seq<Image>)
    ensures var p := Prompt(desc, frame, crops);
      |p| == 2 + 2 * |crops|
      && p[0] == TextPart(Question(desc)) && p[1] == ImagePart(frame)
      && forall i :: 0 <= i < |crops| ==>
           p[2 + 2 * i] == TextPart(OptionLabel(i)) && p[3 + 2 * i] == ImagePart(crops[i])
  {
    if crops != [] {
      var n := |crops| - 1;
      PromptLayout(desc, frame, crops[..n]);
      var p0 := Prompt(desc, frame, crops[..n]);
      var p := Prompt(desc, frame, crops);
      assert p == p0 + [TextPart(OptionLabel(n)), ImagePart(crops[n])];
      forall i | 0 <= i < |crops|
        ensures p[2 + 2 * i] == TextPart(OptionLabel(i)) && p[3 + 2 * i] == ImagePart(crops[i])
      {
        if i < n {
          assert p[2 + 2 * i] == p0[2 + 2 * i] && p[3 + 2 * i] == p0[3 + 2 * i];
          assert crops[..n][i] == crops[i];
        }
      }
    }
  }

  /** The number in an option's label is that option's index. */
  lemma OptionLabelIndex(i: nat)
    ensures var l := OptionLabel(i);
      |l| >= 9 && l[..7] == "Option " && l[|l| - 1] == ':'
      && (forall k :: 7 <= k < |l| - 1 ==> IsDigit(l[k]))
      && DecimalValue(l[7..|l| - 1]) == i
      && (l[7] == '0' ==> i == 0)
      && (|l| > 9 ==> l[7] != '0')
  {
    var l := OptionLabel(i);
    assert l[7..|l| - 1] == NatToString(i);
    DecimalRoundTrip(i);
  }

  /** Lines 38-44: the content list, grown by appending an option label and a crop per
      candidate. */
  method BuildPrompt(desc: string, frame: Image, crops: seq<Image>) returns (content: seq<Part>)
    ensures content == Prompt(desc, frame, crops)
  {
    content := [TextPart(Question(desc)), ImagePart(frame)];
    for i := 0 to |crops|
      invariant content == Prompt(desc, frame, crops[..i])
    {
      assert crops[..i + 1][..i] == crops[..i];
      content := content + [TextPart(OptionLabel(i)), ImagePart(crops[i])];
    }
    assert crops[..|crops|] == crops;
  }

  /** Lines 55-60: the index the oracle's reply names. `None` for the reply stands for
      every failure of the call (an exception, or a reply without text content); an
      empty stripped reply raises `IndexError` at `reply[0]`, which is caught too. */
  function ParseReply(reply: Option<string>): (idx: Option<nat>)
    ensures idx.Some? ==> idx.value < 10
  {
    match reply
    case None => None
    case Some(text) =>
      var s := Strip(text);
      if s == [] then None
      else if IsDigit(s[0]) then Some(DigitValue(s[0]))
      else None
  }

  /** `text[k]` is the first character of `text` that is not white space. */
  predicate FirstVisibleAt(text: string, k: int) {
    0 <= k < |text| && !IsSpace(text[k]) && forall j :: 0 <= j < k ==> IsSpace(text[j])
  }

  /** The reply names index `d` exactly when its first non-space character is the
      digit `d`. */
  lemma ParseReplyDigit(text: string, d: nat)
    ensures ParseReply(Some(text)) == Some(d) <==>
      exists k :: FirstVisibleAt(text, k) && IsDigit(text[k]) && DigitValue(text[k]) == d
  {
    var s := Strip(text);
    var b :| StrippedAt(text, s, b);
    if ParseReply(Some(text)) == Some(d) {
      assert text[b] == s[0];
      assert FirstVisibleAt(text, b);
    }
    if exists k :: FirstVisibleAt(text, k) && IsDigit(text[k]) && DigitValue(text[k]) == d {
      var k :| FirstVisibleAt(text, k) && IsDigit(text[k]) && DigitValue(text[k]) == d;
      assert s != [];
      assert text[b] == s[0];
      assert k == b;
    }
  }

  /** A reply of only white space, or one whose first visible character is not a digit,
      names no index. */
  lemma ParseReplyNone(text: string)
    ensures AllSpace(text) ==> ParseReply(Some(text)) == None
    ensures forall k :: FirstVisibleAt(text, k) && !IsDigit(text[k]) ==> ParseReply(Some(text)) == None
  {
    var s := Strip(text);
    var b :| StrippedAt(text, s, b);
    forall k | FirstVisibleAt(text, k) && !IsDigit(text[k])
      ensures ParseReply(Some(text)) == None
    {
      assert s != [];
      assert text[b] == s[0];
      assert k == b;
    }
  }
}
