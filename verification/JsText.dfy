/** The parts of JavaScript's string trimming that the parsers rely on. */
module JsText {

  /** White space and line terminators removed by `String.prototype.trim`. */
  predicate IsSpace(c: char) {
    var code := c as int;
    || 9 <= code <= 13
    || code == 32
    || code == 160
    || code == 0x1680
    || 0x2000 <= code <= 0x200A
    || code == 0x2028
    || code == 0x2029
    || code == 0x202F
    || code == 0x205F
    || code == 0x3000
    || code == 0xFEFF
  }

  function TrimStart(text: string): (t: string)
    ensures t == "" || !IsSpace(t[0])
    ensures |t| <= |text| && t == text[|text| - |t|..]
  {
    if text != "" && IsSpace(text[0]) then TrimStart(text[1..]) else text
  }

  function TrimEnd(text: string): (t: string)
    ensures t == "" || !IsSpace(t[|t| - 1])
    ensures t <= text
  {
    if text != "" && IsSpace(text[|text| - 1]) then TrimEnd(text[..|text| - 1]) else text
  }

  function Trim(text: string): string {
    TrimEnd(TrimStart(text))
  }

  lemma NothingToTrim(text: string)
    requires text != "" && !IsSpace(text[0]) && !IsSpace(text[|text| - 1])
    ensures Trim(text) == text
  {
  }

  predicate Blank(text: string) {
    forall i :: 0 <= i < |text| ==> IsSpace(text[i])
  }

  lemma {:induction false} StartTrimmed(before: string, rest: string)
    requires Blank(before) && (rest == "" || !IsSpace(rest[0]))
    ensures TrimStart(before + rest) == rest
  {
    if before == "" {
      assert before + rest == rest;
    } else {
      assert (before + rest)[1..] == before[1..] + rest;
      StartTrimmed(before[1..], rest);
    }
  }

  lemma {:induction false} EndTrimmed(rest: string, after: string)
    requires Blank(after) && (rest == "" || !IsSpace(rest[|rest| - 1]))
    ensures TrimEnd(rest + after) == rest
  {
    if after == "" {
      assert rest + after == rest;
    } else {
      assert (rest + after)[..|rest + after| - 1] == rest + after[..|after| - 1];
      EndTrimmed(rest, after[..|after| - 1]);
    }
  }

  lemma {:induction false} StartIsBlank(text: string)
    ensures Blank(text[..|text| - |TrimStart(text)|])
  {
    if text != "" && IsSpace(text[0]) {
      StartIsBlank(text[1..]);
      var n := |text| - |TrimStart(text)|;
      assert text[..n] == [text[0]] + text[1..][..n - 1];
    }
  }

  lemma {:induction false} EndIsBlank(text: string)
    ensures Blank(text[|TrimEnd(text)|..])
  {
    if text != "" && IsSpace(text[|text| - 1]) {
      var rest := text[..|text| - 1];
      EndIsBlank(rest);
      assert text[|TrimEnd(text)|..] == rest[|TrimEnd(text)|..] + [text[|text| - 1]];
    }
  }

  /** Every text is its trimmed form between white space. */
  lemma TrimLeavesTheRest(text: string) returns (before: string, after: string)
    ensures Blank(before) && Blank(after) && text == before + Trim(text) + after
  {
    hide Blank, TrimStart, TrimEnd;
    var rest := TrimStart(text);
    var t := TrimEnd(rest);
    StartIsBlank(text);
    EndIsBlank(rest);
    before, after := text[..|text| - |rest|], rest[|t|..];
    CutInThree(text, |text| - |rest|, |t|);
  }

  lemma CutInThree(text: string, m: nat, n: nat)
    requires m + n <= |text|
    ensures text == text[..m] + text[m..][..n] + text[m..][n..]
  {
  }

  /** Trimming removes exactly the white space around the text. */
  lemma TrimRemovesTheSpace(before: string, text: string, after: string)
    requires Blank(before) && Blank(after)
    requires text != "" && !IsSpace(text[0]) && !IsSpace(text[|text| - 1])
    ensures Trim(before + text + after) == text
  {
    assert before + text + after == before + (text + after);
    StartTrimmed(before, text + after);
    EndTrimmed(text, after);
  }
}
