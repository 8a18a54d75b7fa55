/** The three-state line assembler of at_process (src/at.c), and the splitting of a byte stream
    into lines that it implements. */
module LineFsm {
  import opened Common

  datatype Phase = Start | Data | AfterCr

  datatype Fsm = Fsm(phase: Phase, line: string)

  const IDLE := Fsm(Start, "")

  /** line_buf has room for max - 1 characters and a terminator. */
  function Append(line: string, b: char, max: nat): string {
    if |line| + 1 < max then line + [b] else line
  }

  /** One byte through the assembler; a completed line is handed on. */
  function Step(f: Fsm, b: char, max: nat): (Fsm, Option<string>) {
    match f.phase
    case Start =>
      if b == CR || b == LF then (f, None) else (Fsm(Data, [b]), None)
    case Data =>
      if b == CR then (f.(phase := AfterCr), None)
      else if b == LF then (IDLE, Some(f.line))
      else (Fsm(Data, Append(f.line, b, max)), None)
    case AfterCr =>
      if b == LF then (IDLE, Some(f.line))
      else if b == ' ' && f.line == ">" then (IDLE, Some("> "))
      else (Fsm(Data, Append(f.line, b, max)), None)
  }

  function Lines(line: Option<string>): seq<string> {
    if line.Some? then [line.value] else []
  }

  /** A whole byte stream through the assembler. */
  function Run(f: Fsm, bytes: string, max: nat): (Fsm, seq<string>) {
    if bytes == "" then (f, [])
    else
      var (g, before) := Run(f, bytes[..|bytes| - 1], max);
      var (h, line) := Step(g, bytes[|bytes| - 1], max);
      (h, before + Lines(line))
  }

  ghost predicate Consistent(f: Fsm, max: nat) {
    (f.phase == Start <==> f.line == "") && |f.line| < max
  }

  lemma StepConsistent(f: Fsm, b: char, max: nat)
    requires Consistent(f, max) && max >= 8
    ensures Consistent(Step(f, b, max).0, max)
    ensures Step(f, b, max).1.Some? ==> 1 <= |Step(f, b, max).1.value| < max
  {
  }

  // ---------------------------------------------------------------- the specification

  /** Inside a line a CR is dropped and makes the character after it literal. */
  function Unescape(s: string): string {
    if s == "" then ""
    else if s[0] != CR then [s[0]] + Unescape(s[1..])
    else if |s| == 1 then ""
    else [s[1]] + Unescape(s[2..])
  }

  /** Does s end in a CR that has not made a character literal? */
  predicate OpenCr(s: string) {
    if s == "" then false
    else if s[0] != CR then OpenCr(s[1..])
    else |s| == 1 || OpenCr(s[2..])
  }

  function LfIndex(s: string): (k: nat)
    ensures k <= |s| && LF !in s[..k] && (k < |s| ==> s[k] == LF)
  {
    if s == "" || s[0] == LF then 0
    else
      var k := LfIndex(s[1..]);
      assert s[..k + 1] == [s[0]] + s[1..][..k];
      k + 1
  }

  predicate PromptFirst(s: string) {
    |s| >= 3 && s[0] == '>' && s[1] == CR && s[2] == ' '
  }

  function Truncated(s: string, max: nat): string {
    if max == 0 then "" else Take(s, max - 1)
  }

  /** The lines of a byte stream: runs up to the next LF, leading CRs and LFs skipped; only the
      prompt `>` CR space ends without one. */
  function Split(s: string, max: nat): seq<string>
    decreases |s|
  {
    if s == "" then []
    else if s[0] == CR || s[0] == LF then Split(s[1..], max)
    else if PromptFirst(s) then ["> "] + Split(s[3..], max)
    else
      var k := LfIndex(s);
      if k == |s| then [] else [Truncated(Unescape(s[..k]), max)] + Split(s[k + 1..], max)
  }

  /** What follows the last complete line. */
  function Remainder(s: string): string
    decreases |s|
  {
    if s == "" then ""
    else if s[0] == CR || s[0] == LF then Remainder(s[1..])
    else if PromptFirst(s) then Remainder(s[3..])
    else
      var k := LfIndex(s);
      if k == |s| then s else Remainder(s[k + 1..])
  }

  /** The assembler in the middle of a line. */
  function Partial(s: string, max: nat): Fsm {
    if s == "" then IDLE
    else Fsm(if OpenCr(s) then AfterCr else Data, Truncated(Unescape(s), max))
  }

  // ---------------------------------------------------------------- refinement

  lemma {:induction false} RunConcat(f: Fsm, a: string, b: string, max: nat)
    ensures var (g, before) := Run(f, a, max);
            var (h, after) := Run(g, b, max);
            Run(f, a + b, max) == (h, before + after)
  {
    if b == "" {
      assert a + b == a;
      assert Run(f, a, max).1 + [] == Run(f, a, max).1;
    } else {
      var last := |b| - 1;
      RunConcat(f, a, b[..last], max);
      assert (a + b)[..|a + b| - 1] == a + b[..last];
      var (g, before) := Run(f, a, max);
      var (h, after) := Run(g, b[..last], max);
      var line := Step(h, b[last], max).1;
      assert before + (after + Lines(line)) == (before + after) + Lines(line);
    }
  }

  /** Consuming the first byte of s, then the rest. */
  lemma RunFirst(f: Fsm, s: string, max: nat, g: Fsm, line: Option<string>, h: Fsm, after: seq<string>)
    requires s != "" && Step(f, s[0], max) == (g, line) && Run(g, s[1..], max) == (h, after)
    ensures Run(f, s, max) == (h, Lines(line) + after)
  {
    var first := [s[0]];
    assert s == first + s[1..];
    assert first[..0] == "";
    assert Run(f, first, max) == (g, Lines(line)) by {
      assert [] + Lines(line) == Lines(line);
    }
    RunConcat(f, first, s[1..], max);
  }

  lemma RunSilent(f: Fsm, s: string, max: nat, g: Fsm, h: Fsm, after: seq<string>)
    requires s != "" && Step(f, s[0], max) == (g, None) && Run(g, s[1..], max) == (h, after)
    ensures Run(f, s, max) == (h, after)
  {
    RunFirst(f, s, max, g, None, h, after);
    assert [] + after == after;
  }

  lemma AppendTruncated(line: string, b: char, rest: string, max: nat)
    requires |line| < max
    ensures Truncated(Append(line, b, max) + rest, max) == Truncated(line + ([b] + rest), max)
  {
    assert line + ([b] + rest) == (line + [b]) + rest;
  }

  /** Within a line the assembler collects the unescaped characters. */
  lemma {:induction false} RunWithin(line: string, s: string, max: nat)
    requires max >= 8 && 1 <= |line| < max && LF !in s
    requires !(line == ">" && |s| >= 2 && s[0] == CR && s[1] == ' ')
    ensures Run(Fsm(Data, line), s, max)
            == (Fsm(if OpenCr(s) then AfterCr else Data, Truncated(line + Unescape(s), max)), [])
    decreases |s|
  {
    var end := Fsm(if OpenCr(s) then AfterCr else Data, Truncated(line + Unescape(s), max));
    if s == "" {
      assert line + "" == line;
    } else if s[0] != CR {
      AppendTruncated(line, s[0], Unescape(s[1..]), max);
      RunWithin(Append(line, s[0], max), s[1..], max);
      RunSilent(Fsm(Data, line), s, max, Fsm(Data, Append(line, s[0], max)), end, []);
    } else if |s| == 1 {
      assert line + "" == line;
      RunSilent(Fsm(Data, line), s, max, Fsm(AfterCr, line), end, []);
    } else {
      AppendTruncated(line, s[1], Unescape(s[2..]), max);
      RunWithin(Append(line, s[1], max), s[2..], max);
      RunLiteral(line, s, max, end);
    }
  }

  /** A CR and the character it makes literal. */
  lemma RunLiteral(line: string, s: string, max: nat, end: Fsm)
    requires |s| >= 2 && s[0] == CR && s[1] != LF && !(line == ">" && s[1] == ' ')
    requires Run(Fsm(Data, Append(line, s[1], max)), s[2..], max) == (end, [])
    ensures Run(Fsm(Data, line), s, max) == (end, [])
  {
    assert s[1..][1..] == s[2..];
    RunSilent(Fsm(AfterCr, line), s[1..], max, Fsm(Data, Append(line, s[1], max)), end, []);
    RunSilent(Fsm(Data, line), s, max, Fsm(AfterCr, line), end, []);
  }

  /** A line's worth of bytes from the start state. */
  lemma RunLine(s: string, max: nat)
    requires max >= 8 && s != "" && s[0] != CR && LF !in s && !PromptFirst(s)
    ensures Run(IDLE, s, max) == (Partial(s, max), [])
  {
    assert [s[0]] + Unescape(s[1..]) == Unescape(s);
    RunWithin([s[0]], s[1..], max);
    RunSilent(IDLE, s, max, Fsm(Data, [s[0]]), Partial(s, max), []);
  }

  lemma RunPrompt(s: string, max: nat)
    requires max >= 8 && PromptFirst(s)
    ensures Run(IDLE, s, max) == (Run(IDLE, s[3..], max).0, ["> "] + Run(IDLE, s[3..], max).1)
  {
    var s1, s2, s3 := s[1..], s[2..], s[3..];
    assert s1[1..] == s2 && s2[1..] == s3;
    var (h, after) := Run(IDLE, s3, max);
    RunFirst(Fsm(AfterCr, ">"), s2, max, IDLE, Some("> "), h, after);
    RunSilent(Fsm(Data, ">"), s1, max, Fsm(AfterCr, ">"), h, ["> "] + after);
    RunSilent(IDLE, s, max, Fsm(Data, ">"), h, ["> "] + after);
  }

  /** The assembler computes exactly the lines of the stream, however long, and keeps exactly
      the unfinished line. */
  lemma {:induction false} RunIsSplit(s: string, max: nat)
    requires max >= 8
    ensures Run(IDLE, s, max) == (Partial(Remainder(s), max), Split(s, max))
    decreases |s|
  {
    var end := (Partial(Remainder(s), max), Split(s, max));
    if s == "" {
    } else if s[0] == CR || s[0] == LF {
      RunIsSplit(s[1..], max);
      RunSilent(IDLE, s, max, IDLE, end.0, end.1);
    } else if PromptFirst(s) {
      RunPrompt(s, max);
      RunIsSplit(s[3..], max);
    } else {
      var k := LfIndex(s);
      var text, rest := s[..k], s[k..];
      assert s == text + rest;
      RunLine(text, max);
      if k == |s| {
        assert text == s;
      } else {
        assert rest[1..] == s[k + 1..];
        RunIsSplit(rest[1..], max);
        RunFirst(Partial(text, max), rest, max, IDLE, Some(Partial(text, max).line), end.0, Split(rest[1..], max));
        RunConcat(IDLE, text, rest, max);
        assert [] + end.1 == end.1;
      }
    }
  }

  /** `>` and a space, the prompt as 3GPP TS 27.005 has it, are not handed on before an LF. */
  lemma PromptNeedsLf(rest: string, max: nat)
    requires max >= 8
    ensures Run(IDLE, "> " + rest, max).1 != [] <==> LF in rest
  {
    var s := "> " + rest;
    RunIsSplit(s, max);
    assert s[..2] == "> " && s[2..] == rest && !PromptFirst(s);
    var k := LfIndex(s);
    if k < |s| {
      assert rest[k - 2] == LF;
    }
  }

  /** Hence the lines do not depend on how the bytes are grouped, and once a line has ended the
      bytes before it have no influence. */
  lemma Resynchronises(before: string, s: string, max: nat)
    requires max >= 8 && Remainder(before) == ""
    ensures Split(before + s, max) == Split(before, max) + Split(s, max)
    ensures Remainder(before + s) == "" <==> Remainder(s) == ""
  {
    RunIsSplit(before, max);
    RunIsSplit(s, max);
    RunIsSplit(before + s, max);
    RunConcat(IDLE, before, s, max);
  }
}
