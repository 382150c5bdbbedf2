/**
 * The logical-line reader: it prompts for physical lines until one does not end
 * in a backslash, drops that backslash from every continued line, indents the
 * continuation lines, joins them and strips the result. An empty result is read
 * again from scratch; `exit` or `quit` typed as the first line ends the session.
 *
 * The terminal is the finite sequence of physical lines the user will type. When
 * it runs out, reading ends with `Eof`; the interrupt raised for `exit`/`quit` is
 * the result `Interrupt`.
 */
module Keyboard {
  import opened Wrappers
  import opened Strings

  datatype Read = Line(text: string) | Interrupt | Eof

  /** What one call returns, how many physical lines it consumed and the prompts it showed. */
  datatype Session = Session(result: Read, consumed: nat, prompts: seq<string>)

  /** How the reading loop of one attempt stopped. */
  datatype Ending = Complete | Interrupted | RanOut

  const FIRST_PROMPT: string := "# "
  const MORE_PROMPT: string := "... "
  const INDENT: string := "    "

  /** The prompts of `n` successive reads of one logical line. */
  function Prompts(n: nat): (r: seq<string>)
    ensures |r| == n
  {
    if n == 0 then [] else Prompts(n - 1) + [if n == 1 then FIRST_PROMPT else MORE_PROMPT]
  }

  /** The first read shows `# `, every later one `... `. */
  lemma {:induction false} PromptsSpec(n: nat)
    ensures forall k :: 0 <= k < n ==> Prompts(n)[k] == if k == 0 then FIRST_PROMPT else MORE_PROMPT
  {
    if n > 0 {
      PromptsSpec(n - 1);
    }
  }

  predicate IsExit(cmd: string) {
    cmd == "exit" || cmd == "quit"
  }

  predicate Continued(cmd: string) {
    EndsWith(cmd, "\\")
  }

  /** A continued line without its final backslash. */
  function DropBackslash(cmd: string): string
    requires Continued(cmd)
  {
    cmd[..|cmd| - 1]
  }

  /** The pieces read from a later position, with the pieces already read in front. */
  function Prepend(done: seq<string>, r: Option<seq<string>>): (p: Option<seq<string>>)
    ensures p.Some? <==> r.Some?
    ensures p.Some? ==> |p.value| == |done| + |r.value|
  {
    match r
    case None => None
    case Some(rest) => Some(done + rest)
  }

  /** The pieces of one logical line read from `t`, physical line by physical line:
      `None` when `t` runs out before a line that is not continued. */
  function Gather(t: seq<string>): (r: Option<seq<string>>)
    ensures r.Some? ==> 0 < |r.value| <= |t|
    decreases |t|
  {
    if t == [] then None
    else
      var cmd := RStrip(t[0]);
      if !Continued(cmd) then Some([cmd])
      else Prepend([DropBackslash(cmd)], Gather(t[1..]))
  }

  /** Reading stops at the first physical line that, right-stripped, does not end in
      a backslash: every line before it is continued and loses exactly its final
      backslash, that line is kept whole, and nothing after it is read. Without
      such a line the terminal runs out first. */
  lemma {:induction false} GatherSpec(t: seq<string>)
    ensures var r := Gather(t);
      && (r.Some? ==>
            && (forall j :: 0 <= j < |r.value| - 1 ==>
                  Continued(RStrip(t[j])) && r.value[j] == DropBackslash(RStrip(t[j])))
            && !Continued(RStrip(t[|r.value| - 1])) && r.value[|r.value| - 1] == RStrip(t[|r.value| - 1]))
      && (r.None? ==> forall j :: 0 <= j < |t| ==> Continued(RStrip(t[j])))
    decreases |t|
  {
    if t != [] && Continued(RStrip(t[0])) {
      GatherSpec(t[1..]);
      assert forall j :: 1 <= j < |t| ==> t[j] == t[1..][j - 1];
    }
  }

  /** The pieces as they are joined: continuation pieces get four spaces in front. */
  function Indented(pieces: seq<string>): (r: seq<string>)
    ensures |r| == |pieces|
  {
    if |pieces| <= 1 then pieces
    else Indented(pieces[..|pieces| - 1]) + [INDENT + pieces[|pieces| - 1]]
  }

  /** The first piece is kept as it is; every later one gets four spaces in front. */
  lemma {:induction false} IndentedSpec(pieces: seq<string>)
    ensures forall i :: 0 <= i < |pieces| ==>
      Indented(pieces)[i] == if i == 0 then pieces[0] else INDENT + pieces[i]
  {
    if |pieces| > 1 {
      var init := pieces[..|pieces| - 1];
      IndentedSpec(init);
      assert forall i :: 0 <= i < |init| ==> init[i] == pieces[i];
    }
  }

  function Assemble(pieces: seq<string>): string {
    Strip(Join(Indented(pieces), "\n"))
  }

  /** One pass of the reading loop and the assembly after it; the text may be empty. */
  function Attempt(t: seq<string>): (s: Session)
    ensures s.result.Line? ==> 0 < s.consumed <= |t| && s.prompts == Prompts(s.consumed)
    ensures s.result.Eof? ==> s.consumed == |t| && s.prompts == Prompts(|t| + 1)
    ensures s.result.Interrupt? ==> s.consumed == 1 && s.prompts == Prompts(1)
  {
    if t != [] && IsExit(RStrip(t[0])) then Session(Interrupt, 1, Prompts(1))
    else
      match Gather(t)
      case None => Session(Eof, |t|, Prompts(|t| + 1))
      case Some(pieces) => Session(Line(Assemble(pieces)), |pieces|, Prompts(|pieces|))
  }

  /** `Keyboard.input` on the terminal `t`: attempts are repeated while they give
      an empty line. */
  function Logical(t: seq<string>): Session
    decreases |t|
  {
    var a := Attempt(t);
    if a.result == Line("") then
      var rest := Logical(t[a.consumed..]);
      Session(rest.result, a.consumed + rest.consumed, a.prompts + rest.prompts)
    else a
  }

  // ---------------------------------------------------------------------------

  lemma PrependTwice(a: seq<string>, b: seq<string>, r: Option<seq<string>>)
    ensures Prepend(a, Prepend(b, r)) == Prepend(a + b, r)
  {
    if r.Some? {
      assert a + (b + r.value) == (a + b) + r.value;
    }
  }

  /** `exit` or `quit` (after right-stripping) interrupts exactly when it is the first
      physical line of an attempt; as a continuation line it is ordinary text. */
  lemma AttemptInterruptIff(t: seq<string>)
    ensures Attempt(t).result.Interrupt? <==> t != [] && IsExit(RStrip(t[0]))
  {
    if t != [] && IsExit(RStrip(t[0])) {
      assert !Continued(RStrip(t[0]));
    } else if Gather(t).Some? {
      assert Attempt(t).result.Line?;
    }
  }

  /** An attempt ends with `Eof` exactly when every line of the terminal is continued. */
  lemma AttemptEofIff(t: seq<string>)
    ensures Attempt(t).result.Eof? <==> forall j :: 0 <= j < |t| ==> Continued(RStrip(t[j]))
  {
    GatherSpec(t);
    if t != [] && IsExit(RStrip(t[0])) {
      assert !Continued(RStrip(t[0]));
    } else if Gather(t).Some? {
      var n := |Gather(t).value|;
      assert !Continued(RStrip(t[n - 1]));
    }
  }

  /** An attempt that gives a line consumes the physical lines up to and including the
      first one that is not continued, and its text is the assembly of exactly those
      lines, each continued one without its final backslash. */
  lemma AttemptLine(t: seq<string>)
    requires Attempt(t).result.Line?
    ensures var a := Attempt(t);
      && (forall j :: 0 <= j < a.consumed - 1 ==> Continued(RStrip(t[j])))
      && !Continued(RStrip(t[a.consumed - 1]))
      && exists pieces: seq<string> ::
           && |pieces| == a.consumed
           && (forall j :: 0 <= j < |pieces| - 1 ==> pieces[j] == DropBackslash(RStrip(t[j])))
           && pieces[|pieces| - 1] == RStrip(t[|pieces| - 1])
           && a.result.text == Assemble(pieces)
  {
    AttemptOfGather(t);
    var a := Attempt(t);
    var pieces := Gather(t).value;
    GatherSpec(t);
    assert |pieces| == a.consumed
           && (forall j :: 0 <= j < |pieces| - 1 ==> pieces[j] == DropBackslash(RStrip(t[j])))
           && pieces[|pieces| - 1] == RStrip(t[|pieces| - 1])
           && a.result.text == Assemble(pieces);
  }

  lemma AttemptOfGather(t: seq<string>)
    requires Attempt(t).result.Line?
    ensures Gather(t).Some?
    ensures Attempt(t).consumed == |Gather(t).value| && Attempt(t).result.text == Assemble(Gather(t).value)
  {
  }

  /** What `Keyboard.input` returns as a line is never empty and already stripped. */
  lemma {:induction false} LogicalStripped(t: seq<string>)
    ensures var r := Logical(t).result;
      r.Line? ==> r.text != "" && Strip(r.text) == r.text
    decreases |t|
  {
    var a := Attempt(t);
    if a.result == Line("") {
      LogicalStripped(t[a.consumed..]);
    } else if a.result.Line? {
      var pieces := Gather(t).value;
      StripIdempotent(Join(Indented(pieces), "\n"));
    }
  }

  /** A blank physical line is read as an empty logical line and reading starts over
      on the next one, with a fresh first prompt. */
  lemma BlankLineReRead(t: seq<string>)
    requires t != [] && RStrip(t[0]) == ""
    ensures var rest := Logical(t[1..]);
      Logical(t) == Session(rest.result, 1 + rest.consumed, [FIRST_PROMPT] + rest.prompts)
  {
    assert Gather(t) == Some([""]);
    assert Indented([""]) == [""];
    PromptsUpTo3();
    assert Attempt(t) == Session(Line(""), 1, [FIRST_PROMPT]);
  }

  /** A complete first line that is not `exit`/`quit` and not blank is returned stripped,
      after one prompt. */
  lemma SingleLine(t: seq<string>)
    requires t != [] && !Continued(RStrip(t[0])) && !IsExit(RStrip(t[0]))
    requires Strip(t[0]) != ""
    ensures Logical(t) == Session(Line(Strip(t[0])), 1, [FIRST_PROMPT])
  {
    var cmd := RStrip(t[0]);
    assert Indented([cmd]) == [cmd];
    StripAfterRStrip(t[0]);
    PromptsUpTo3();
    assert Attempt(t) == Session(Line(Strip(t[0])), 1, [FIRST_PROMPT]);
  }

  /** A continued line followed by a complete one: the backslash goes, the second line
      is indented by four spaces on a new line, and two prompts are shown. */
  lemma ContinuedLine(t: seq<string>)
    requires |t| >= 2 && Continued(RStrip(t[0])) && !Continued(RStrip(t[1]))
    ensures Attempt(t) == Session(Line(Strip(DropBackslash(RStrip(t[0])) + "\n" + INDENT + RStrip(t[1]))),
                                  2, [FIRST_PROMPT, MORE_PROMPT])
  {
    var first := DropBackslash(RStrip(t[0]));
    var second := RStrip(t[1]);
    assert t[1..][0] == t[1];
    assert Gather(t[1..]) == Some([second]);
    assert [first] + [second] == [first, second];
    assert Gather(t) == Some([first, second]);
    assert !IsExit(RStrip(t[0])) by {
      assert !Continued("exit") && !Continued("quit");
    }
    PromptsUpTo3();
    assert Indented([first, second]) == [first, INDENT + second];
    assert Join([first, INDENT + second], "\n") == first + "\n" + (INDENT + second);
    assert first + "\n" + (INDENT + second) == first + "\n" + INDENT + second;
    assert Attempt(t) == Session(Line(Assemble([first, second])), 2, Prompts(2));
  }

  /** Two blank lines and then a command: the command is returned after three prompts. */
  lemma BlankLinesThenCommand()
    ensures Logical(["", "", "ENV VAR=value"])
         == Session(Line("ENV VAR=value"), 3, [FIRST_PROMPT, FIRST_PROMPT, FIRST_PROMPT])
  {
    var cmd := "ENV VAR=value";
    var t := ["", "", cmd];
    assert t[1..] == ["", cmd] && t[1..][1..] == [cmd];
    IndentUnique(cmd, 0);
    TrimmedUnique(cmd, |cmd|);
    assert Strip(cmd) == cmd;
    SingleLine([cmd]);
    BlankLineReRead(["", cmd]);
    BlankLineReRead(t);
  }

  /** Surrounding spaces are stripped from a single line. */
  lemma SurroundingSpaces()
    ensures Logical(["  WORKDIR /app  "]) == Session(Line("WORKDIR /app"), 1, [FIRST_PROMPT])
  {
    var line := "  WORKDIR /app  ";
    IndentUnique(line, 2);
    TrimmedUnique(line[2..], 12);
    assert Strip(line) == "WORKDIR /app";
    TrimmedUnique(line, 14);
    assert RStrip(line) == "  WORKDIR /app";
    SingleLine([line]);
  }

  /** Three physical lines joined by backslashes: each backslash goes but the space
      typed before it stays, so each continued piece ends in a space before its line break. */
  lemma ThreePhysicalLines(a: string, b: string, c: string)
    requires a == "apt-get update && \\" && b == "apt-get install -y \\" && c == "python3 curl git"
    ensures Logical([a, b, c])
         == Session(Line("apt-get update && " + "\n" + (INDENT + "apt-get install -y " + "\n" + (INDENT + "python3 curl git"))),
                    3, [FIRST_PROMPT, MORE_PROMPT, MORE_PROMPT])
  {
    ThreeTyped(a, b, c);
    ThreeLines([a, b, c]);
    ThreeStripped("apt-get update && " + "\n" + (INDENT + "apt-get install -y " + "\n" + (INDENT + "python3 curl git")));
  }

  lemma ThreeTyped(a: string, b: string, c: string)
    requires a == "apt-get update && \\" && b == "apt-get install -y \\" && c == "python3 curl git"
    ensures RStrip(a) == a && RStrip(b) == b && RStrip(c) == c
    ensures Continued(a) && Continued(b) && !Continued(c)
    ensures DropBackslash(a) == "apt-get update && " && DropBackslash(b) == "apt-get install -y "
  {
    TrimmedUnique(a, |a|);
    TrimmedUnique(b, |b|);
    TrimmedUnique(c, |c|);
  }

  lemma ThreeStripped(x: string)
    requires x == "apt-get update && " + "\n" + (INDENT + "apt-get install -y " + "\n" + (INDENT + "python3 curl git"))
    ensures Strip(x) == x
  {
    assert x[0] == 'a' && x[|x| - 1] == 't';
    IndentUnique(x, 0);
    TrimmedUnique(x, |x|);
  }

  /** Two continued lines and a complete one make one logical line of three pieces,
      after the prompts `# `, `... `, `... `. */
  lemma ThreeLines(t: seq<string>)
    requires |t| == 3 && Continued(RStrip(t[0])) && Continued(RStrip(t[1])) && !Continued(RStrip(t[2]))
    ensures var x := DropBackslash(RStrip(t[0])) + "\n"
                     + (INDENT + DropBackslash(RStrip(t[1])) + "\n" + (INDENT + RStrip(t[2])));
      Strip(x) != "" ==> Logical(t) == Session(Line(Strip(x)), 3, [FIRST_PROMPT, MORE_PROMPT, MORE_PROMPT])
  {
    var p, q, r := DropBackslash(RStrip(t[0])), DropBackslash(RStrip(t[1])), RStrip(t[2]);
    GatherThree(t);
    JoinThree(p, q, r);
    PromptsUpTo3();
    assert Attempt(t) == Session(Line(Assemble([p, q, r])), 3, Prompts(3));
  }

  lemma GatherThree(t: seq<string>)
    requires |t| == 3 && Continued(RStrip(t[0])) && Continued(RStrip(t[1])) && !Continued(RStrip(t[2]))
    ensures !IsExit(RStrip(t[0]))
    ensures Gather(t) == Some([DropBackslash(RStrip(t[0])), DropBackslash(RStrip(t[1])), RStrip(t[2])])
  {
    var p, q, r := DropBackslash(RStrip(t[0])), DropBackslash(RStrip(t[1])), RStrip(t[2]);
    GatherFrom(t);
    GatherStep(t, 0, []);
    assert [] + [p] == [p];
    GatherStep(t, 1, [p]);
    GatherStep(t, 2, [p] + [q]);
    assert [p] + [q] + [r] == [p, q, r];
    ContinuedNotExit(RStrip(t[0]));
  }

  lemma ContinuedNotExit(cmd: string)
    requires Continued(cmd)
    ensures !IsExit(cmd)
  {
    assert !Continued("exit") && !Continued("quit");
  }

  lemma JoinThree(p: string, q: string, r: string)
    ensures Assemble([p, q, r]) == Strip(p + "\n" + (INDENT + q + "\n" + (INDENT + r)))
  {
    var q', r' := INDENT + q, INDENT + r;
    assert [p, q, r][..2] == [p, q] && [p, q][..1] == [p];
    assert Indented([p]) == [p];
    assert Indented([p, q]) == [p] + [q'] == [p, q'];
    assert Indented([p, q, r]) == [p, q'] + [r'] == [p, q', r'];
    assert [p, q', r'][1..] == [q', r'] && [q', r'][1..] == [r'];
    assert Join([q', r'], "\n") == q' + "\n" + r';
  }

  lemma PromptsUpTo3()
    ensures Prompts(1) == [FIRST_PROMPT]
    ensures Prompts(2) == [FIRST_PROMPT, MORE_PROMPT]
    ensures Prompts(3) == [FIRST_PROMPT, MORE_PROMPT, MORE_PROMPT]
  {
    var none: seq<string> := [];
    assert Prompts(0) == none;
    assert Prompts(1) == none + [FIRST_PROMPT];
    assert Prompts(2) == Prompts(1) + [MORE_PROMPT];
    assert Prompts(3) == Prompts(2) + [MORE_PROMPT];
  }

  lemma AttemptInterrupt(t: seq<string>)
    requires t != [] && IsExit(RStrip(t[0]))
    ensures Attempt(t) == Session(Interrupt, 1, Prompts(1))
  {
  }

  lemma AttemptEof(t: seq<string>)
    requires Gather(t).None?
    ensures Attempt(t) == Session(Eof, |t|, Prompts(|t| + 1))
  {
    if t != [] {
      GatherNoneContinued(t);
      ContinuedNotExit(RStrip(t[0]));
    }
  }

  /** A terminal that runs out before the logical line ends starts with a continued line. */
  lemma GatherNoneContinued(t: seq<string>)
    requires t != [] && Gather(t).None?
    ensures Continued(RStrip(t[0]))
  {
  }

  lemma AttemptSome(t: seq<string>, pieces: seq<string>)
    requires Gather(t) == Some(pieces) && (t != [] ==> !IsExit(RStrip(t[0])))
    ensures Attempt(t) == Session(Line(Assemble(pieces)), |pieces|, Prompts(|pieces|))
  {
  }

  lemma GatherFrom(t: seq<string>)
    ensures Gather(t) == Prepend([], Gather(t[0..]))
  {
    assert t[0..] == t;
    if Gather(t).Some? {
      assert [] + Gather(t).value == Gather(t).value;
    }
  }

  /** One more physical line read at `pos`: either it completes the pieces or its
      piece, without the backslash, joins those already read. */
  lemma GatherStep(t: seq<string>, pos: nat, done: seq<string>)
    requires pos < |t| && Gather(t) == Prepend(done, Gather(t[pos..]))
    ensures var cmd := RStrip(t[pos]);
      && (!Continued(cmd) ==> Gather(t) == Some(done + [cmd]))
      && (Continued(cmd) ==> Gather(t) == Prepend(done + [DropBackslash(cmd)], Gather(t[pos + 1..])))
  {
    var cmd := RStrip(t[pos]);
    assert t[pos..][0] == t[pos] && t[pos..][1..] == t[pos + 1..];
    if Continued(cmd) {
      PrependTwice(done, [DropBackslash(cmd)], Gather(t[pos + 1..]));
    }
  }

  lemma PromptsStep(n: nat)
    ensures Prompts(n) + [if n > 0 then MORE_PROMPT else FIRST_PROMPT] == Prompts(n + 1)
  {
  }

  /** The continuation indent, added piece by piece. */
  method IndentPieces(lines: seq<string>) returns (processed: seq<string>)
    requires lines != []
    ensures processed == Indented(lines)
  {
    processed := [lines[0]];
    assert lines[..1] == [lines[0]];
    for i := 1 to |lines|
      invariant processed == Indented(lines[..i])
    {
      assert lines[..i + 1][..i] == lines[..i];
      processed := processed + [INDENT + lines[i]];
    }
    assert lines[..|lines|] == lines;
  }

  /** The pieces indented, joined by line breaks and stripped. */
  method AssemblePieces(lines: seq<string>) returns (fullCommand: string)
    requires lines != []
    ensures fullCommand == Assemble(lines)
  {
    var processed := IndentPieces(lines);
    fullCommand := Strip(Join(processed, "\n"));
  }

  /** The reading loop of `Keyboard.input`: physical lines are read, each after its
      prompt, until one is not continued (`Line`), the first one is `exit` or `quit`
      (`Interrupted`) or the terminal runs out (`RanOut`); otherwise it is `Complete`. */
  method ReadLines(terminal: seq<string>) returns (outcome: Ending, lines: seq<string>, pos: nat, prompts: seq<string>)
    ensures outcome.Interrupted? ==>
      terminal != [] && IsExit(RStrip(terminal[0])) && pos == 1 && prompts == Prompts(1)
    ensures outcome.RanOut? ==>
      Gather(terminal).None? && pos == |terminal| && prompts == Prompts(|terminal| + 1)
    ensures outcome.Complete? ==>
      && Gather(terminal) == Some(lines) && (terminal != [] ==> !IsExit(RStrip(terminal[0])))
      && pos == |lines| && prompts == Prompts(pos)
  {
    lines, prompts, pos := [], [], 0;
    GatherFrom(terminal);
    while true
      invariant pos <= |terminal| && |lines| == pos
      invariant prompts == Prompts(pos)
      invariant pos > 0 ==> !IsExit(RStrip(terminal[0]))
      invariant Gather(terminal) == Prepend(lines, Gather(terminal[pos..]))
      decreases |terminal| - pos
    {
      var prompt := if lines != [] then MORE_PROMPT else FIRST_PROMPT;
      PromptsStep(pos);
      prompts := prompts + [prompt];
      if pos == |terminal| {
        assert terminal[pos..] == [];
        return RanOut, lines, pos, prompts;
      }
      var cmd := RStrip(terminal[pos]);
      if lines == [] && IsExit(cmd) {
        return Interrupted, lines, pos + 1, prompts;
      }
      GatherStep(terminal, pos, lines);
      ghost var before := lines;
      lines := lines + [cmd];
      pos := pos + 1;
      if !Continued(cmd) {
        break;
      }
      lines := lines[|lines| - 1 := DropBackslash(lines[|lines| - 1])];
      assert lines == before + [DropBackslash(cmd)];
    }
    outcome := Complete;
  }

  /** One pass of the reading loop of `Keyboard.input` and the assembly after it. */
  method ReadAttempt(terminal: seq<string>) returns (s: Session)
    ensures s == Attempt(terminal)
  {
    var outcome, lines, pos, prompts := ReadLines(terminal);
    match outcome
    case Interrupted =>
      AttemptInterrupt(terminal);
      s := Session(Interrupt, pos, prompts);
    case RanOut =>
      AttemptEof(terminal);
      s := Session(Eof, pos, prompts);
    case Complete =>
      AttemptSome(terminal, lines);
      var fullCommand := AssemblePieces(lines);
      s := Session(Line(fullCommand), pos, prompts);
  }

  /** `Keyboard.input`: an empty logical line is read again from the next physical line. */
  method Input(terminal: seq<string>) returns (s: Session)
    ensures s == Logical(terminal)
    decreases |terminal|
  {
    var a := ReadAttempt(terminal);
    if a.result != Line("") {
      return a;
    }
    var rest := Input(terminal[a.consumed..]);
    return Session(rest.result, a.consumed + rest.consumed, a.prompts + rest.prompts);
  }
}
