/**
 * The session dispatcher: every logical line the user enters is sorted, in this
 * order, into a comment, a native recipe directive, a plain `cd`, or a shell
 * command. Depending on that kind and on whether the line is hidden (typed with a
 * leading space), the line is recorded in the log, the image is rebuilt, or both;
 * a failed build rolls the log back.
 *
 * The two container calls are reduced to their exit codes, passed in as
 * `runExit` and `buildExit`. The helpers of the `command` module and the log's
 * `cd` operation are not part of this model; they are parameters, and the
 * predicates `Sound` and `CdSound` say what is known of them.
 */
module Docker {
  import opened Wrappers
  import opened Strings
  import opened DockerFile

  /** The helpers `command.is_hidden`, `command.flatten` and `command.is_dockerfile`. */
  datatype Command = Command(isHidden: string -> bool, flatten: string -> string, isDockerfile: string -> bool)

  /** What is known of the helpers: a line typed with a leading space is hidden, a
      line starting with anything but whitespace is not, and `is_dockerfile` is the
      log's own directive test. */
  ghost predicate Sound(c: Command) {
    && (forall line :: |line| > 0 && line[0] == ' ' ==> c.isHidden(line))
    && (forall line :: |line| > 0 && !IsSpace(line[0]) ==> !c.isHidden(line))
    && (forall line :: c.isDockerfile(line) == IsCommand(line))
  }

  /** A command that chains, pipes or redirects, so it is not a plain `cd`. */
  predicate IsMultiCommand(cmd: string) {
    Contains(cmd, "&&") || Contains(cmd, "||") || Contains(cmd, ";")
    || Contains(cmd, "|") || Contains(cmd, ">") || Contains(cmd, "<")
  }

  predicate IsOperator(c: char) {
    c == ';' || c == '|' || c == '>' || c == '<'
  }

  /** A command is a multi-command exactly when it holds one of `;`, `|`, `>`, `<`
      or two `&` in a row. */
  lemma MultiCommandIff(cmd: string)
    ensures IsMultiCommand(cmd) <==>
      (exists i :: 0 <= i < |cmd| && IsOperator(cmd[i]))
      || (exists i :: 0 <= i && i + 1 < |cmd| && cmd[i] == '&' && cmd[i + 1] == '&')
  {
    ContainsPair(cmd, '&', '&');
    ContainsPair(cmd, '|', '|');
    ContainsChar(cmd, ';');
    ContainsChar(cmd, '|');
    ContainsChar(cmd, '>');
    ContainsChar(cmd, '<');
  }

  // ---------------------------------------------------------------------------
  // One input line as a value

  /** The log after a call, and how many container runs and builds it made. */
  datatype Outcome = Outcome(after: Snapshot, runs: nat, builds: nat)

  /** The log after `build` with the given exit code. */
  function Built(s: Snapshot, buildExit: int): Snapshot
    requires buildExit != 0 ==> HasCommand(s.lines)
  {
    if buildExit == 0 then s else RolledBack(s)
  }

  /** The line a successful shell command leaves in the log. */
  function RunLine(cmd: string): string {
    "RUN " + cmd
  }

  /** The line a failed shell command leaves in the log. */
  function ErrorLine(cmd: string): string {
    "# (error) RUN " + cmd
  }

  /** The directory a WORKDIR directive names: what follows the first "WORKDIR " of
      the flattened line, stripped. */
  function WorkdirPath(c: Command, line: string): string
    requires Contains(c.flatten(line), "WORKDIR ")
  {
    Strip(After(c.flatten(line), "WORKDIR "))
  }

  /** The directory a plain `cd` names. */
  function CdPath(cmd: string): string
    requires StartsWith(cmd, "cd ")
  {
    Strip(cmd[3..])
  }

  predicate IsComment(cmd: string) {
    StartsWith(cmd, "#")
  }

  predicate IsPlainCd(cmd: string) {
    StartsWith(cmd, "cd ") && !IsMultiCommand(cmd)
  }

  /** A recorded WORKDIR directive holds "WORKDIR " once flattened, so splitting it
      yields the path. */
  predicate SplitDefined(c: Command, line: string) {
    var cmd := LStrip(line);
    (line != "" && !IsComment(cmd) && c.isDockerfile(cmd) && !c.isHidden(line) && StartsWith(cmd, "WORKDIR "))
    ==> Contains(c.flatten(line), "WORKDIR ")
  }

  /** A hidden directive whose build fails finds something to roll back. */
  predicate RollbackDefined(c: Command, s: Snapshot, line: string, buildExit: int) {
    var cmd := LStrip(line);
    (line != "" && !IsComment(cmd) && c.isDockerfile(cmd) && c.isHidden(line) && buildExit != 0)
    ==> HasCommand(s.lines)
  }

  /** `input` fails neither on splitting a recorded WORKDIR directive nor on
      rolling back a log that has nothing to roll back. */
  predicate Dispatchable(c: Command, s: Snapshot, line: string, buildExit: int) {
    SplitDefined(c, line) && RollbackDefined(c, s, line, buildExit)
  }

  /** The effect of `input(line)` on the log `s`. */
  function Dispatch(c: Command, cd: CdStep, s: Snapshot, line: string, runExit: int, buildExit: int): Outcome
    requires Sound(c) && Dispatchable(c, s, line, buildExit)
  {
    if line == "" then Outcome(s, 0, 0)
    else
      var hidden := c.isHidden(line);
      var cmd := LStrip(line);
      if IsComment(cmd) then
        Outcome(if hidden then s else Appended(s, cmd), 0, 0)
      else if c.isDockerfile(cmd) then
        if !hidden && StartsWith(cmd, "WORKDIR ") then
          Outcome(cd(Appended(s, cmd), WorkdirPath(c, line)), 0, 0)
        else if hidden then
          Outcome(Built(s, buildExit), 0, 1)
        else
          CommandMatters(cmd);
          AppendThenRollback(s.lines, cmd);
          Outcome(Built(Appended(s, cmd), buildExit), 0, 1)
      else if IsPlainCd(cmd) then
        Outcome(cd(s, CdPath(cmd)), 0, 0)
      else if runExit == 0 then
        if hidden then Outcome(s, 1, 0)
        else
          RunLineMatters(cmd);
          AppendThenRollback(s.lines + [""], RunLine(cmd));
          Outcome(Built(Appended(Appended(s, ""), RunLine(cmd)), buildExit), 1, 1)
      else
        Outcome(Appended(s, ErrorLine(cmd)), 1, 0)
  }

  lemma RunLineMatters(cmd: string)
    ensures Matters(RunLine(cmd))
  {
    var l := RunLine(cmd);
    assert l[0] == 'R' && LStrip(l) == l;
    StripHead(l);
    assert Strip(l)[..1] == "R";
  }

  /** What a build does to the log: nothing on success; on failure it drops the last
      line that matters and the inert lines after it, and rewrites the file. */
  lemma BuildEffect(s: Snapshot, buildExit: int)
    requires buildExit != 0 ==> HasCommand(s.lines)
    ensures var t := Built(s, buildExit);
      && t.image == s.image && t.workdir == s.workdir
      && (buildExit == 0 ==> t == s)
      && (buildExit != 0 ==>
            && |t.lines| < |s.lines| && t.lines == s.lines[..|t.lines|]
            && Matters(s.lines[|t.lines|])
            && (forall j :: |t.lines| < j < |s.lines| ==> !Matters(s.lines[j]))
            && t.file == Some(Text(t.lines)))
  {
    if buildExit != 0 {
      RollbackShape(s.lines);
    }
  }

  /** An empty line changes nothing and runs nothing. */
  lemma EmptyLine(c: Command, cd: CdStep, s: Snapshot, runExit: int, buildExit: int)
    requires Sound(c)
    ensures Dispatch(c, cd, s, "", runExit, buildExit) == Outcome(s, 0, 0)
  {
  }

  /** A comment neither runs nor builds; it is recorded as typed (without its
      leading whitespace) unless hidden, and a comment typed after a space is hidden. */
  lemma CommentLine(c: Command, cd: CdStep, s: Snapshot, line: string, runExit: int, buildExit: int)
    requires Sound(c) && line != "" && IsComment(LStrip(line))
    ensures Dispatchable(c, s, line, buildExit)
    ensures var r := Dispatch(c, cd, s, line, runExit, buildExit);
      && r.runs == 0 && r.builds == 0
      && (c.isHidden(line) ==> r.after == s)
      && (!c.isHidden(line) ==> r.after == Appended(s, LStrip(line)))
      && (line[0] == ' ' ==> r.after == s)
      && (line[0] == '#' ==> r.after.lines == s.lines + [line])
  {
    if line[0] == '#' {
      assert LStrip(line) == line;
    }
  }

  /** A directive is never taken for a comment. */
  lemma DirectiveNotComment(cmd: string)
    requires IsCommand(cmd)
    ensures !IsComment(LStrip(cmd))
  {
    IsCommandIff(cmd);
    var t := LStrip(cmd);
    assert TakeWord(t) != [] && TakeWord(t)[0] != '#';
    assert t[0] == TakeWord(t)[0];
  }

  /** A directive never runs a container. Recorded (not hidden) and not a WORKDIR,
      it builds once: on success the log has gained exactly the directive, on failure
      the directive is rolled back off again. Hidden, it builds once on the log as it
      was. */
  lemma DirectiveLine(c: Command, cd: CdStep, s: Snapshot, line: string, runExit: int, buildExit: int)
    requires Sound(c) && line != "" && IsCommand(LStrip(line))
    requires Dispatchable(c, s, line, buildExit)
    ensures var cmd := LStrip(line);
      var r := Dispatch(c, cd, s, line, runExit, buildExit);
      && r.runs == 0
      && r.builds == (if !c.isHidden(line) && StartsWith(cmd, "WORKDIR ") then 0 else 1)
      && (!c.isHidden(line) && !StartsWith(cmd, "WORKDIR ") && buildExit == 0 ==> r.after == Appended(s, cmd))
      && (!c.isHidden(line) && !StartsWith(cmd, "WORKDIR ") && buildExit != 0 ==>
            r.after == s.(file := Some(Text(s.lines))))
      && (c.isHidden(line) ==> r.after == Built(s, buildExit))
  {
    var cmd := LStrip(line);
    DirectiveNotComment(LStrip(line));
    assert LStrip(cmd) == cmd by {
      StripIdempotentLeft(line);
    }
    if !c.isHidden(line) && !StartsWith(cmd, "WORKDIR ") {
      CommandMatters(cmd);
      AppendThenRollback(s.lines, cmd);
    }
  }

  /** A recorded WORKDIR directive neither runs nor builds; the log's `cd` moves to
      the directory it names. */
  lemma WorkdirLine(c: Command, cd: CdStep, s: Snapshot, line: string, runExit: int, buildExit: int)
    requires Sound(c) && CdSound(cd) && line != "" && !c.isHidden(line)
    requires IsCommand(LStrip(line)) && StartsWith(LStrip(line), "WORKDIR ")
    requires Contains(c.flatten(line), "WORKDIR ")
    ensures Dispatchable(c, s, line, buildExit)
    ensures var r := Dispatch(c, cd, s, line, runExit, buildExit);
      var dir := Resolve(s.workdir, WorkdirPath(c, line));
      && r.runs == 0 && r.builds == 0
      && r == Outcome(cd(Appended(s, LStrip(line)), WorkdirPath(c, line)), 0, 0)
      && r.after.workdir == dir && "WORKDIR " + dir in r.after.lines
  {
    DirectiveNotComment(LStrip(line));
  }

  /** `cd` typed at the start of a line is not a directive. */
  lemma CdNotDirective(cmd: string)
    requires StartsWith(cmd, "cd ")
    ensures !IsCommand(cmd) && !IsComment(cmd)
  {
    var rest := cmd[3..];
    assert cmd == cmd[..3] + rest && cmd[..3] == "cd ";
    assert cmd == "cd" + " " + rest;
    CdNotCommand(rest);
    assert cmd[0] == 'c';
  }

  lemma CdNotCommand(rest: string)
    ensures !IsCommand("cd" + " " + rest)
  {
    FirstWordDecides("cd", rest);
    assert "cd" !in COMMANDS;
  }

  /** A `cd` without operators neither runs nor builds; the log's `cd` moves to the
      stripped argument, resolved against the current directory. */
  lemma PlainCdLine(c: Command, cd: CdStep, s: Snapshot, line: string, runExit: int, buildExit: int)
    requires Sound(c) && CdSound(cd) && line != "" && IsPlainCd(LStrip(line))
    ensures Dispatchable(c, s, line, buildExit)
    ensures var r := Dispatch(c, cd, s, line, runExit, buildExit);
      var dir := Resolve(s.workdir, CdPath(LStrip(line)));
      && r.runs == 0 && r.builds == 0 && r.after == cd(s, CdPath(LStrip(line)))
      && r.after.workdir == dir && "WORKDIR " + dir in r.after.lines
  {
    CdNotDirective(LStrip(line));
  }

  /** A shell command runs once. On success it is recorded after a blank line and
      built, unless hidden, when the log stays as it was and nothing is built. A
      failed build removes the RUN line and keeps the blank line. The directory never
      changes. */
  lemma ShellSuccess(c: Command, cd: CdStep, s: Snapshot, line: string, buildExit: int)
    requires Sound(c) && line != ""
    requires var cmd := LStrip(line); !IsComment(cmd) && !IsCommand(cmd) && !IsPlainCd(cmd)
    ensures Dispatchable(c, s, line, buildExit)
    ensures var cmd := LStrip(line);
      var r := Dispatch(c, cd, s, line, 0, buildExit);
      && r.runs == 1 && r.after.workdir == s.workdir
      && (c.isHidden(line) ==> r.after == s && r.builds == 0)
      && (!c.isHidden(line) ==> r.builds == 1)
      && (!c.isHidden(line) && buildExit == 0 ==>
            r.after == Appended(Appended(s, ""), RunLine(cmd)) && r.after.lines == s.lines + ["", RunLine(cmd)])
      && (!c.isHidden(line) && buildExit != 0 ==> r.after == Appended(s, ""))
  {
    var cmd := LStrip(line);
    RunLineMatters(cmd);
    AppendThenRollback(s.lines + [""], RunLine(cmd));
    AppendTwo(s.lines, "", RunLine(cmd));
  }

  lemma AppendTwo(lines: seq<string>, x: string, y: string)
    ensures lines + [x] + [y] == lines + [x, y]
  {
  }

  /** A failed shell command runs once, builds nothing and records exactly one error
      line, hidden or not. */
  lemma ShellFailure(c: Command, cd: CdStep, s: Snapshot, line: string, runExit: int, buildExit: int)
    requires Sound(c) && line != "" && runExit != 0
    requires var cmd := LStrip(line); !IsComment(cmd) && !IsCommand(cmd) && !IsPlainCd(cmd)
    ensures Dispatchable(c, s, line, buildExit)
    ensures var r := Dispatch(c, cd, s, line, runExit, buildExit);
      && r.runs == 1 && r.builds == 0
      && r.after == Appended(s, ErrorLine(LStrip(line)))
      && |r.after.lines| == |s.lines| + 1
  {
  }

  /** `cd` joined to another command by an operator is a shell command: the
      directory stays where it was. */
  lemma CdWithOperator(c: Command, cd: CdStep, s: Snapshot, line: string, runExit: int, buildExit: int)
    requires Sound(c) && line != ""
    requires var cmd := LStrip(line); StartsWith(cmd, "cd ") && IsMultiCommand(cmd)
    ensures Dispatchable(c, s, line, buildExit)
    ensures var r := Dispatch(c, cd, s, line, runExit, buildExit);
      r.runs == 1 && r.after.workdir == s.workdir
  {
    CdNotDirective(LStrip(line));
    if runExit == 0 {
      ShellSuccess(c, cd, s, line, buildExit);
    }
  }

  // ---------------------------------------------------------------------------
  // The dispatcher

  class Docker {
    const dockerfile: Dockerfile
    const shell: string
    const tag: string
    const debug: bool
    /** The `command` helpers and the log's `cd`, which this model takes as given. */
    const command: Command
    const cdStep: CdStep

    constructor (dockerfile: Dockerfile, shell: string, tag: string, debug: bool, command: Command, cdStep: CdStep)
      ensures this.dockerfile == dockerfile && this.shell == shell && this.tag == tag && this.debug == debug
      ensures this.command == command && this.cdStep == cdStep
    {
      this.dockerfile := dockerfile;
      this.shell := shell;
      this.tag := tag;
      this.debug := debug;
      this.command := command;
      this.cdStep := cdStep;
    }

    /** Rebuilds the image; `buildExit` is the exit code of the build. */
    method Build(buildExit: int) returns (ok: bool)
      requires buildExit != 0 ==> HasCommand(dockerfile.lines)
      modifies dockerfile
      ensures ok <==> buildExit == 0
      ensures dockerfile.State() == Built(old(dockerfile.State()), buildExit)
    {
      if buildExit != 0 {
        dockerfile.RemoveLastCommand();
        return false;
      }
      return true;
    }

    /** Handles one logical line; `runExit` is the exit code the container run would
        give and `buildExit` that of the build. */
    method Input(line: string, runExit: int, buildExit: int) returns (runs: nat, builds: nat)
      requires Sound(command) && Dispatchable(command, dockerfile.State(), line, buildExit)
      modifies dockerfile
      ensures Outcome(dockerfile.State(), runs, builds)
           == Dispatch(command, cdStep, old(dockerfile.State()), line, runExit, buildExit)
    {
      runs, builds := 0, 0;
      if line == "" {
        return;
      }
      var isHidden := command.isHidden(line);
      var cmd := LStrip(line);
      var flatCmd := command.flatten(line);

      if IsComment(cmd) {
        if !isHidden {
          dockerfile.Append(cmd);
        }
        return;
      }

      if command.isDockerfile(cmd) {
        if !isHidden {
          CommandMatters(cmd);
          AppendThenRollback(dockerfile.lines, cmd);
          dockerfile.Append(cmd);
          if StartsWith(cmd, "WORKDIR ") {
            var path := Strip(After(flatCmd, "WORKDIR "));
            dockerfile.Cd(cdStep, path);
            return;
          }
        }
        var _ := Build(buildExit);
        builds := 1;
        return;
      }

      if IsPlainCd(cmd) {
        var newDir := Strip(cmd[3..]);
        dockerfile.Cd(cdStep, newDir);
        return;
      }

      // the container run, reduced to its exit code
      runs := 1;
      if runExit == 0 {
        if !isHidden {
          dockerfile.Append("");
          RunLineMatters(cmd);
          AppendThenRollback(dockerfile.lines, RunLine(cmd));
          dockerfile.Append(RunLine(cmd));
          var _ := Build(buildExit);
          builds := 1;
        }
      } else {
        dockerfile.Append(ErrorLine(cmd));
      }
    }
  }
}
