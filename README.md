# dockershit, modelled in Dafny

dockershit is an interactive shell that writes a Dockerfile as you go. Each line
typed at its prompt is run in a container built from the Dockerfile so far, and a
successful command is recorded in the Dockerfile as a `RUN` step. Native directives
(`COPY`, `ENV`, …) go straight into the file, and the image is rebuilt; a
`WORKDIR` directive is recorded and changes the directory without a rebuild. A
failed build removes the file's last line that matters, together with the lines
after it, none of which matters.

This project models the three sequential parts of that loop and proves what they
do:

- `docker_file.dfy`, module `DockerFile`: the instruction log, class `Dockerfile`
  of `src/dockershit/docker_file.py`.
  - The class holds the recipe lines, the base image, the working directory and
    the text of the recipe file.
  - `Load` reads the physical lines of the file and the first `FROM` and the last
    `WORKDIR`. Of a backslash continuation group it keeps only the first physical
    line, unless the file ends inside a group of two or more physical lines, when
    the whole group, joined by line breaks, follows that first line.
  - `SetImage` rewrites or inserts the `FROM` line; `Append` and `SetPwd` add
    lines; `RemoveLastCommand` rolls back; `Write` stores the joined text.
  - Each method is proved against a function on the value `Snapshot` of the
    object's fields: `Loaded`, `WithImage`, `Appended`, `RolledBack`, `Written`,
    `Opened`.
- `docker.dfy`, module `Docker`: the dispatcher, class `Docker` of
  `src/dockershit/docker.py`.
  - `Input` sorts a line into comment, directive, plain `cd` or shell command.
  - Depending on the kind and on whether the line is hidden, it appends to the
    log, builds, or both; `Build` rolls the log back when the build fails.
  - `Input` is proved equal to the function `Dispatch`, and one lemma per kind of
    line states its effect.
- `keyboard.dfy`, module `Keyboard`: `Keyboard.input` of
  `src/dockershit/keyboard.py`, the assembler of logical lines.
  - The terminal is the sequence of physical lines the user will type.
  - A call returns `Line(text)`, `Interrupt` (for `exit`/`quit`) or `Eof` (the
    terminal ran out), with the number of lines consumed and the prompts shown.
  - `Input` is proved equal to the function `Logical`.
- `strings.dfy` (`Strings`) and `wrappers.dfy` (`Wrappers`) hold the Python
  string operations the three rely on and an `Option` type:
  - `strip`, `lstrip`, `rstrip`, `split()`, `split(maxsplit=1)`, `splitlines`,
    `join`, `upper`;
  - a filter-map over sequences standing for the list comprehensions of `load`.

The container calls `docker run` and `docker build` are reduced to their exit
codes, which the methods take as parameters (`runExit`, `buildExit`). The recipe
file is the field `file`: `None` while it does not exist, `Some(text)` once
written.

Three helpers are called by the source but defined in files that are not part of
this model: `command.is_hidden`, `command.flatten` and `command.is_dockerfile`
(from `src/dockershit/command.py`). They are the function-valued fields of the
datatype `Command`. `Dockerfile.cd` is called at `src/dockershit/docker.py:57` and
`:66` but `src/dockershit/docker_file.py` does not define it. It is the parameter
`cd` of type `CdStep`. The predicates `Sound` and `CdSound` state only what the
tests pin down about them:

- a line typed with a leading space is hidden, and one typed with a non-space
  first character is not;
- `is_dockerfile` agrees with `Dockerfile.is_command`;
- `cd` resolves its argument against the current directory and leaves a
  `WORKDIR` line for the result in the log.

Python's `None` as the requested image is the empty string `""`. The source only
ever tests that argument for truthiness.

Where the code and its own tests disagree, the model follows the code:

- `set_image` does not rewrite the file.
- A file that ends inside a continuation keeps the group's first physical line as
  well as the folded group, where the tests expect the folded group alone.
- `Keyboard.input` keeps a space typed before a continuation backslash.
  `Keyboard.ThreePhysicalLines` shows the text the code returns for the
  multi-line test's input.

A behaviour of the code that its tests do not exercise is modelled as written:

- A continuation group in the middle of the file keeps only its first physical
  line and loses the rest (`DockerFile.LoadGroupMidFile`,
  `DockerFile.ContinuationDropped`). That line still ends in a backslash, so once
  the log is written again the line after it reads as its continuation.

A behaviour the code and its tests agree on:

- A `WORKDIR` directive that is not hidden is recorded and passed to `cd`, and it
  does not build (`Docker.WorkdirLine`).

## Model

| member | source | states |
|---|---|---|
| `DockerFile.MattersIff` | src/dockershit/docker_file.py:82-85 | a line matters exactly when its first non-whitespace character exists and is not `#` |
| `DockerFile.IsCommandIff` | src/dockershit/docker_file.py:88-93 | a line is a directive exactly when its first whitespace-separated word is one of the ten `COMMANDS`, compared case-sensitively |
| `DockerFile.FirstWordDecides` | src/dockershit/docker_file.py:5-16 | a line opening with a word and a space is a directive exactly when that word is in `COMMANDS`, so `RUN`, `FROM` and `from` lines are not directives |
| `DockerFile.CommandMatters` | src/dockershit/docker_file.py:82-93 | every directive matters, so a rollback can remove it |
| `DockerFile.FindFrom` | src/dockershit/docker_file.py:57-58 | the result is the first index at or after the start whose upper-cased line starts with `FROM `, or none when no such line exists |
| `DockerFile.WithImage` | src/dockershit/docker_file.py:55-61 | with a `FROM` line, only the first one becomes `FROM <image>` and the length is kept; without one, `FROM <image>` is put in front |
| `DockerFile.SetImageIdempotent` | src/dockershit/docker_file.py:55-61 | setting the same image twice gives the lines of setting it once |
| `DockerFile.LastCommand` | src/dockershit/docker_file.py:72-74 | the index of the last line that matters: no line after it matters |
| `DockerFile.RollbackAt` | src/dockershit/docker_file.py:71-76 | once the trailing lines that do not matter are popped, popping the line that matters gives the rolled-back log |
| `DockerFile.RollbackShape` | src/dockershit/docker_file.py:71-76 | the rolled-back log is a strictly shorter prefix of the old one; the line dropped at its end matters, and no line after that one matters |
| `DockerFile.AppendThenRollback` | src/dockershit/docker_file.py:67-76 | appending a line that matters and rolling back gives the old lines back |
| `DockerFile.AppendKeepsCommand` | src/dockershit/docker_file.py:67-69 | appending keeps something a rollback can remove |
| `DockerFile.JoinContinuations` | src/dockershit/docker_file.py:33-44 | the loop of `load` computes `LoadLines` of the physical lines: the first line of every continuation group, and the whole group when the file ends inside one |
| `DockerFile.LoadGroupMidFile` | src/dockershit/docker_file.py:36-41 | a continuation group that ends before the file does contributes only its first physical line, which keeps its backslash; the lines after it load as they would on their own |
| `DockerFile.LoadGroupAtEnd` | src/dockershit/docker_file.py:36-44 | a file that ends inside a continuation group contributes the group's first physical line and then the whole group joined by `\n` |
| `DockerFile.ContinuationDropped` | src/dockershit/docker_file.py:36-41 | the physical lines `RUN a \`, `b`, `RUN c` load as `RUN a \` and `RUN c`: the `b` is lost |
| `DockerFile.LoadLinesPlain` | src/dockershit/docker_file.py:36-44 | without any line ending in a backslash, the loaded lines are the physical lines |
| `DockerFile.FirstArg` | src/dockershit/docker_file.py:46-49 | the image read by `load` is the argument of the first line (with a space) whose first field upper-cases to `FROM` |
| `DockerFile.LastArg` | src/dockershit/docker_file.py:46-50 | the directory read by `load` is the argument of the last line (with a space) whose first field upper-cases to `WORKDIR` |
| `DockerFile.ArgsNonEmpty` | src/dockershit/docker_file.py:46-50 | no argument collected for a key is empty, so neither the image `load` takes from the first nor the directory it takes from the last is empty |
| `DockerFile.OpenMissing` | src/dockershit/docker_file.py:20-29 | opening a recipe that has no file gives exactly `["FROM " + (image or "alpine:latest")]`, that image and the directory `/` |
| `DockerFile.ReadWritten` | src/dockershit/docker_file.py:33-44 | the text `write` produces loads back as the same lines, when no line holds a line break or ends in a backslash |
| `DockerFile.ReopenWritten` | src/dockershit/docker_file.py:20-50 | opening a written recipe without requesting an image gives the same lines, the image of its first `FROM` line and the directory of its last `WORKDIR` line, else `/` |
| `DockerFile.Dockerfile.constructor` | src/dockershit/docker_file.py:20-29 | the new object's state is `Opened(file, image)`: loaded, then the image set when the file is missing, has no `FROM` image, or an image was requested |
| `DockerFile.Dockerfile.Load` | src/dockershit/docker_file.py:31-50 | the new state is `Loaded` of the old one: the lines from the file when it exists, the first `FROM` argument as image and the last `WORKDIR` argument as directory, each kept when absent |
| `DockerFile.Dockerfile.SetImage` | src/dockershit/docker_file.py:55-61 | the lines become `WithImage(old lines, image)` and the image is set; the directory and the file are unchanged |
| `DockerFile.Dockerfile.SetPwd` | src/dockershit/docker_file.py:63-65 | the directory becomes the argument, exactly `WORKDIR <dir>` is appended, the file is rewritten, and the image is unchanged |
| `DockerFile.Dockerfile.Append` | src/dockershit/docker_file.py:67-69 | the line is added at the end and the file text becomes the lines joined by `\n` plus a final `\n`; nothing else changes |
| `DockerFile.Dockerfile.RemoveLastCommand` | src/dockershit/docker_file.py:71-76 | the lines become everything before the last line that matters, and the file is rewritten |
| `DockerFile.Dockerfile.Write` | src/dockershit/docker_file.py:78-79 | the file text becomes the lines joined by `\n` plus a final `\n` |
| `DockerFile.Dockerfile.Cd` | src/dockershit/docker.py:57 | the object takes the state the given `cd` step yields |
| `Docker.MultiCommandIff` | src/dockershit/docker.py:97-102 | a command is a multi-command exactly when it holds one of `;`, `\|`, `>`, `<` or two `&` in a row |
| `Docker.BuildEffect` | src/dockershit/docker.py:15-31 | a successful build leaves the log alone; a failed one cuts it to the prefix before its last line that matters and rewrites the file; image and directory never change |
| `Docker.EmptyLine` | src/dockershit/docker.py:34-35 | an empty line changes nothing, runs nothing and builds nothing |
| `Docker.CommentLine` | src/dockershit/docker.py:43-46 | a comment neither runs nor builds; unless hidden it appends exactly the left-stripped text, and a comment typed after a space leaves the log as it was |
| `Docker.DirectiveNotComment` | src/dockershit/docker.py:43-49 | a directive is never taken for a comment |
| `Docker.DirectiveLine` | src/dockershit/docker.py:49-61 | a directive never runs; it builds exactly once unless it is a recorded `WORKDIR`; recorded, it is appended, and removed again when the build fails; hidden, the log is only built; the whole new state is given in each case, so image and directory are kept |
| `Docker.WorkdirLine` | src/dockershit/docker.py:54-58 | a recorded `WORKDIR` directive is appended and handed to `cd` without run or build, so the directory becomes the resolved path and a `WORKDIR` line for it is in the log |
| `Docker.CdNotDirective` | src/dockershit/docker.py:49-64 | a line starting with `cd ` is neither a directive nor a comment |
| `Docker.PlainCdLine` | src/dockershit/docker.py:64-67 | a `cd` without operators neither runs nor builds; the new state is exactly what `cd` gives for the stripped argument, so the directory becomes that argument resolved against the current one, with its `WORKDIR` line in the log |
| `Docker.ShellSuccess` | src/dockershit/docker.py:69-75 | a successful shell command runs once; unless hidden it appends `""` and `RUN <cmd>` and builds once, and a failed build leaves only the `""`, each as the whole new state with image and directory kept; hidden, the log is unchanged and nothing is built |
| `Docker.ShellFailure` | src/dockershit/docker.py:76-77 | a failed shell command runs once, builds nothing and appends exactly `# (error) RUN <cmd>`, hidden or not |
| `Docker.CdWithOperator` | src/dockershit/docker.py:64-69 | a `cd` joined to another command by an operator runs as a shell command and leaves the directory unchanged |
| `Docker.Docker.constructor` | src/dockershit/docker.py:9-13 | the dispatcher holds the given log, shell, tag and debug flag |
| `Docker.Docker.Build` | src/dockershit/docker.py:15-31 | returns true exactly when the build's exit code is 0; the log becomes `Built(old log, exit code)`, rolled back on failure |
| `Docker.Docker.Input` | src/dockershit/docker.py:33-77 | the new log and the number of runs and builds are those of `Dispatch` on the old log, for the given exit codes |
| `Keyboard.PromptsSpec` | src/dockershit/keyboard.py:26 | the prompts of n reads are `# ` and then `... ` for every continuation |
| `Keyboard.GatherSpec` | src/dockershit/keyboard.py:29-43 | reading stops at the first right-stripped line without a trailing backslash, which is kept whole; each line before it loses exactly its final backslash; if there is no such line, every line is continued |
| `Keyboard.IndentedSpec` | src/dockershit/keyboard.py:46-50 | the first piece is kept and every later piece gets four spaces in front |
| `Keyboard.Attempt` | src/dockershit/keyboard.py:22-53 | one attempt shows one prompt per physical line consumed; `Eof` has consumed the whole terminal plus one more prompt, and `Interrupt` consumed one line |
| `Keyboard.AttemptInterruptIff` | src/dockershit/keyboard.py:31-33 | an attempt is interrupted exactly when its first physical line, right-stripped, is `exit` or `quit` |
| `Keyboard.AttemptEofIff` | src/dockershit/keyboard.py:24-40 | an attempt runs out of input exactly when every physical line left, right-stripped, ends in a backslash |
| `Keyboard.AttemptLine` | src/dockershit/keyboard.py:24-53 | an attempt that gives a line consumes the lines up to and including the first one not continued; its text is those lines, the earlier ones without their final backslash, indented, joined and stripped |
| `Keyboard.LogicalStripped` | src/dockershit/keyboard.py:53-55 | a returned line is never empty and is its own `strip()` |
| `Keyboard.BlankLineReRead` | src/dockershit/keyboard.py:55 | a blank physical line gives an empty logical line, so reading starts over on the next line with a fresh `# ` prompt |
| `Keyboard.SingleLine` | src/dockershit/keyboard.py:29-55 | a complete first line that is neither blank nor `exit`/`quit` is returned stripped after one `# ` prompt |
| `Keyboard.ContinuedLine` | src/dockershit/keyboard.py:36-53 | a continued line and a complete one give the first without its backslash, a line break, four spaces and the second, stripped, after the prompts `# ` and `... ` |
| `Keyboard.BlankLinesThenCommand` | src/dockershit/keyboard.py:53-55 | two blank lines and then `ENV VAR=value` give `ENV VAR=value` after three `# ` prompts |
| `Keyboard.SurroundingSpaces` | src/dockershit/keyboard.py:29-53 | `  WORKDIR /app  ` is returned as `WORKDIR /app` |
| `Keyboard.ThreePhysicalLines` | src/dockershit/keyboard.py:43-53 | the three lines of the multi-line example give one text whose continued pieces keep their space before the line break, after three prompts |
| `Keyboard.IndentPieces` | src/dockershit/keyboard.py:46-50 | the loop builds exactly `Indented` of the pieces |
| `Keyboard.AssemblePieces` | src/dockershit/keyboard.py:46-53 | the assembled text is `Assemble` of the pieces: indented, joined by `\n` and stripped |
| `Keyboard.ReadLines` | src/dockershit/keyboard.py:22-43 | the reading loop stops on `exit`/`quit` as the first line after one prompt, on running out after one prompt per line plus one, or with exactly the pieces `Gather` describes after one prompt per piece |
| `Keyboard.ReadAttempt` | src/dockershit/keyboard.py:22-53 | the reading loop and the assembly compute `Attempt` of the terminal |
| `Keyboard.Input` | src/dockershit/keyboard.py:18-55 | `input` computes `Logical` of the terminal: attempts are repeated from the next physical line while they give an empty text |
| `Strings.StripIdempotent` | src/dockershit/keyboard.py:53 | stripping twice is stripping once |
| `Strings.StripAfterRStrip` | src/dockershit/keyboard.py:29-53 | right-stripping before stripping changes nothing |
| `Strings.SplitJoinedLines` | src/dockershit/docker_file.py:33-79 | `splitlines` of lines joined by `\n` with a final `\n` gives the lines back, when none holds a line break |

## Left out

- Subprocesses: `docker build` and `docker run` (`src/dockershit/docker.py:16-20`,
  `:79-95`) and the echoing of their output (`:23-29`) are not modelled. Only their
  exit codes are, as method parameters.
- The filesystem: reading, writing and `Path.exists` are the field `file`. Only
  what the file holds is modelled; there is no path, no I/O error and no concurrent
  writer.
- `Keyboard.__init__` and `_setup`: the `readline` history file and the `atexit`
  hook are foreign I/O.
- `input()` itself: the terminal is a finite sequence of lines, so running out of
  lines (`Eof`) stands for end of input.
- `src/dockershit/dockershit.py`, the command-line driver, is not part of this model.
- `src/dockershit/command.py` is not part of this model. `is_hidden`, `flatten` and
  `is_dockerfile` are the parameters of `Command`; `Sound` holds only what the
  tests say of them, and `flatten` is left unconstrained.
- `Dockerfile.cd` is not part of this model. It is the parameter `CdStep`, with the
  contract `CdSound`.
- Crash paths are preconditions, not modelled outcomes:
  - `load` on an existing but empty file, where the loop variable is unbound
    (`Loadable`);
  - `split(maxsplit=1)` on a line with a space but fewer than two fields
    (`AllSplitSafe`);
  - splitting a recorded `WORKDIR` directive whose flattened form lacks
    `WORKDIR ` (`SplitDefined`);
  - `remove_last_command` on a log where nothing matters (`HasCommand`,
    `RollbackDefined`).
- Whitespace is the set of characters below 128 that Python's `str.isspace`
  accepts, and the line breaks of `splitlines` are those Python's
  `str.splitlines` uses. `upper` changes ASCII letters only. Whitespace above 128
  and Python's Unicode case mapping are not modelled.
- `Keyboard.Input` is split into the reading loop (`ReadLines`), the assembly
  (`AssemblePieces`), one pass combining them (`ReadAttempt`) and a recursive
  retry. The source keeps all of them in one method.
- The `debug` flag only selects where container output goes, which is not
  modelled.
