/**
 * The instruction log: the recipe lines a session builds up, the base image and
 * the working directory it mirrors, and the recipe file they are written to.
 *
 * The file is modelled as a field `file`: `None` while no file exists, `Some(text)`
 * once it holds `text`. Reading the file at start-up reads that field; writing it
 * sets the field to the lines joined by "\n" plus a final "\n".
 */
module DockerFile {
  import opened Wrappers
  import opened Strings

  /** The directives a user may type straight into the recipe. */
  const COMMANDS: seq<string> :=
    ["ADD", "COPY", "ENV", "EXPOSE", "LABEL", "USER", "VOLUME", "WORKDIR", "CMD", "ENTRYPOINT"]

  const DEFAULT_IMAGE: string := "alpine:latest"

  // ---------------------------------------------------------------------------
  // Classifiers

  /** A line matters unless it is blank or, once stripped, a comment. */
  predicate Matters(line: string) {
    var t := Strip(line);
    t != "" && !StartsWith(t, "#")
  }

  /** A line is a directive when its first word is one of `COMMANDS`, case-sensitively. */
  predicate IsCommand(line: string) {
    var parts := Words(Strip(line));
    |parts| > 0 && parts[0] in COMMANDS
  }

  /** Leading whitespace is skipped; the first other character decides. */
  lemma MattersIff(line: string)
    ensures Matters(line) <==>
      exists i :: 0 <= i < |line| && !IsSpace(line[i]) && line[i] != '#'
                  && forall j :: 0 <= j < i ==> IsSpace(line[j])
  {
    var t := LStrip(line);
    var i := Indent(line);
    IndentSpec(line);
    if t != [] {
      StripHead(line);
      assert Strip(line)[..1] == [t[0]];
      assert t[0] == line[i];
    } else {
      assert Strip(line) == [];
    }
    if exists i' :: 0 <= i' < |line| && !IsSpace(line[i']) && line[i'] != '#'
                    && forall j :: 0 <= j < i' ==> IsSpace(line[j]) {
      var i' :| 0 <= i' < |line| && !IsSpace(line[i']) && line[i'] != '#'
                && forall j :: 0 <= j < i' ==> IsSpace(line[j]);
      assert i' == i;
    }
  }

  /** The first whitespace-separated word decides, exactly as typed. */
  lemma IsCommandIff(line: string)
    ensures IsCommand(line) <==> TakeWord(LStrip(line)) in COMMANDS
  {
    FirstWordOfStrip(line);
  }

  /** A line that opens with the word `w` followed by a space is a directive exactly
      when `w` is one of `COMMANDS`. */
  lemma {:induction false} FirstWordDecides(w: string, rest: string)
    requires w != [] && forall i :: 0 <= i < |w| ==> !IsSpace(w[i])
    ensures IsCommand(w + " " + rest) <==> w in COMMANDS
  {
    var line := w + " " + rest;
    assert LStrip(line) == line by {
      assert line[0] == w[0];
    }
    assert WordEnd(line) == |w| by {
      WordEndSpec(line);
      assert line[|w|] == ' ';
      assert forall i :: 0 <= i < |w| ==> line[i] == w[i];
    }
    assert TakeWord(line) == w;
    IsCommandIff(line);
  }

  /** A directive is never blank and never a comment. */
  lemma CommandMatters(line: string)
    requires IsCommand(line)
    ensures Matters(line)
  {
    IsCommandIff(line);
    var t := LStrip(line);
    var w := TakeWord(t);
    assert w != [] && w[0] != '#';
    StripHead(line);
    assert Strip(line)[..1] == [t[0]];
  }

  // ---------------------------------------------------------------------------
  // The recipe file's text

  function Text(lines: seq<string>): string {
    Join(lines, "\n") + "\n"
  }

  // ---------------------------------------------------------------------------
  // Base image

  /** The test `set_image` applies: the upper-cased line starts with "FROM ". */
  predicate IsFromLine(line: string) {
    StartsWith(Upper(line), "FROM ")
  }

  /** The first index at or after `from` of a FROM line. */
  function FindFrom(lines: seq<string>, from: nat): (r: Option<nat>)
    requires from <= |lines|
    ensures r.Some? ==> from <= r.value < |lines| && IsFromLine(lines[r.value])
                        && forall j :: from <= j < r.value ==> !IsFromLine(lines[j])
    ensures r.None? ==> forall j :: from <= j < |lines| ==> !IsFromLine(lines[j])
    decreases |lines| - from
  {
    if from == |lines| then None
    else if IsFromLine(lines[from]) then Some(from)
    else FindFrom(lines, from + 1)
  }

  /** The lines after `set_image(image)`: the first FROM line rewritten, or a FROM
      line put in front when there is none. */
  function WithImage(lines: seq<string>, image: string): (r: seq<string>)
    ensures (forall j :: 0 <= j < |lines| ==> !IsFromLine(lines[j])) ==> r == ["FROM " + image] + lines
    ensures (exists k :: 0 <= k < |lines| && IsFromLine(lines[k])) ==>
      exists k :: 0 <= k < |lines| && IsFromLine(lines[k])
                  && (forall j :: 0 <= j < k ==> !IsFromLine(lines[j]))
                  && r == lines[k := "FROM " + image]
  {
    match FindFrom(lines, 0)
    case Some(k) => lines[k := "FROM " + image]
    case None => ["FROM " + image] + lines
  }

  lemma FromLineIsFromLine(image: string)
    ensures IsFromLine("FROM " + image)
  {
    var u := Upper("FROM " + image);
    assert u[..5] == "FROM ";
  }

  /** Setting the same image twice leaves the lines of the first call. */
  lemma SetImageIdempotent(lines: seq<string>, image: string)
    ensures WithImage(WithImage(lines, image), image) == WithImage(lines, image)
  {
    FromLineIsFromLine(image);
    var once := WithImage(lines, image);
    match FindFrom(lines, 0)
    case Some(k) =>
      assert once == lines[k := "FROM " + image];
      assert forall j :: 0 <= j < k ==> once[j] == lines[j];
      assert IsFromLine(once[k]);
      assert FindFrom(once, 0) == Some(k);
    case None =>
      assert once[0] == "FROM " + image;
      assert FindFrom(once, 0) == Some(0);
  }

  // ---------------------------------------------------------------------------
  // Rollback

  /** Some line of the log matters, so a rollback has something to remove. */
  predicate HasCommand(lines: seq<string>) {
    exists k :: 0 <= k < |lines| && Matters(lines[k])
  }

  /** The index of the last line that matters. */
  function LastCommand(lines: seq<string>): (k: nat)
    requires HasCommand(lines)
    ensures k < |lines| && Matters(lines[k])
    ensures forall j :: k < j < |lines| ==> !Matters(lines[j])
    decreases |lines|
  {
    var n := |lines| - 1;
    if Matters(lines[n]) then n
    else
      assert HasCommand(lines[..n]) by {
        var k :| 0 <= k < |lines| && Matters(lines[k]);
        assert k < n && lines[..n][k] == lines[k];
      }
      LastCommand(lines[..n])
  }

  /** The lines after `remove_last_command`: everything before the last line that matters. */
  function Rollback(lines: seq<string>): seq<string>
    requires HasCommand(lines)
  {
    lines[..LastCommand(lines)]
  }

  /** The last line that matters is the last one of a prefix ending in a line that
      matters and reaching past it. */
  lemma RollbackAt(lines: seq<string>, m: nat)
    requires HasCommand(lines)
    requires LastCommand(lines) < m <= |lines| && Matters(lines[m - 1])
    ensures Rollback(lines) == lines[..m - 1]
  {
  }

  /** Rolling back drops the last line that matters and only the inert lines after it. */
  lemma RollbackShape(lines: seq<string>)
    requires HasCommand(lines)
    ensures var r := Rollback(lines);
      && |r| < |lines|
      && r == lines[..|r|]
      && Matters(lines[|r|])
      && forall j :: |r| < j < |lines| ==> !Matters(lines[j])
  {
  }

  /** Appending a line that matters and rolling back gives the log back. */
  lemma AppendThenRollback(lines: seq<string>, x: string)
    requires Matters(x)
    ensures HasCommand(lines + [x]) && Rollback(lines + [x]) == lines
  {
    var l := lines + [x];
    assert l[|lines|] == x;
    assert l[..|lines|] == lines;
  }

  /** Appending keeps what a rollback can remove. */
  lemma AppendKeepsCommand(lines: seq<string>, x: string)
    requires HasCommand(lines)
    ensures HasCommand(lines + [x])
  {
    var k :| 0 <= k < |lines| && Matters(lines[k]);
    assert (lines + [x])[k] == lines[k];
  }

  // ---------------------------------------------------------------------------
  // Loading

  /** The log lines and the pending `current` group after the load loop has seen `raw`. */
  function Scan(raw: seq<string>): (seq<string>, string)
    decreases |raw|
  {
    if raw == [] then ([], "")
    else
      var (lines, current) := Scan(raw[..|raw| - 1]);
      var line := raw[|raw| - 1];
      if EndsWith(current, "\\") then (lines, current + "\n" + line)
      else (lines + [line], line)
  }

  /** The log lines loaded from the physical lines `raw`: the first physical line of
      every group, and the whole last group when the file ends inside one. */
  function LoadLines(raw: seq<string>): seq<string>
    requires raw != []
  {
    var (lines, current) := Scan(raw);
    if current != raw[|raw| - 1] then lines + [current] else lines
  }

  /** The loop of `load` over the physical lines of the file. */
  method JoinContinuations(raw: seq<string>) returns (loaded: seq<string>)
    requires raw != []
    ensures loaded == LoadLines(raw)
  {
    loaded := [];
    var current := "";
    for i := 0 to |raw|
      invariant (loaded, current) == Scan(raw[..i])
    {
      var line := raw[i];
      assert raw[..i + 1] == raw[..i] + [line];
      if EndsWith(current, "\\") {
        current := current + "\n" + line;
        continue;
      }
      current := line;
      loaded := loaded + [line];
    }
    assert raw[..|raw|] == raw;
    // the file ends inside a continuation group
    if current != raw[|raw| - 1] {
      loaded := loaded + [current];
    }
  }

  /** Without continuations, loading keeps the physical lines as they are. */
  lemma LoadLinesPlain(raw: seq<string>)
    requires raw != []
    requires forall k :: 0 <= k < |raw| ==> !EndsWith(raw[k], "\\")
    ensures LoadLines(raw) == raw
  {
    ScanPlain(raw);
  }

  lemma {:induction false} ScanPlain(raw: seq<string>)
    requires raw != []
    requires forall k :: 0 <= k < |raw| ==> !EndsWith(raw[k], "\\")
    ensures Scan(raw) == (raw, raw[|raw| - 1])
    decreases |raw|
  {
    var n := |raw| - 1;
    if n > 0 {
      ScanPlain(raw[..n]);
      assert raw[..n][n - 1] == raw[n - 1];
      assert !EndsWith(raw[n - 1], "\\");
      assert Scan(raw) == (raw[..n] + [raw[n]], raw[n]);
      assert raw[..n] + [raw[n]] == raw;
    } else {
      assert raw[..0] == [];
      assert Scan(raw[..0]) == ([], "");
      assert !EndsWith("", "\\");
      var none: seq<string> := [];
      assert none + [raw[0]] == [raw[0]];
      assert Scan(raw) == ([raw[0]], raw[0]);
      assert [raw[0]] == raw;
    }
  }

  /** A continuation group: a first line and at least one more, every line of it
      but the last ending in a backslash. */
  predicate Group(g: seq<string>) {
    |g| >= 2 && forall j :: 0 <= j < |g| - 1 ==> EndsWith(g[j], "\\")
  }

  /** After `raw` the load loop is between groups: `current` is not continued. */
  predicate Settled(raw: seq<string>) {
    !EndsWith(Scan(raw).1, "\\")
  }

  lemma BackslashAtEnd(x: string, y: string)
    ensures EndsWith(x + "\n" + y, "\\") <==> EndsWith(y, "\\")
  {
    var s := x + "\n" + y;
    assert s[|s| - 1] == if y == "" then '\n' else y[|y| - 1];
    assert s[|s| - 1..] == [s[|s| - 1]];
    if y != "" {
      assert y[|y| - 1..] == [y[|y| - 1]];
    }
  }

  /** A group read between groups: the log gains only the group's first line, and
      `current` becomes the whole group joined by line breaks. */
  lemma {:induction false} ScanGroup(pre: seq<string>, g: seq<string>)
    requires Settled(pre) && Group(g)
    ensures Scan(pre + g) == (Scan(pre).0 + [g[0]], Join(g, "\n"))
    decreases |g|
  {
    var n := |g| - 1;
    var init := g[..n];
    assert (pre + g)[..|pre + g| - 1] == pre + init && (pre + g)[|pre + g| - 1] == g[n];
    JoinSnoc(init, "\n", g[n]);
    assert init + [g[n]] == g;
    if n == 1 {
      assert (pre + init)[..|pre|] == pre && (pre + init)[|pre|] == g[0];
      assert Scan(pre + init) == (Scan(pre).0 + [g[0]], g[0]);
      assert Join(init, "\n") == g[0];
    } else {
      ScanGroup(pre, init);
      JoinSnoc(init[..n - 1], "\n", init[n - 1]);
      assert init[..n - 1] + [init[n - 1]] == init;
      BackslashAtEnd(Join(init[..n - 1], "\n"), g[n - 1]);
    }
  }

  /** Once the loop is between groups, what follows is read as from a fresh start. */
  lemma {:induction false} ScanSettled(a: seq<string>, b: seq<string>)
    requires Settled(a) && b != []
    ensures Scan(a + b) == (Scan(a).0 + Scan(b).0, Scan(b).1)
    decreases |b|
  {
    var n := |b| - 1;
    assert (a + b)[..|a + b| - 1] == a + b[..n] && (a + b)[|a + b| - 1] == b[n];
    if n == 0 {
      var none: seq<string> := [];
      assert b[..0] == none && a + none == a;
      assert Scan(none) == (none, "") && !EndsWith("", "\\");
      assert none + [b[0]] == [b[0]];
      assert Scan(b) == ([b[0]], b[0]);
    } else {
      ScanSettled(a, b[..n]);
      var (l, c) := Scan(b[..n]);
      assert Scan(a).0 + l + [b[n]] == Scan(a).0 + (l + [b[n]]);
    }
  }

  /** A group that ends before the file does keeps only its first physical line;
      the lines after it load as they would on their own. */
  lemma LoadGroupMidFile(pre: seq<string>, g: seq<string>, rest: seq<string>)
    requires Settled(pre) && Group(g) && !EndsWith(g[|g| - 1], "\\") && rest != []
    ensures LoadLines(pre + g + rest) == Scan(pre).0 + [g[0]] + LoadLines(rest)
  {
    GroupClosed(pre, g);
    LoadSettled(pre + g, rest);
  }

  /** Once the loop is between groups, the rest of the file loads as on its own. */
  lemma LoadSettled(a: seq<string>, b: seq<string>)
    requires Settled(a) && b != []
    ensures LoadLines(a + b) == Scan(a).0 + LoadLines(b)
  {
    ScanSettled(a, b);
    var all := a + b;
    assert all[|all| - 1] == b[|b| - 1];
    var (l, c) := Scan(b);
    assert Scan(all) == (Scan(a).0 + l, c);
    assert Scan(a).0 + l + [c] == Scan(a).0 + (l + [c]);
  }

  /** A group whose last line is not continued leaves the loop between groups. */
  lemma GroupClosed(pre: seq<string>, g: seq<string>)
    requires Settled(pre) && Group(g) && !EndsWith(g[|g| - 1], "\\")
    ensures Settled(pre + g) && Scan(pre + g).0 == Scan(pre).0 + [g[0]]
  {
    var n := |g| - 1;
    ScanGroup(pre, g);
    JoinSnoc(g[..n], "\n", g[n]);
    assert g[..n] + [g[n]] == g;
    BackslashAtEnd(Join(g[..n], "\n"), g[n]);
  }

  /** A file that ends inside a group keeps the group's first physical line and then
      the whole group joined by line breaks. */
  lemma LoadGroupAtEnd(pre: seq<string>, g: seq<string>)
    requires Settled(pre) && Group(g)
    ensures LoadLines(pre + g) == Scan(pre).0 + [g[0], Join(g, "\n")]
  {
    var n := |g| - 1;
    ScanGroup(pre, g);
    JoinSnoc(g[..n], "\n", g[n]);
    assert g[..n] + [g[n]] == g;
    var all := pre + g;
    assert all[|all| - 1] == g[n];
    assert |Join(g, "\n")| > |g[n]|;
  }

  /** The second line of a group in the middle of the file is lost. */
  lemma ContinuationDropped(x: string, y: string, z: string)
    requires x == "RUN a \\" && y == "b" && z == "RUN c"
    ensures LoadLines([x, y, z]) == [x, z]
  {
    assert EndsWith(x, "\\") && !EndsWith(y, "\\") && !EndsWith(z, "\\");
    assert Scan([]) == ([], "");
    LoadGroupMidFile([], [x, y], [z]);
    assert [] + [x, y] + [z] == [x, y, z];
    LoadLinesPlain([z]);
  }

  /** `line.split(maxsplit=1)` neither fails on a line with a space nor leaves a
      FROM or WORKDIR line without its argument. */
  predicate SplitSafe(line: string) {
    ' ' in line ==>
      var f := SplitOnce(line);
      f != [] && (Upper(f[0]) == "FROM" || Upper(f[0]) == "WORKDIR" ==> |f| == 2)
  }

  predicate AllSplitSafe(lines: seq<string>) {
    lines == [] || (SplitSafe(lines[0]) && AllSplitSafe(lines[1..]))
  }

  /** The argument `cmd[1]` a line contributes when its first field `cmd[0]`
      upper-cases to `key` (only lines holding a space are split). */
  function Arg(line: string, key: string): Option<string> {
    var f := SplitOnce(line);
    if ' ' in line && |f| == 2 && Upper(f[0]) == key then Some(f[1]) else None
  }

  /** `[cmd[1] for cmd in cmds if cmd[0].upper() == key]` over the log lines. */
  function Args(lines: seq<string>, key: string): seq<string> {
    FilterMap(lines, line => Arg(line, key))
  }

  /** The first argument comes from the first line that names the key. */
  lemma FirstArg(lines: seq<string>, key: string)
    requires Args(lines, key) != []
    ensures exists k :: 0 <= k < |lines| && Arg(lines[k], key).Some?
                        && (forall j :: 0 <= j < k ==> Arg(lines[j], key).None?)
                        && Args(lines, key)[0] == Arg(lines[k], key).value
  {
    FirstOfFilterMap(lines, line => Arg(line, key));
  }

  /** The last argument comes from the last line that names the key. */
  lemma LastArg(lines: seq<string>, key: string)
    requires Args(lines, key) != []
    ensures var a := Args(lines, key);
      exists k :: 0 <= k < |lines| && Arg(lines[k], key).Some?
                  && (forall j :: k < j < |lines| ==> Arg(lines[j], key).None?)
                  && a[|a| - 1] == Arg(lines[k], key).value
  {
    LastOfFilterMap(lines, line => Arg(line, key));
  }

  // ---------------------------------------------------------------------------
  // The log as a value

  datatype Snapshot = Snapshot(lines: seq<string>, image: string, workdir: string, file: Option<string>)

  /** `load` neither fails on an empty file (the loop variable would be unbound)
      nor on a line that `split(maxsplit=1)` cannot serve. */
  predicate Loadable(s: Snapshot) {
    if s.file.Some? then
      var raw := SplitLines(s.file.value);
      raw != [] && AllSplitSafe(LoadLines(raw))
    else AllSplitSafe(s.lines)
  }

  /** The log lines after `load`: those read from the file when there is one. */
  function LoadedLines(s: Snapshot): seq<string>
    requires Loadable(s)
  {
    if s.file.Some? then LoadLines(SplitLines(s.file.value)) else s.lines
  }

  /** The state after `load`. */
  function Loaded(s: Snapshot): Snapshot
    requires Loadable(s)
  {
    var lines := LoadedLines(s);
    var froms := Args(lines, "FROM");
    var chdirs := Args(lines, "WORKDIR");
    s.(lines := lines,
       image := if froms != [] then froms[0] else s.image,
       workdir := if chdirs != [] then chdirs[|chdirs| - 1] else s.workdir)
  }

  lemma LoadedFrom(s: Snapshot, lines: seq<string>, froms: seq<string>, chdirs: seq<string>)
    requires Loadable(s) && lines == LoadedLines(s)
    requires froms == Args(lines, "FROM") && chdirs == Args(lines, "WORKDIR")
    ensures Loaded(s) == Snapshot(lines, if froms != [] then froms[0] else s.image,
                                  if chdirs != [] then chdirs[|chdirs| - 1] else s.workdir, s.file)
  {
  }

  function WithImageSet(s: Snapshot, image: string): Snapshot {
    s.(lines := WithImage(s.lines, image), image := image)
  }

  /** The state right after construction from the file content `stored` and the
      requested image (`""` when none was given). */
  function Opened(stored: Option<string>, requested: string): Snapshot
    requires Loadable(Snapshot([], requested, "/", stored))
  {
    var s := Loaded(Snapshot([], requested, "/", stored));
    if stored.None? || s.image == "" then
      WithImageSet(s, if requested != "" then requested else DEFAULT_IMAGE)
    else if requested != "" then WithImageSet(s, requested)
    else s
  }

  function Written(s: Snapshot): Snapshot {
    s.(file := Some(Text(s.lines)))
  }

  function Appended(s: Snapshot, line: string): Snapshot {
    Written(s.(lines := s.lines + [line]))
  }

  function RolledBack(s: Snapshot): Snapshot
    requires HasCommand(s.lines)
  {
    Written(s.(lines := Rollback(s.lines)))
  }

  /** Without a file, the log is one FROM line for the requested or default image. */
  lemma OpenMissing(requested: string)
    ensures var image := if requested != "" then requested else DEFAULT_IMAGE;
      Opened(None, requested) == Snapshot(["FROM " + image], image, "/", None)
  {
  }

  /** Writing a log and opening the written file gives the same lines back, the image
      of its first FROM line and the directory of its last WORKDIR line. */
  lemma ReopenWritten(lines: seq<string>)
    requires lines != []
    requires forall k :: 0 <= k < |lines| ==> NoLineBreak(lines[k]) && !EndsWith(lines[k], "\\")
    requires AllSplitSafe(lines)
    requires Args(lines, "FROM") != []
    ensures Loadable(Snapshot([], "", "/", Some(Text(lines))))
    ensures var chdirs := Args(lines, "WORKDIR");
      Opened(Some(Text(lines)), "") ==
        Snapshot(lines, Args(lines, "FROM")[0],
                 if chdirs != [] then chdirs[|chdirs| - 1] else "/", Some(Text(lines)))
  {
    ReadWritten(lines);
    ArgsNonEmpty(lines, "FROM");
  }

  /** The written text loads back as the same lines. */
  lemma ReadWritten(lines: seq<string>)
    requires lines != []
    requires forall k :: 0 <= k < |lines| ==> NoLineBreak(lines[k]) && !EndsWith(lines[k], "\\")
    requires AllSplitSafe(lines)
    ensures var s := Snapshot([], "", "/", Some(Text(lines)));
      Loadable(s) && LoadedLines(s) == lines
  {
    SplitJoinedLines(lines);
    LoadLinesPlain(lines);
  }

  /** No argument collected for a key is empty: neither the image `load` takes
      from the first nor the directory it takes from the last. */
  lemma {:induction false} ArgsNonEmpty(lines: seq<string>, key: string)
    ensures forall i :: 0 <= i < |Args(lines, key)| ==> Args(lines, key)[i] != ""
    decreases |lines|
  {
    if lines != [] {
      ArgsNonEmpty(lines[1..], key);
      var head := Arg(lines[0], key);
      assert Args(lines, key) == (if head.Some? then [head.value] else []) + Args(lines[1..], key);
      if head.Some? {
        ArgNonEmpty(lines[0], key);
      }
    }
  }

  lemma ArgNonEmpty(line: string, key: string)
    requires Arg(line, key).Some?
    ensures Arg(line, key).value != ""
  {
  }

  // ---------------------------------------------------------------------------
  // Changing directory (the body of `cd` is not part of this model)

  /** `dir` taken relative to `workdir` unless it is absolute. */
  function Resolve(workdir: string, dir: string): string {
    if StartsWith(dir, "/") then dir
    else (if EndsWith(workdir, "/") then workdir else workdir + "/") + dir
  }

  /** The effect of `Dockerfile.cd(dir)` on a log. */
  type CdStep = (Snapshot, string) -> Snapshot

  /** What is known of `cd`: the directory is resolved and a WORKDIR line for it is in the log. */
  ghost predicate CdSound(cd: CdStep) {
    forall s: Snapshot, dir: string ::
      cd(s, dir).workdir == Resolve(s.workdir, dir)
      && "WORKDIR " + Resolve(s.workdir, dir) in cd(s, dir).lines
  }

  // ---------------------------------------------------------------------------

  class Dockerfile {
    var lines: seq<string>
    var image: string
    var workdir: string
    var file: Option<string>

    function State(): Snapshot
      reads this
    {
      Snapshot(lines, image, workdir, file)
    }

    /** Opens the recipe whose file holds `stored` (`None`: no file yet), with the
        image `requested` (`""`: none) overriding the file's. */
    constructor (stored: Option<string>, requested: string)
      requires Loadable(Snapshot([], requested, "/", stored))
      ensures State() == Opened(stored, requested)
    {
      lines, image, workdir, file := [], requested, "/", stored;
      new;
      Load();
      if file.None? || image == "" {
        SetImage(if requested != "" then requested else DEFAULT_IMAGE);
      } else if requested != "" {
        SetImage(requested);
      }
    }

    method Load()
      requires Loadable(State())
      modifies this
      ensures State() == Loaded(old(State()))
    {
      ghost var before := State();
      if file.Some? {
        lines := JoinContinuations(SplitLines(file.value));
      }
      assert lines == LoadedLines(before);
      var froms := Args(lines, "FROM");
      var chdirs := Args(lines, "WORKDIR");
      image := if froms != [] then froms[0] else image;
      workdir := if chdirs != [] then chdirs[|chdirs| - 1] else workdir;
      LoadedFrom(before, lines, froms, chdirs);
    }

    method SetImage(img: string)
      modifies this
      ensures lines == WithImage(old(lines), img)
      ensures image == img && workdir == old(workdir) && file == old(file)
    {
      image := img;
      for i := 0 to |lines|
        invariant lines == old(lines)
        invariant forall j :: 0 <= j < i ==> !IsFromLine(lines[j])
      {
        if IsFromLine(lines[i]) {
          assert FindFrom(lines, 0) == Some(i);
          lines := lines[i := "FROM " + img];
          return;
        }
      }
      lines := ["FROM " + img] + lines;
    }

    method SetPwd(pwd: string)
      modifies this
      ensures workdir == pwd && lines == old(lines) + ["WORKDIR " + pwd]
      ensures image == old(image) && file == Some(Text(lines))
    {
      workdir := pwd;
      Append("WORKDIR " + pwd);
    }

    method Append(line: string)
      modifies this
      ensures State() == Appended(old(State()), line)
    {
      lines := lines + [line];
      Write();
    }

    method RemoveLastCommand()
      requires HasCommand(lines)
      modifies this
      ensures State() == RolledBack(old(State()))
    {
      ghost var k := LastCommand(lines);
      while |lines| > 0 && !Matters(lines[|lines| - 1])
        invariant k < |lines| <= |old(lines)| && lines == old(lines)[..|lines|]
        invariant image == old(image) && workdir == old(workdir) && file == old(file)
        decreases |lines|
      {
        lines := lines[..|lines| - 1];
      }
      assert lines[|lines| - 1] == old(lines)[|lines| - 1];
      RollbackAt(old(lines), |lines|);
      lines := lines[..|lines| - 1];
      assert lines == Rollback(old(lines));
      Write();
    }

    method Write()
      modifies this
      ensures State() == Written(old(State()))
    {
      file := Some(Text(lines));
    }

    /** Applies the unseen `cd` to this log. */
    method Cd(cd: CdStep, dir: string)
      modifies this
      ensures State() == cd(old(State()), dir)
    {
      var s := cd(State(), dir);
      lines, image, workdir, file := s.lines, s.image, s.workdir, s.file;
    }
  }
}
