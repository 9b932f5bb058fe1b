/** The external-editor module of a terminal UI: which editor to launch, read
    from the `VISUAL` and `EDITOR` environment variables, and one edit session
    that stages the seed text in a temporary file, runs the editor on it and
    collects what the user left there.

    The process environment, the shell-style tokenizer, the file system and
    the child process are not modelled; they enter as parameters: a lookup
    function, a tokenizer function, and the host's answers to each effect. */
module Editor {
  import opened Wrappers

  // ---------------------------------------------------------------------
  // Command resolution
  // ---------------------------------------------------------------------

  /** The three ways resolving the editor command can fail. */
  datatype EditorError = MissingEditor | ParseFailed | EmptyCommand

  /** Why the environment could not give a variable's value: it is unset,
      or its value is not valid Unicode. */
  datatype VarError = NotPresent | NotUnicode

  /** Reads one environment variable. */
  type Lookup = string -> Result<string, VarError>

  /** Shell-style word splitting: the words, or None when the text cannot be
      split (an unbalanced quote, say). Its rules are not modelled. */
  type Tokenizer = string -> Option<seq<string>>

  const VisualVar: string := "VISUAL"
  const EditorVar: string := "EDITOR"

  /** The environment holding exactly the given variables. */
  function EnvOf(vars: map<string, string>): Lookup {
    name => if name in vars then Ok(vars[name]) else Err(NotPresent)
  }

  /** The editor command: `VISUAL` if it can be read, otherwise `EDITOR`,
      split into words. A resolved command is never empty, and the command is
      missing exactly when neither variable can be read. */
  function ResolveEditorCommand(lookup: Lookup, split: Tokenizer): (r: Result<seq<string>, EditorError>)
    ensures r.Ok? ==> |r.value| > 0
    ensures r == Err(MissingEditor) <==> lookup(VisualVar).Err? && lookup(EditorVar).Err?
  {
    var raw :- lookup(VisualVar).OrElse(_ => lookup(EditorVar)).MapErr(_ => MissingEditor);
    var parts :- split(raw).OkOr(ParseFailed);
    if |parts| == 0 then Err(EmptyCommand) else Ok(parts)
  }

  /** The configured value, `VISUAL` if readable and `EDITOR` otherwise,
      alone decides the outcome: a value the tokenizer rejects fails to
      parse, one with no words is an empty command, and otherwise the words
      are the command, unchanged. */
  lemma ResolvesFromConfiguredValue(lookup: Lookup, split: Tokenizer, raw: string)
    requires lookup(VisualVar) == Ok(raw) || (lookup(VisualVar).Err? && lookup(EditorVar) == Ok(raw))
    ensures split(raw).None? <==> ResolveEditorCommand(lookup, split) == Err(ParseFailed)
    ensures split(raw) == Some([]) <==> ResolveEditorCommand(lookup, split) == Err(EmptyCommand)
    ensures ResolveEditorCommand(lookup, split).Ok? <==> split(raw).Some? && split(raw).value != []
    ensures ResolveEditorCommand(lookup, split).Ok? ==> split(raw) == Some(ResolveEditorCommand(lookup, split).value)
  {
  }

  /** Every resolved command is exactly the tokenizer's words for `VISUAL`,
      or, when `VISUAL` cannot be read, for `EDITOR`. */
  lemma ResolvedIsTokenizerOutput(lookup: Lookup, split: Tokenizer)
    requires ResolveEditorCommand(lookup, split).Ok?
    ensures lookup(VisualVar).Ok? ==> split(lookup(VisualVar).value) == Some(ResolveEditorCommand(lookup, split).value)
    ensures lookup(VisualVar).Err? ==>
      lookup(EditorVar).Ok? && split(lookup(EditorVar).value) == Some(ResolveEditorCommand(lookup, split).value)
  {
  }

  /** While `VISUAL` can be read, `EDITOR` is never consulted: two
      environments that agree on `VISUAL` resolve alike, whatever their
      `EDITOR`. */
  lemma EditorIgnoredWhileVisualReadable(lookup1: Lookup, lookup2: Lookup, split: Tokenizer)
    requires lookup1(VisualVar).Ok? && lookup2(VisualVar) == lookup1(VisualVar)
    ensures ResolveEditorCommand(lookup1, split) == ResolveEditorCommand(lookup2, split)
  {
  }

  /** Only the two variables are ever read. */
  lemma OnlyVisualAndEditorRead(lookup1: Lookup, lookup2: Lookup, split: Tokenizer)
    requires lookup1(VisualVar) == lookup2(VisualVar) && lookup1(EditorVar) == lookup2(EditorVar)
    ensures ResolveEditorCommand(lookup1, split) == ResolveEditorCommand(lookup2, split)
  {
  }

  /** A `VISUAL` that is set but holds no words (only whitespace, say) is an
      empty command, even when `EDITOR` names a usable editor: the fallback
      happens only when `VISUAL` cannot be read, not when it is empty. */
  lemma BlankVisualDoesNotFallBack(lookup: Lookup, split: Tokenizer)
    requires lookup(VisualVar).Ok? && split(lookup(VisualVar).value) == Some([])
    requires lookup(EditorVar).Ok? && split(lookup(EditorVar).value).Some?
    requires split(lookup(EditorVar).value).value != []
    ensures ResolveEditorCommand(lookup, split) == Err(EmptyCommand)
  {
  }

  /** A `VISUAL` whose value is not Unicode counts as unreadable, so
      `EDITOR` is used. */
  lemma NonUnicodeVisualFallsBack(lookup: Lookup, split: Tokenizer, raw: string)
    requires lookup(VisualVar) == Err(NotUnicode) && lookup(EditorVar) == Ok(raw)
    requires split(raw).Some? && split(raw).value != []
    ensures ResolveEditorCommand(lookup, split) == Ok(split(raw).value)
  {
  }

  /** With `VISUAL=vis` and `EDITOR=ed`, the command is `["vis"]`. */
  lemma PrefersVisualExample(split: Tokenizer)
    requires split("vis") == Some(["vis"])
    ensures ResolveEditorCommand(EnvOf(map[VisualVar := "vis", EditorVar := "ed"]), split) == Ok(["vis"])
  {
    var lookup := EnvOf(map[VisualVar := "vis", EditorVar := "ed"]);
    assert lookup(VisualVar) == Ok("vis");
  }

  /** With neither variable set, the editor is missing, whatever the tokenizer. */
  lemma ErrorsWhenUnsetExample(split: Tokenizer)
    ensures ResolveEditorCommand(EnvOf(map[]), split) == Err(MissingEditor)
  {
    var lookup := EnvOf(map[]);
    assert lookup(VisualVar) == Err(NotPresent) && lookup(EditorVar) == Err(NotPresent);
  }

  // ---------------------------------------------------------------------
  // Edit session
  // ---------------------------------------------------------------------

  /** The suffix of the temporary file, so that editors pick Markdown
      highlighting from the name. */
  const TempSuffix: string := ".md"

  /** One effect a session performs on the host system. */
  datatype Effect =
    | CreateTemp(suffix: string)
    | Write(path: string, data: string)
    | Spawn(program: string, args: seq<string>)
    | Read(path: string)

  /** How a session fails. An empty command is refused up front; creating,
      writing or reading the file can fail with an I/O error; the editor
      may not start, or may exit without success. */
  datatype SessionError = CommandEmpty | Io | SpawnFailed | NonSuccessExit

  /** What the host answers to each effect of one session: the path of the
      new temporary file (None: it could not be created), whether writing
      the seed succeeded, the editor's exit (None: it could not be started
      or waited for; otherwise whether its status is success), and what
      reading the file back gives (None: the read failed). */
  datatype Host = Host(created: Option<string>, written: bool, exited: Option<bool>, readBack: Option<string>)

  /** The full argument vector of a spawn: program first. */
  function Argv(e: Effect): seq<string>
    requires e.Spawn?
  {
    [e.program] + e.args
  }

  /** Whether the session may carry on after this effect. */
  predicate GoesThrough(e: Effect, host: Host) {
    match e
    case CreateTemp(_) => host.created.Some?
    case Write(_, _) => host.written
    case Spawn(_, _) => host.exited == Some(true)
    case Read(_) => host.readBack.Some?
  }

  /** The stages of a session: the file is created, then staged with the
      seed, then the editor is launched on it, then it is collected. */
  datatype Stage = Idle | Created | Staged(file: string) | Launched(file: string) | Collected(file: string)

  /** How many effects it takes to reach a stage. */
  function Depth(s: Stage): nat {
    match s
    case Idle => 0
    case Created => 1
    case Staged(_) => 2
    case Launched(_) => 3
    case Collected(_) => 4
  }

  /** The protocol as a state machine, independent of how a session is run:
      the stage an effect leads to, or None when the effect is out of order.
      The editor must be launched with the staged file as last argument, and
      only that file may be read back. */
  function Step(s: Stage, e: Effect): Option<Stage> {
    match s
    case Idle => if e == CreateTemp(TempSuffix) then Some(Created) else None
    case Created => if e.Write? then Some(Staged(e.path)) else None
    case Staged(f) =>
      if e.Spawn? && |e.args| > 0 && e.args[|e.args| - 1] == f then Some(Launched(f)) else None
    case Launched(f) => if e == Read(f) then Some(Collected(f)) else None
    case Collected(_) => None
  }

  /** Runs the state machine over a trace; None when the trace leaves the
      protocol. An accepted trace has exactly as many effects as its final
      stage's depth. */
  function Replay(trace: seq<Effect>): (r: Option<Stage>)
    ensures r.Some? ==> Depth(r.value) == |trace| <= 4
  {
    if trace == [] then Some(Idle)
    else
      match Replay(trace[..|trace| - 1])
      case None => None
      case Some(s) => Step(s, trace[|trace| - 1])
  }

  lemma ReplaySnoc(trace: seq<Effect>, e: Effect)
    ensures Replay(trace + [e]) == if Replay(trace).Some? then Step(Replay(trace).value, e) else None
  {
    assert (trace + [e])[..|trace|] == trace;
  }

  /** The position of each kind of effect in a complete session. */
  function Position(e: Effect): nat {
    match e
    case CreateTemp(_) => 0
    case Write(_, _) => 1
    case Spawn(_, _) => 2
    case Read(_) => 3
  }

  /** Every trace the protocol accepts is a beginning of one fixed order:
      create the `.md` file, write it, launch the editor with that file as
      last argument, read that same file. */
  lemma {:induction false} AcceptedTraceShape(trace: seq<Effect>)
    requires Replay(trace).Some?
    ensures forall i :: 0 <= i < |trace| ==> Position(trace[i]) == i
    ensures |trace| >= 1 ==> trace[0] == CreateTemp(TempSuffix)
    ensures |trace| >= 2 ==> trace[1].Write? && Replay(trace).value != Created && Replay(trace).value.file == trace[1].path
    ensures |trace| >= 3 ==> trace[2].Spawn? && |trace[2].args| > 0
    ensures |trace| >= 3 ==> trace[2].args[|trace[2].args| - 1] == trace[1].path
    ensures |trace| == 4 ==> trace[3] == Read(trace[1].path)
  {
    if trace != [] {
      var front := trace[..|trace| - 1];
      AcceptedTraceShape(front);
    }
  }

  /** In an accepted trace the file is read only at the end, after the
      editor was launched on it and after it was written. */
  lemma ReadFollowsSpawnOnSameFile(trace: seq<Effect>, i: int)
    requires Replay(trace).Some? && 0 <= i < |trace| && trace[i].Read?
    ensures i == 3 && trace[1].Write? && trace[1].path == trace[i].path
    ensures trace[2].Spawn? && |trace[2].args| > 0 && trace[2].args[|trace[2].args| - 1] == trace[i].path
  {
    AcceptedTraceShape(trace);
  }

  /** In an accepted trace no kind of effect happens twice: there is no
      retry within a session. */
  lemma NoEffectRepeats(trace: seq<Effect>, i: int, j: int)
    requires Replay(trace).Some? && 0 <= i < j < |trace|
    ensures Position(trace[i]) < Position(trace[j])
  {
    AcceptedTraceShape(trace);
  }

  /** The protocol is closed under stopping early: every beginning of an
      accepted trace is accepted, which is what lets a failure end a
      session at any step. */
  lemma {:induction false} AcceptedPrefix(trace: seq<Effect>, k: nat)
    requires Replay(trace).Some? && k <= |trace|
    ensures Replay(trace[..k]).Some?
  {
    if k < |trace| {
      var front := trace[..|trace| - 1];
      assert front[..k] == trace[..k];
      AcceptedPrefix(front, k);
    } else {
      assert trace[..k] == trace;
    }
  }

  /** One edit session. Returns the outcome and the effects performed, in
      order. With an empty command nothing happens. Otherwise the effects
      follow the protocol and stop at the first one that does not go
      through; the seed is written verbatim, the editor is run as the command
      followed by the file's path, the file is read only after a successful
      exit, and an empty file gives None rather than an error. */
  method RunEditor(seed: string, editorCmd: seq<string>, host: Host)
    returns (r: Result<Option<string>, SessionError>, trace: seq<Effect>)
    ensures r == Err(CommandEmpty) <==> |editorCmd| == 0
    ensures |editorCmd| == 0 ==> trace == []
    ensures |editorCmd| > 0 ==> |trace| > 0 && Replay(trace).Some? && trace[0] == CreateTemp(TempSuffix)
    ensures forall i :: 0 <= i < |trace| - 1 ==> GoesThrough(trace[i], host)
    ensures |trace| > 0 ==> (r.Err? <==> !GoesThrough(trace[|trace| - 1], host))
    ensures r.Ok? ==> |trace| == 4
    ensures |trace| >= 2 ==> host.created.Some? && trace[1] == Write(host.created.value, seed)
    ensures |trace| >= 3 ==> host.created.Some? && trace[2].Spawn? && Argv(trace[2]) == editorCmd + [host.created.value]
    ensures |trace| == 4 ==> host.created.Some? && trace[3] == Read(host.created.value)
    ensures forall e | e in trace :: e.Read? ==> host.exited == Some(true)
    ensures r == Err(SpawnFailed) <==> |trace| == 3 && host.exited.None?
    ensures r == Err(NonSuccessExit) <==> |trace| == 3 && host.exited == Some(false)
    ensures r == Err(Io) <==> |trace| > 0 && !trace[|trace| - 1].Spawn? && !GoesThrough(trace[|trace| - 1], host)
    ensures r.Ok? ==> host.readBack.Some? && (r.value.None? <==> host.readBack.value == "")
    ensures r.Ok? && r.value.Some? ==> r.value.value == host.readBack.value
  {
    trace := [];
    if |editorCmd| == 0 {
      return Err(CommandEmpty), trace;
    }

    ReplaySnoc([], CreateTemp(TempSuffix));
    trace := trace + [CreateTemp(TempSuffix)];
    if host.created.None? {
      return Err(Io), trace;
    }
    var path := host.created.value;

    ReplaySnoc(trace, Write(path, seed));
    trace := trace + [Write(path, seed)];
    if !host.written {
      return Err(Io), trace;
    }

    var program := editorCmd[0];
    var args: seq<string> := [];
    if |editorCmd| > 1 {
      args := args + editorCmd[1..];
    }
    args := args + [path];
    ReplaySnoc(trace, Spawn(program, args));
    trace := trace + [Spawn(program, args)];
    if host.exited.None? {
      return Err(SpawnFailed), trace;
    }
    if !host.exited.value {
      return Err(NonSuccessExit), trace;
    }

    ReplaySnoc(trace, Read(path));
    trace := trace + [Read(path)];
    if host.readBack.None? {
      return Err(Io), trace;
    }
    var contents := host.readBack.value;
    if contents == "" {
      r := Ok(None);
    } else {
      r := Ok(Some(contents));
    }
  }

  /** An editor that replaces the file with "edited" and exits successfully:
      the session returns that text, after running just the script on the
      file. */
  method ReturnsUpdatedContentExample(script: string, path: string)
    returns (r: Result<Option<string>, SessionError>, trace: seq<Effect>)
    ensures r == Ok(Some("edited"))
    ensures trace == [CreateTemp(TempSuffix), Write(path, "seed"), Spawn(script, [path]), Read(path)]
  {
    r, trace := RunEditor("seed", [script], Host(Some(path), true, Some(true), Some("edited")));
    assert Argv(trace[2]) == [script, path];
    assert trace[2].args == Argv(trace[2])[1..];
  }

  /** An editor that truncates the file and exits successfully: the session
      returns None, not an error. */
  method ReturnsNoneWhenFileEmptyExample(script: string, path: string)
    returns (r: Result<Option<string>, SessionError>)
    ensures r == Ok(None)
  {
    var trace;
    r, trace := RunEditor("seed", [script], Host(Some(path), true, Some(true), Some("")));
  }
}
