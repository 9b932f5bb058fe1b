# External editor: command resolution and edit session

A Dafny model of the external-editor module of a terminal UI. The UI hands
longer text to the user's own editor, the way version-control tools do for
commit messages. The module has two parts:

- **Command resolution.** It reads `VISUAL`, and falls back to `EDITOR` only
  when `VISUAL` cannot be read. It then splits the value into words with a
  shell-style tokenizer. It fails with `MissingEditor`, `ParseFailed` or
  `EmptyCommand`, and a resolved command is never empty.
- **Edit session.** It refuses an empty command. Otherwise it creates a
  temporary `.md` file and writes the seed text into it. It runs the editor
  as the command followed by the file's path, waits for it to exit, and reads
  the file back only after a successful exit. An empty file gives `None`,
  any other contents give `Some(contents)`.

The environment, the tokenizer and the host system are parameters:

- the environment is a `Lookup` function from a variable name to its value
  or a `VarError` (`NotPresent`, `NotUnicode`);
- the tokenizer is a `Tokenizer` function from text to `Option<seq<string>>`,
  whose rules are not modelled;
- the host's answers to the session's effects form a `Host` record: the
  created path or a failure, whether the write succeeded, the editor's exit
  (could not start / not success / success), and the read-back contents or a
  failure.

`RunEditor` returns its outcome together with the trace of the effects it
performed (`CreateTemp`, `Write`, `Spawn`, `Read`). So the contract can say
what happened, in which order, and what did not happen. An independent state
machine (`Step`, `Replay`) describes the protocol's order. `RunEditor`
promises that its trace is accepted by that machine, and lemmas say what
every accepted trace looks like.

Files: `wrappers.dfy` holds `Option` and `Result` with the Rust combinators
the resolver chains (`or_else`, `map_err`, `ok_or`). `editor.dfy` holds the
module `Editor`.

## Model

| member | source | states |
|---|---|---|
| `Editor.ResolveEditorCommand` | codex-rs/tui/src/editor.rs:33-42 | a resolved command is never empty; the result is `MissingEditor` exactly when neither `VISUAL` nor `EDITOR` can be read |
| `Editor.ResolvesFromConfiguredValue` | codex-rs/tui/src/editor.rs:34-41 | for the configured value (`VISUAL` if readable, else `EDITOR`): tokenizer rejects it iff `ParseFailed`; no words iff `EmptyCommand`; success iff there are words, and then the command is exactly those words |
| `Editor.ResolvedIsTokenizerOutput` | codex-rs/tui/src/editor.rs:34-41 | every successful resolution is the tokenizer's output for `VISUAL`, or for `EDITOR` when `VISUAL` cannot be read |
| `Editor.EditorIgnoredWhileVisualReadable` | codex-rs/tui/src/editor.rs:34-35 | when `VISUAL` can be read, `EDITOR` does not affect the result: environments agreeing on `VISUAL` resolve alike |
| `Editor.OnlyVisualAndEditorRead` | codex-rs/tui/src/editor.rs:34-35 | environments agreeing on `VISUAL` and `EDITOR` resolve alike: no other variable is consulted |
| `Editor.BlankVisualDoesNotFallBack` | codex-rs/tui/src/editor.rs:35-40 | a set `VISUAL` with no words gives `EmptyCommand` even when `EDITOR` would give a usable command |
| `Editor.NonUnicodeVisualFallsBack` | codex-rs/tui/src/editor.rs:34-36 | a `VISUAL` that is not Unicode counts as unreadable and `EDITOR` is used |
| `Editor.PrefersVisualExample` | codex-rs/tui/src/editor.rs:115-125 | with `VISUAL=vis` and `EDITOR=ed` the command is `["vis"]` |
| `Editor.ErrorsWhenUnsetExample` | codex-rs/tui/src/editor.rs:127-139 | with neither variable set the result is `MissingEditor`, for any tokenizer |
| `Editor.Replay` | codex-rs/tui/src/editor.rs:52-71 | the protocol state machine: an accepted trace has exactly as many effects as the depth of the stage it reaches, at most four |
| `Editor.AcceptedTraceShape` | codex-rs/tui/src/editor.rs:52-71 | every accepted trace is a beginning of create `.md` file, write, spawn with that file as last argument, read that same file; effect number i is of kind i |
| `Editor.ReadFollowsSpawnOnSameFile` | codex-rs/tui/src/editor.rs:59-71 | in an accepted trace a read is the fourth effect and comes after writing and launching the editor on the same file |
| `Editor.NoEffectRepeats` | codex-rs/tui/src/editor.rs:52-71 | in an accepted trace every later effect is of a later kind: no step is repeated or retried |
| `Editor.AcceptedPrefix` | codex-rs/tui/src/editor.rs:52-71 | every beginning of an accepted trace is accepted, so stopping at a failure still leaves a valid protocol trace |
| `Editor.RunEditor` | codex-rs/tui/src/editor.rs:47-77 | empty command iff `CommandEmpty`, with an empty trace; otherwise the trace starts with `CreateTemp(".md")` and is accepted by the protocol machine; every effect but the last went through, and the last failed iff the result is an error; success means all four effects; the seed is written verbatim to the created path; argv is the command followed by that path; the same path is read; no read unless the exit was successful; error kinds follow the failing step (`SpawnFailed`, `NonSuccessExit`, `Io`); on success an empty file gives `None` and other contents give `Some` of them unchanged |
| `Editor.ReturnsUpdatedContentExample` | codex-rs/tui/src/editor.rs:141-156 | an editor script that writes `edited` gives `Some("edited")`, and the trace is create, write `seed`, spawn the script with the file path as its only argument, read |
| `Editor.ReturnsNoneWhenFileEmptyExample` | codex-rs/tui/src/editor.rs:158-173 | an editor script that truncates the file gives `None`, not an error |

## Left out

- Reading the real process environment (`std::env::var`) and the tests' environment save/restore helpers: the environment is an injected `Lookup` function.
- The rules of the shell-style tokenizer (`shlex::split`), a foreign crate: it is an uninterpreted `Tokenizer` parameter. So how a value with quoted arguments containing spaces, such as `prog --flag "a b"`, splits into words is not modelled.
- Creating the temporary file (the `tempfile` crate), its unique name and its removal when the session ends: the created path is an answer in `Host`. Cleanup is not visible in this module.
- Asynchronous spawning and waiting, and the child inheriting the terminal's standard streams: the exit is a single answer, "could not start or wait" or a success flag. The raw exit status is not modelled.
- The error report wrapper and the `Display` messages: errors are the plain datatypes `EditorError` and `SessionError`.
- `Editor.RunEditor`: in the Rust code the failures after the empty-command check are all generic error reports. The model tells `Io`, `SpawnFailed` and `NonSuccessExit` apart. This is a refinement, not a weaker contract.
- `Editor.RunEditor`: the host's answers are fixed in advance, so the read-back contents do not depend on the seed or on what the editor did. The model says nothing about how the editor edits the file.
