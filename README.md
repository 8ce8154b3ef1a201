# claudit core in Dafny

claudit attaches the assistant's conversation log to each git commit as a
git note. This project models the logic beneath that path and proves
properties of it:

- the transcript codec (`internal/claude/transcript.go`): a JSON-lines log is
  cut into lines as `bufio.ScanLines` does, every non-empty line becomes an
  entry meant to keep its bytes, and `ToJSONL` joins the bytes back with
  newlines;
- the active-session tracker (`internal/session/tracker.go`): one persisted
  slot naming the session that is producing commits, a ten-minute staleness
  test, and a fallback scan of the assistant's sessions index that picks the
  latest entry modified within five minutes;
- the two hook handlers that drive the slot (`cmd/session_start.go`,
  `cmd/session_end.go`);
- the note store (`internal/git/notes.go`): one forced note per commit under
  `refs/notes/claude-conversations`, the parsing of `git notes list`, and the
  shape of the push and fetch commands;
- the settings editor (`internal/claude/hooks.go`): the upsert of the
  `claudit store` hook and the split and merge of the settings map;
- the repository helpers (`internal/git/repo.go`): trimmed `git rev-parse`
  output and the `.git` file of a linked worktree.

One Dafny module per source file: `Transcript`, `Tracker`, `SessionStart`,
`SessionEnd`, `Notes`, `Hooks` and `Repo`. `BufScanner` models Go's
`bufio.Scanner` as `ParseTranscript` configures it, over a regular file.
`TranscriptAliasing` models `ParseTranscript` as written on top of it. Two
modules hold what the others share. `Common` holds bytes, `Option`, `Result`, command outcomes and
`Join`. `GoStrings` holds the parts of Go's `strings` package the code
calls: `TrimSpace`, `Split` on a newline, `Fields` and the first-separator
cut of `SplitN(s, ": ", 2)`.

The effects are inputs:

- In `Repo` and in `Notes.ListCommitsWithNotes`, each `git` invocation is a
  `Git` function from the argument vector to a `CmdResult`.
- The note store holds the notes under the ref as a map. Its `AddNote`,
  `GetNote` and `HasNote` take whether their git run fails.
- The clock, file modification times and the two `time.Parse` layouts are an
  `Env`.
- JSON decoding and encoding are function parameters.
- An I/O failure is a boolean parameter.

State that the code changes in place is a class field:

- the slot file is `Tracker.ActiveSessionStore.file`;
- the notes are `Notes.NoteStore.notes`;
- the settings are `Hooks.Settings`;
- the settings file is `Hooks.ClaudeDir.file`.

The loops of the source are methods with loop invariants, proved against
specification functions (`Transcript.Parse`, `Tracker.IsRecentChoice`,
`Notes.ListedCommits`, `Hooks.WithClauditHook`).

What the code does, where it may surprise a reader, each proved:

- **A transcript entry's `Raw` shares the scanner's buffer.**
  `ParseTranscript` stores `json.RawMessage(line)`, and `line` is
  `scanner.Bytes()` (`internal/claude/transcript.go:63`, `71-73`). That
  conversion does not copy. A later `Scan` may move bytes over the ones an
  earlier entry points at. Two lines of 40,000 bytes read from a file come
  back as the second line twice (`TranscriptAliasing.RawsOverwritten`). See
  "## Findings". Elsewhere the model uses the copying parse
  `Transcript.Parse`.
- **Parsing and then `ToJSONL` is not the identity, even with copied lines.**
  The copying parse breaks it in three cases:
  - `\r\n` comes back as `\n` (`Transcript.CrLfBecomesLf`);
  - an empty line is dropped (`Transcript.EmptyLineDropped`);
  - a final newline is dropped (`Transcript.TrailingNewlineDropped`).

  For the copying parse the round trip holds under
  `Transcript.WellFormedLog` (`Transcript.SerializeParse`).
- **A stale session can come back through the index.** The ten-minute test
  of `IsSessionActive` (`internal/session/tracker.go:102`) guards only the
  recorded slot. The index scan (`tracker.go:148-161`) looks at the entry's
  `modified` time and not at the transcript
  (`Tracker.StaleSessionFromIndex`).
- **Fetching the notes is not forced.** The refspec
  `refs/notes/claude-conversations:refs/notes/claude-conversations`
  (`internal/git/notes.go:76`) has no leading `+`, so git refuses an update
  that is not a fast-forward (`Notes.FetchIsNotForced`).
- **An unreadable slot ends discovery.** The comment at
  `internal/session/tracker.go:112` says discovery continues to the index
  scan. The next line returns no session
  (`Tracker.ActiveSessionStore.DiscoverSession`).

## Model

| member | source | states |
|---|---|---|
| Transcript.ScanLine | internal/claude/transcript.go:55-62 | one `Scan` with `ScanLines` and the 10 MiB buffer: reports too-long exactly when the first piece reaches 10 MiB; otherwise returns that piece without one final `\r`, and the offset after its newline, so the rest is the remaining pieces |
| Transcript.ParseTranscript | internal/claude/transcript.go:54-84 | with each line copied into its entry, the scanner loop returns exactly `Parse(data)`: an error when some line does not fit, otherwise one entry per non-empty line with the line as `raw` |
| Transcript.ToJSONL | internal/claude/transcript.go:98-107 | the result is the entries' raw bytes joined by single newlines, none at the end |
| Transcript.ParseKeepsEveryLine | internal/claude/transcript.go:62-76 | for the copying parse: when every line fits, the parse succeeds; the entries' raw bytes are the non-empty lines, in order; each entry has non-empty `raw` and the fields the decoder gave for that line |
| Transcript.RawsIndependentOfDecoder | internal/claude/transcript.go:68-76 | success and the raw lines do not depend on what the decoder accepts: a malformed line neither aborts the parse nor loses its bytes |
| Transcript.TooLongLineFails | internal/claude/transcript.go:58-81 | a line of 10 MiB or more makes the parse return `ErrTooLong` and no transcript |
| Transcript.MessageCountOfParse | internal/claude/transcript.go:110-112 | `MessageCount` of a parsed transcript is the number of non-empty lines |
| Transcript.MessageCount | internal/claude/transcript.go:110-112 | the count is the number of entries, one per raw line |
| Transcript.SegmentsOfJoin | internal/claude/transcript.go:98-107 | cutting newline-joined lines at their newlines gives the lines back when none holds a newline and the last is non-empty |
| Transcript.JoinOfSegments | internal/claude/transcript.go:98-107 | joining the scanner's pieces with newlines restores any input that does not end with a newline |
| Transcript.SerializeParse | internal/claude/transcript.go:54-107 | for the copying parse, `ToJSONL(ParseTranscript(x)) == x` for every well-formed log, and the parse succeeds |
| Transcript.ParseSerialize | internal/claude/transcript.go:54-107 | for the copying parse, `ParseTranscript(ToJSONL(t)) == t` when every raw line is non-empty, newline-free, short enough and not ended by `\r`, and each entry's fields are what the decoder makes of its line |
| Transcript.CrLfBecomesLf | internal/claude/transcript.go:55-62 | a `\r\n` line end parses to two entries without the `\r`, so the round trip gives back `\n` |
| Transcript.EmptyLineDropped | internal/claude/transcript.go:64-66 | an empty line between two lines yields no entry |
| Transcript.TrailingNewlineDropped | internal/claude/transcript.go:62-66 | a final newline yields no entry and is not reproduced |
| BufScanner.NewScanner | internal/claude/transcript.go:55-58 | the scanner starts with nothing read and nothing buffered, over one array of 64 KiB |
| BufScanner.ScanLines | internal/claude/transcript.go:62 | a token exactly when the unconsumed bytes hold a newline, or when input has ended and bytes remain; a token consumes at least one byte and is no longer than what it consumes; asking for more consumes nothing |
| BufScanner.Shift | internal/claude/transcript.go:62 | the unconsumed bytes move to the front of the same array, over what was there; the bytes from their new end on stay as they were; the other arrays and the file position stay |
| BufScanner.Grow | internal/claude/transcript.go:57-58 | a line that does not fit gets a new, larger array of at most 10 MiB holding the unconsumed bytes at its front; every earlier array is kept as it was |
| BufScanner.Read | internal/claude/transcript.go:55 | a read of a regular file puts the next bytes of the file behind the unconsumed ones, at least one while the file lasts; the bytes before and behind the read stay as they were; at the end of the file it only records `io.EOF` |
| BufScanner.Scan | internal/claude/transcript.go:62-63 | one `Scan` keeps the offsets within the current array and the file and never rewrites an earlier array; a token is a window inside the arrays, and taking one consumes part of the file |
| BufScanner.ScanYieldsNextLine | internal/claude/transcript.go:62-63 | from a scanner whose unconsumed bytes are the file's bytes between what tokens took and what was read, one `Scan` keeps that agreement; a token shows the next line of the rest of the file without its newline and one final `\r`, and the rest then starts after that newline; no token and `io.EOF` when nothing is left; no token and `ErrTooLong` when the next line is 10 MiB or more |
| TranscriptAliasing.ScanLoop | internal/claude/transcript.go:62-81 | the loop as written only appends entries, and every entry's `Raw` stays a window inside the scanner's arrays |
| TranscriptAliasing.LoopFollowsLines | internal/claude/transcript.go:62-81 | the loop as written succeeds exactly when every line of the rest of the file is shorter than 10 MiB; it then appends one entry per non-empty line, in file order, each with the fields decoded from its own line |
| TranscriptAliasing.ParseAsWritten | internal/claude/transcript.go:54-81 | the parse as written fails exactly when the copying parse fails; otherwise it has as many entries, with the same fields, and only `Raw` may differ |
| TranscriptAliasing.RawsOverwritten | internal/claude/transcript.go:62-76 | for two lines of 40,000 bytes, the parse as written returns two entries whose `Raw` are both the second line, while the copying parse keeps each line |
| Tracker.ActiveSessionStore.WriteActiveSession | internal/session/tracker.go:30-48 | overwrites the slot with the session whatever it held; a failed write reports an error and leaves the slot |
| Tracker.ActiveSessionStore.ReadActiveSession | internal/session/tracker.go:52-72 | no session and no error exactly when there is no file; the stored session; a parse error for contents that do not decode; an error when the file cannot be read |
| Tracker.ActiveSessionStore.ClearActiveSession | internal/session/tracker.go:75-87 | the slot is absent afterwards, also when it was absent before; a removal failure reports an error and leaves the slot |
| Tracker.ActiveSessionStore.DiscoverSession | internal/session/tracker.go:108-125 | no session when the slot cannot be read or does not decode; the recorded session when it belongs to the project and is active; otherwise the index scan's choice; the slot is never changed |
| Tracker.Candidate | internal/session/tracker.go:143-161 | an entry survives exactly when its project path equals the query, its `modified` parses (RFC3339Nano, else RFC3339) and is at most five minutes before now; the result is that parsed time |
| Tracker.DiscoverRecentSession | internal/session/tracker.go:128-180 | the scan returns none when the index is unreadable or nothing survives; otherwise the latest survivor, the earliest of those tied |
| Tracker.StalenessWindow | internal/session/tracker.go:91-103 | a session with a transcript path that can be stat'ed is active exactly when its transcript was modified strictly less than ten minutes ago; at exactly ten minutes it is not; no session is never active |
| Tracker.IsSessionActive | internal/session/tracker.go:91-103 | active only for a session with a transcript path whose modification time can be read |
| Tracker.ParseModified | internal/session/tracker.go:149-156 | no time exactly when neither layout parses the text; the RFC3339Nano time when it parses; otherwise the RFC3339 time |
| Tracker.LatestCandidateUnique | internal/session/tracker.go:163-167 | at most one entry is the latest survivor with the strict-`After` tie-break, so the choice is determined |
| Tracker.RecencyWindow | internal/session/tracker.go:158-161 | a chosen session belongs to the project and its entry's `modified` is at most five minutes old; a lone entry older than that is not chosen |
| Tracker.ChoiceMapsFields | internal/session/tracker.go:174-179 | the chosen session carries the entry's session id, `FullPath` as transcript path and `Created` as start time |
| Tracker.StaleSessionFromIndex | internal/session/tracker.go:116-124 | an index entry modified now is chosen even when its transcript is ten minutes old, which the slot's staleness test would reject |
| Tracker.WriteThenRead | internal/session/tracker.go:30-72 | after a successful write, reading returns the session written |
| Tracker.ClearTwice | internal/session/tracker.go:75-87 | clearing twice succeeds both times and leaves no session |
| SessionStart.RunSessionStart | cmd/session_start.go:33-70 | unreadable input, malformed JSON or an empty session id or transcript path leave the slot and return nil; otherwise the slot holds the id, transcript path, current UTC time and unvalidated cwd; a failed write returns nil; it panics exactly when the id is shorter than 8 bytes, after the write |
| SessionEnd.RunSessionEnd | cmd/session_end.go:33-56 | unreadable input or malformed JSON leave the slot and return nil; otherwise the slot is cleared whichever session it held; a failed clear returns nil; it panics exactly when the id is shorter than 8 bytes, after the clear; reason, transcript path and cwd play no part |
| Notes.NoteStore.GetNote | internal/git/notes.go:24-31 | a failing `git notes show` run is an error; otherwise the note of a commit exactly when it has one, NotFound when it has none |
| Notes.NoteStore.HasNote | internal/git/notes.go:34-37 | never reports an error; true exactly when `GetNote` succeeds on the same run, so false whenever the run fails |
| Notes.NoteStore.AddNote | internal/git/notes.go:13-21 | forced write: afterwards the commit's note is the cleaned-up message, or the commit has no note when nothing survives the clean-up; every other commit's note is unchanged; a failing git run changes nothing |
| Notes.AddTwice | internal/git/notes.go:13-21 | two writes to one commit leave one note, the second, and the set of annotated commits gains only that commit; when the second message cleans up to nothing the commit ends with no note |
| Notes.ShaOfLine | internal/git/notes.go:54-61 | an empty line contributes nothing; another line contributes at most one SHA, a whitespace-free field |
| Notes.SecondFields | internal/git/notes.go:53-62 | every listed SHA is a non-empty whitespace-free field |
| Notes.ListCommitsWithNotes | internal/git/notes.go:40-65 | for the outcome of running `ListNotesArgs()`: exit status 1 gives an empty list and no error; any other failure is passed on; otherwise the loop returns exactly the second field of each line of the trimmed output that has two fields, in order |
| Notes.ListedAtMostNonEmptyLines | internal/git/notes.go:52-63 | no more SHAs are listed than there are non-empty lines |
| Notes.ListingRoundTrip | internal/git/notes.go:51-62 | for a listing of `note-SHA commit-SHA` lines, each ended by a newline, parsing returns every commit SHA in listing order |
| Notes.NotesCommand | internal/git/notes.go:14 | every notes subcommand is prefixed with `notes --ref refs/notes/claude-conversations` |
| Notes.AddNoteArgs | internal/git/notes.go:14 | the add is forced (`-f`) under the notes ref and names the commit last; `AddNote` takes only whether this run fails |
| Notes.ShowNoteArgs | internal/git/notes.go:25 | show runs under the notes ref and names the commit last; `GetNote` and `HasNote` take only whether this run fails |
| Notes.ListNotesArgs | internal/git/notes.go:41 | list runs under the notes ref; `ListCommitsWithNotes` runs exactly this vector |
| Notes.PushNotesArgs | internal/git/notes.go:70 | push bypasses the pre-push hook with `--no-verify` and pushes the notes ref to the remote |
| Notes.FetchNotesArgs | internal/git/notes.go:76 | fetch names the remote and the notes refspec |
| Notes.FetchIsNotForced | internal/git/notes.go:76 | the fetch refspec has no leading `+`, and it maps the notes ref onto itself |
| Hooks.FirstClauditHook | internal/claude/hooks.go:106-116 | the first entry that matches Bash, has commands and runs `claudit store`; no earlier entry does |
| Hooks.AddClauditHook | internal/claude/hooks.go:93-120 | the nested scan leaves the hook list as `WithClauditHook` of the old list and leaves `Other` untouched |
| Hooks.UpsertReplacesFirst | internal/claude/hooks.go:106-113 | when an entry is recognised, the first one is replaced by the claudit hook; the length and every other entry, in order, are kept |
| Hooks.UpsertAppends | internal/claude/hooks.go:118-119 | when no entry is recognised, the claudit hook is appended and the list grows by one |
| Hooks.UpsertInstallsHook | internal/claude/hooks.go:94-103 | afterwards the list holds the claudit hook: Bash, one `command` of `claudit store`, timeout 30, recognised by the scan |
| Hooks.UpsertIdempotent | internal/claude/hooks.go:93-120 | upserting twice equals upserting once |
| Hooks.SplitDocument | internal/claude/hooks.go:54-61 | the hook list is decoded from `hooks.postToolUse` when present, empty otherwise; every other key is kept with its value and that key is removed |
| Hooks.MergedDocument | internal/claude/hooks.go:69-76 | every other entry is kept; `hooks.postToolUse` holds the encoded list only when the list is non-empty, overriding a same-named entry |
| Hooks.ReadSettings | internal/claude/hooks.go:34-64 | a missing file gives empty settings; an unreadable file or invalid JSON is an error; otherwise the settings are the split of the parsed map |
| Hooks.FirstRead | internal/claude/hooks.go:34-64 | what a read of the settings file yields: empty settings for a missing file; nothing exactly when the file is unreadable or not valid JSON; never the hook key among the other entries |
| Hooks.WriteSettings | internal/claude/hooks.go:67-90 | the copy loop and the hook key give the merged document, which is rendered into the file; a failed write leaves the file |
| Hooks.SplitOfMerged | internal/claude/hooks.go:54-76 | reading back a merged document gives the same hook list and other entries, when those do not use the hook key and the list survives encoding |
| Hooks.EmptyHookListDropped | internal/claude/hooks.go:54-76 | a hook entry that decodes to an empty list is removed by a read followed by a write |
| Hooks.ConfigureTwice | internal/claude/hooks.go:34-120 | reading, upserting and writing twice yields the same hook list both times, given only that the document the first pass writes reads back |
| Repo.IsInsideWorkTree | internal/git/repo.go:11-18 | inside only when the query completed |
| Repo.InsideWorkTreeAnswers | internal/git/repo.go:11-18 | for output made of a word padded with space, inside exactly when the word is `true` |
| Repo.TrimmedOutput | internal/git/repo.go:21-28 | an error exactly when the query did not complete, carrying the failure; otherwise output with no leading or trailing space |
| Repo.GetRepoRoot | internal/git/repo.go:21-28 | an error exactly when `git rev-parse --show-toplevel` does not complete, carrying that failure; otherwise the output without surrounding space |
| Repo.GetCurrentBranch | internal/git/repo.go:31-38 | an error exactly when `git rev-parse --abbrev-ref HEAD` does not complete, carrying that failure; otherwise the output without surrounding space |
| Repo.GetHeadCommit | internal/git/repo.go:41-48 | an error exactly when `git rev-parse HEAD` does not complete, carrying that failure; otherwise the output without surrounding space |
| Repo.QueryYieldsValue | internal/git/repo.go:21-48 | a query printing a value padded with space, a final newline included, yields exactly that value |
| Repo.GitDirPathShape | internal/git/repo.go:57 | the `.git` path is the root followed by `.git`, with one separator when the root is not empty |
| Repo.EnsureGitDir | internal/git/repo.go:51-77 | a failing root query is passed on; a `.git` path that cannot be examined is an error, and so is a `.git` file that cannot be read |
| Repo.GitDirNamedBy | internal/git/repo.go:69-73 | with a `": "` in the content, the directory is the text after the first one, trimmed of space; with none, the fallback path |
| Repo.GitDirOfDirectory | internal/git/repo.go:57-76 | when `.git` is a directory it is the git directory |
| Repo.GitDirOfFile | internal/git/repo.go:63-76 | when `.git` is a readable file, the git directory is the one its content names |
| Repo.GitDirOfWorktreeFile | internal/git/repo.go:69-72 | a `gitdir: <path>` line, newline included, yields exactly the path |
| Repo.GitdirLine | internal/git/repo.go:70-72 | the path is taken whole after the first `": "`, with later `": "` occurrences kept |
| Repo.GitDirOfFileWithoutSeparator | internal/git/repo.go:70-76 | a `.git` file without `": "` yields the `.git` path itself |
| GoStrings.TrimSpace | internal/git/repo.go:17 | the result has no leading or trailing space (`unicode.IsSpace`) |
| GoStrings.TrimSpaceRemovesOnlySpace | internal/git/repo.go:27 | what trimming removes on either side is all space, and the result is a slice of the input |
| GoStrings.TrimSpaceOfPadded | internal/git/repo.go:27 | trimming a trimmed text padded with space on both sides gives back exactly the text |
| GoStrings.TrimSpaceDropsTrailingSpace | internal/git/notes.go:52 | trailing space after a trimmed text is exactly what trimming removes |
| GoStrings.SplitLines | internal/git/notes.go:52 | `Split` on a newline yields at least one piece, none holding a newline |
| GoStrings.SplitJoinLines | internal/git/notes.go:52 | splitting newline-joined lines gives them back |
| GoStrings.Fields | internal/git/notes.go:58 | every field is a non-empty run without space |
| GoStrings.FieldsOfPair | internal/git/notes.go:58 | two tokens separated by a space have exactly those two fields |
| GoStrings.CutColonSpace | internal/git/repo.go:70 | a cut splits the text around its first `": "`; no cut exactly when the text has no `": "` |
| GoStrings.ByteLength | cmd/session_start.go:68 | a Go string's byte length lies between its character count and four times it |

## Left out

- Processes, files, the clock and the network are not executed. They are
  inputs:
  - each git run's outcome;
  - what `os.Stat` and `os.ReadFile` report;
  - whether a read, write, create or remove fails;
  - the current time, modification times and the parsed timestamps.

  Partial writes and cross-invocation races on the slot or the notes are not
  modelled.
- JSON encoding and decoding are parameters:
  - the transcript-line decoder;
  - the hook input decoders;
  - the settings map parser and renderer;
  - the hook-list encoder and decoder.

  A partially filled struct after a failed `json.Unmarshal` is whatever the
  decoder parameter returns. The settings entries other than the hook list
  are `encoding/json` values. Every number in them becomes a `float64`, so
  rewriting the file can change how it is written: `1.0` comes back as `1`,
  and a long integer is rounded. The rounding happens inside the parser
  parameter. `time.Parse` with the RFC 3339 layouts is a
  parameter too.
- Go strings are modelled as sequences of Unicode characters; invalid UTF-8 is
  not represented. `ByteLength` counts UTF-8 bytes only for the `[:8]` slice
  of the handlers.
- Transcript.ParseTranscript: each line is copied into its entry, which is
  what the code evidently intends. The code as written keeps a window on the
  scanner's buffer instead. `TranscriptAliasing.ParseAsWritten` models that
  (see "## Findings").
- Transcript.ParseTranscript: a reader error other than `ErrTooLong` is not
  modelled, because the input is a byte sequence already read;
  `ParseTranscriptFile` (opening the file) is left out.
- Transcript.ParseKeepsEveryLine: proved of the copying parse. The parse as
  written can return a line's bytes in place of another's (see
  "## Findings").
- Transcript.SerializeParse: proved of the copying parse. The parse as
  written does not round-trip the log of `TranscriptAliasing.RawsOverwritten`.
- Transcript.ParseSerialize: proved of the copying parse. The parse as written
  does not give back the transcript of `TranscriptAliasing.RawsOverwritten`.
- BufScanner.Scan: its own ensures keep only the offsets in range; that the
  token is the next line of the file, and the scanner's agreement with the
  file, are stated by `BufScanner.ScanYieldsNextLine`.
- TranscriptAliasing.ScanLoop: its own ensures say only that entries are
  appended and stay windows; one entry per non-empty line, with that line's
  fields, and failing exactly on a line of 10 MiB or more, are stated by
  `TranscriptAliasing.LoopFollowsLines`.
- TranscriptAliasing.ParseAsWritten: states the entries' count and fields and
  when it fails; what each `Raw` holds is not characterised beyond
  `TranscriptAliasing.RawsOverwritten`.
- TranscriptAliasing.RawsOverwritten: one input shows the overwrite. Which
  other inputs are affected is not characterised; a line has to survive a
  shift or outlive a grown buffer for its bytes to change.
- BufScanner: `Read` is that of a regular file. It fills what it can and
  reports `io.EOF` on a read that finds nothing. Short reads, read errors and
  the scanner's guard against readers that keep returning no data are not
  modelled.
- Transcript.ScanLine: at the end of input, a last line without a newline
  counts as too long from 10 MiB on, as for a reader that signals the end only
  on a separate read.
- Tracker.ActiveSessionStore.DiscoverSession: one `env.now` serves both clock
  reads, the staleness test (`tracker.go:102`) and the index scan
  (`tracker.go:134`). The code's two `time.Now()` calls can differ; the model
  treats them as one instant.
- Tracker: `getActiveSessionPath` (the repository root or working directory
  joined with `.claudit/active-session.json`) is folded into the store
  methods' failure parameter. `time.Time.Sub` saturation is not modelled; times
  are unbounded integers of nanoseconds.
- Tracker.ActiveSessionStore.WriteActiveSession: the indented JSON written is
  represented by the session value itself, so a read of a written session
  always decodes.
- SessionStart.RunSessionStart, SessionEnd.RunSessionEnd: the `logWarning` and
  `logInfo` lines are left out; only the panic of the `[:8]` slice is kept.
- Notes.NoteStore.AddNote: the message git stores is `cleanup(content)`, a
  parameter, because git tidies a `-m` message (whitespace, trailing newline)
  before storing it. `GetNote` returns what git prints for the note; the
  model returns the stored bytes.
- Notes.NoteStore.AddNote, Notes.NoteStore.GetNote, Notes.NoteStore.HasNote:
  they do not run their argument vectors. `AddNoteArgs` and `ShowNoteArgs`
  state the command line apart from the store, and a failing run is a flag.
- Notes: `PushNotes` and `FetchNotes` are modelled by their argument vectors
  only; transport and ref-update semantics belong to git.
- Hooks.WriteSettings: the settings file is written under the flat key
  `hooks.postToolUse`, as the code does; the nested `hooks`/`PostToolUse`
  layout the assistant reads, and `AddSessionHooks`, are not part of this
  model. Creating the directory and writing the file are one failure
  parameter.
- Repo.GitDirPathShape: `filepath.Join` is modelled for the clean paths git
  reports (no `..` or doubled separators to clean).
- Repo.EnsureGitDir: a relative `gitdir:` path is returned as written, not
  resolved.
- Repo.IsInsideWorkTree: its ensures states only that inside requires a
  completed query; the exact answer is `Repo.InsideWorkTreeAnswers`.
- The `store` command, the conversation record and its checksum,
  `ReadSessionsIndex`, `AddSessionHooks` and `cmd/init.go` are not part of this
  model; the sessions index is an input.

## Findings

| source | as written | input that shows it | evidently intended | confidence | as-written member | corrected member |
|---|---|---|---|---|---|---|
| internal/claude/transcript.go:63-73 | `entry.Raw = json.RawMessage(line)` keeps `scanner.Bytes()` without a copy, so `Raw` is a window on the scanner's buffer that later `Scan` calls overwrite | a file holding two lines of 40,000 bytes each, `a` and `b`, joined by one newline: both entries' `Raw` are `b` (`TranscriptAliasing.RawsOverwritten`) | each entry keeps the bytes of its own line, as the copy in `append([]byte(nil), line...)` would | not executed | TranscriptAliasing.ParseAsWritten | Transcript.ParseTranscript |
