/** The conversation note store of internal/git/notes.go: one note per
    commit under a single fixed notes ref, written with `git notes add -f`
    so that a later write replaces an earlier one; the listing of noted
    commits parsed from `git notes list`; and the argument vectors of the
    push and fetch of that ref.

    Git itself is outside the program. The notes under the ref are the map
    `NoteStore.notes`; whether the git run of `AddNote`, `GetNote` or
    `HasNote` fails is a parameter; the listing is what a `Git` executor
    reports for the argument vector `ListNotesArgs()`. */
module Notes {
  import opened Common
  import opened GoStrings

  /** The one ref every operation uses. */
  const NotesRef: string := "refs/notes/claude-conversations"

  datatype NoteError = NotFound | GitFailed

  /** A failure of the listing command, passed on as it was reported. */
  datatype ListError = ListFailed(run: CmdResult)

  /** The notes under `NotesRef`, by commit SHA. `cleanup` is what git keeps
      of a message passed with `-m` (git tidies the text of such a message
      before storing it). */
  class NoteStore {
    var notes: map<string, Bytes>
    const cleanup: Bytes -> Bytes

    constructor (initial: map<string, Bytes>, messageCleanup: Bytes -> Bytes)
      ensures notes == initial && cleanup == messageCleanup
    {
      notes := initial;
      cleanup := messageCleanup;
    }

    /** `GetNote`: the note of a commit. A failing run of `git notes show`
        (`gitFails`: git missing, no repository, a SHA that does not
        resolve) is passed on; otherwise a commit without a note gives
        NotFound. */
    function GetNote(commitSha: string, gitFails: bool): (r: Result<Bytes, NoteError>)
      reads this
      ensures gitFails ==> r == Err(GitFailed)
      ensures r.Ok? <==> !gitFails && commitSha in notes
      ensures r.Ok? ==> r.value == notes[commitSha]
      ensures !gitFails && r.Err? ==> r.error == NotFound
    {
      if gitFails then Err(GitFailed)
      else if commitSha in notes then Ok(notes[commitSha]) else Err(NotFound)
    }

    /** `HasNote`: never reports an error; true exactly when the same
        `git notes show` run would let `GetNote` succeed, so false on any
        failing run. */
    function HasNote(commitSha: string, gitFails: bool): (b: bool)
      reads this
      ensures b <==> GetNote(commitSha, gitFails).Ok?
      ensures gitFails ==> !b
    {
      !gitFails && commitSha in notes
    }

    /** `AddNote`: forces the note of `commitSha` to the content, replacing
        any earlier one and leaving every other commit's note as it was.
        When nothing of the message survives git's cleanup, git removes the
        commit's note instead of storing an empty one. A failing git run
        (`gitFails`, e.g. a SHA that does not resolve) changes nothing. */
    method AddNote(commitSha: string, content: Bytes, gitFails: bool) returns (err: Option<NoteError>)
      modifies this
      ensures gitFails ==> err == Some(GitFailed) && notes == old(notes)
      ensures !gitFails && cleanup(content) != [] ==> err == None && notes == old(notes)[commitSha := cleanup(content)]
      ensures !gitFails && cleanup(content) == [] ==> err == None && notes == old(notes) - {commitSha}
      ensures !gitFails ==> GetNote(commitSha, false) == if cleanup(content) == [] then Err(NotFound) else Ok(cleanup(content))
      ensures forall c :: c != commitSha ==> GetNote(c, false) == old(GetNote(c, false))
    {
      if gitFails {
        return Some(GitFailed);
      }
      var message := cleanup(content);
      if message == [] {
        notes := notes - {commitSha};
      } else {
        notes := notes[commitSha := message];
      }
      err := None;
    }
  }

  /** Two successful writes for one commit leave at most one note, decided by
      the second write alone: its cleaned message, or no note when that is
      empty, as a successful `GetNote` then reports. */
  method AddTwice(store: NoteStore, commitSha: string, first: Bytes, second: Bytes)
    returns (r: Result<Bytes, NoteError>)
    modifies store
    ensures store.cleanup(second) != [] ==>
              r == Ok(store.cleanup(second)) && store.notes.Keys == old(store.notes.Keys) + {commitSha}
    ensures store.cleanup(second) == [] ==>
              r == Err(NotFound) && store.notes.Keys == old(store.notes.Keys) - {commitSha}
  {
    var e1 := store.AddNote(commitSha, first, false);
    var e2 := store.AddNote(commitSha, second, false);
    r := store.GetNote(commitSha, false);
  }

  // ---------------------------------------------------------------------
  // Listing

  /** The SHAs the listing loop collects from some lines: for each
      non-empty line with at least two fields, its second field. */
  function SecondFields(lines: seq<string>): (shas: seq<string>)
    ensures forall k :: 0 <= k < |shas| ==> IsToken(shas[k])
  {
    if lines == [] then [] else ShaOfLine(lines[0]) + SecondFields(lines[1..])
  }

  /** The SHA one line contributes: none or its second field. */
  function ShaOfLine(line: string): (sha: seq<string>)
    ensures |sha| <= 1 && (sha != [] ==> line != "" && IsToken(sha[0]))
  {
    if line == "" then []
    else
      var fs := Fields(line);
      if |fs| >= 2 then [fs[1]] else []
  }

  /** What `ListCommitsWithNotes` makes of the output of `git notes list`:
      trimmed, split at newlines, the second field of every line that has one. */
  function ListedCommits(output: string): seq<string> {
    SecondFields(SplitLines(TrimSpace(output)))
  }

  /** `ListCommitsWithNotes`: exit status 1 means there are no notes yet
      and is no error; any other failure is passed on. */
  method ListCommitsWithNotes(git: Git) returns (r: Result<seq<string>, ListError>)
    ensures var run := git(ListNotesArgs());
      && (run.ExitError? && run.code == 1 ==> r == Ok([]))
      && (run.StartFailed? || (run.ExitError? && run.code != 1) ==> r == Err(ListFailed(run)))
      && (run.Completed? ==> r == Ok(ListedCommits(run.stdout)))
  {
    var run := git(ListNotesArgs());
    if !run.Completed? {
      if run.ExitError? && run.code == 1 {
        return Ok([]);
      }
      return Err(ListFailed(run));
    }
    var commits: seq<string> := [];
    var lines := SplitLines(TrimSpace(run.stdout));
    assert lines[0..] == lines;
    for i := 0 to |lines|
      invariant SecondFields(lines) == commits + SecondFields(lines[i..])
    {
      SecondFieldsAt(lines, i);
      SeqAssoc(commits, ShaOfLine(lines[i]), SecondFields(lines[i + 1..]));
      var line := lines[i];
      if line == "" {
        assert commits + ShaOfLine(line) == commits;
        continue;
      }
      var parts := Fields(line);
      if |parts| >= 2 {
        assert ShaOfLine(line) == [parts[1]];
        commits := commits + [parts[1]];
      } else {
        assert ShaOfLine(line) == [];
        assert commits + ShaOfLine(line) == commits;
      }
    }
    SecondFieldsAt(lines, |lines|);
    assert commits == SecondFields(lines);
    r := Ok(commits);
  }

  lemma SecondFieldsAt(lines: seq<string>, i: nat)
    requires i <= |lines|
    ensures i < |lines| ==> SecondFields(lines[i..]) == ShaOfLine(lines[i]) + SecondFields(lines[i + 1..])
    ensures i == |lines| ==> SecondFields(lines[i..]) == []
  {
    if i < |lines| {
      assert lines[i..][1..] == lines[i + 1..];
    } else {
      assert lines[i..] == [];
    }
  }

  /** The number of non-empty lines. */
  function NonEmptyCount(lines: seq<string>): nat {
    if lines == [] then 0 else (if lines[0] != "" then 1 else 0) + NonEmptyCount(lines[1..])
  }

  /** No more SHAs are listed than there are non-empty lines. */
  lemma {:induction false} ListedAtMostNonEmptyLines(lines: seq<string>)
    ensures |SecondFields(lines)| <= NonEmptyCount(lines)
  {
    if lines != [] {
      ListedAtMostNonEmptyLines(lines[1..]);
    }
  }

  /** The first `x` in `a + [x] + b`, when `a` holds none, is right after `a`. */
  lemma {:induction false} IndexOfAfter<T>(a: seq<T>, x: T, b: seq<T>)
    requires x !in a
    ensures IndexOf(a + [x] + b, x) == |a|
    decreases |a|
  {
    if a != [] {
      assert (a + [x] + b)[1..] == a[1..] + [x] + b;
      IndexOfAfter(a[1..], x, b);
    }
  }

  /** The output `git notes list` prints for some (note, commit) pairs: one
      line "note-SHA commit-SHA" per pair, each ended by a newline. */
  function ListingOutput(pairs: seq<(string, string)>): string {
    if pairs == [] then "" else JoinLines(ListingLines(pairs)) + "\n"
  }

  function ListingLines(pairs: seq<(string, string)>): (lines: seq<string>)
    ensures |lines| == |pairs|
    ensures forall k :: 0 <= k < |pairs| ==> lines[k] == pairs[k].0 + " " + pairs[k].1
  {
    seq(|pairs|, k requires 0 <= k < |pairs| => pairs[k].0 + " " + pairs[k].1)
  }

  function Commits(pairs: seq<(string, string)>): (cs: seq<string>)
    ensures |cs| == |pairs| && forall k :: 0 <= k < |pairs| ==> cs[k] == pairs[k].1
  {
    if pairs == [] then [] else [pairs[0].1] + Commits(pairs[1..])
  }

  predicate WellFormedPairs(pairs: seq<(string, string)>) {
    forall k :: 0 <= k < |pairs| ==> IsToken(pairs[k].0) && IsToken(pairs[k].1)
  }

  /** Reading the listing back gives every noted commit, in listing order. */
  lemma ListingRoundTrip(pairs: seq<(string, string)>)
    requires WellFormedPairs(pairs)
    ensures ListedCommits(ListingOutput(pairs)) == Commits(pairs)
  {
    if pairs == [] {
      assert TrimSpace("") == "";
      assert SplitLines("") == [""];
      assert SecondFields([""]) == [] + SecondFields([]);
    } else {
      var lines := ListingLines(pairs);
      forall k | 0 <= k < |lines| ensures '\n' !in lines[k] && IsTrimmed(lines[k]) && lines[k] != [] {
        assert lines[k] == pairs[k].0 + " " + pairs[k].1;
        assert lines[k][0] == pairs[k].0[0];
        assert lines[k][|lines[k]| - 1] == pairs[k].1[|pairs[k].1| - 1];
        assert forall j :: 0 <= j < |lines[k]| ==> lines[k][j] != '\n';
      }
      JoinLinesTrimmed(lines);
      TrimSpaceDropsTrailingSpace(JoinLines(lines), "\n");
      SplitJoinLines(lines);
      SecondFieldsOfPairs(pairs);
    }
  }

  /** Lines that are non-empty and trimmed join into a trimmed text. */
  lemma {:induction false} JoinLinesTrimmed(lines: seq<string>)
    requires lines != []
    requires forall k :: 0 <= k < |lines| ==> lines[k] != [] && IsTrimmed(lines[k])
    ensures IsTrimmed(JoinLines(lines))
    ensures JoinLines(lines)[0] == lines[0][0]
    ensures JoinLines(lines)[|JoinLines(lines)| - 1] == lines[|lines| - 1][|lines[|lines| - 1]| - 1]
    decreases |lines|
  {
    if |lines| > 1 {
      JoinLinesTrimmed(lines[1..]);
      assert JoinLines(lines) == lines[0] + "\n" + JoinLines(lines[1..]);
    }
  }

  lemma {:induction false} SecondFieldsOfPairs(pairs: seq<(string, string)>)
    requires WellFormedPairs(pairs)
    ensures SecondFields(ListingLines(pairs)) == Commits(pairs)
    decreases |pairs|
  {
    if pairs != [] {
      var lines := ListingLines(pairs);
      ShaOfPairLine(pairs[0].0, pairs[0].1);
      assert lines[1..] == ListingLines(pairs[1..]);
      SecondFieldsOfPairs(pairs[1..]);
    }
  }

  /** The line of one pair contributes its commit SHA. */
  lemma ShaOfPairLine(note: string, commit: string)
    requires IsToken(note) && IsToken(commit)
    ensures ShaOfLine(note + " " + commit) == [commit]
  {
    FieldsOfPair(note, commit);
  }

  // ---------------------------------------------------------------------
  // Command lines

  /** `git notes --ref NotesRef <subcommand...>`. */
  function NotesCommand(subcommand: seq<string>): (args: seq<string>)
    ensures |args| == 3 + |subcommand|
    ensures args[..3] == ["notes", "--ref", NotesRef] && args[3..] == subcommand
  {
    ["notes", "--ref", NotesRef] + subcommand
  }

  /** The arguments of `AddNote`: a forced add of the message to the commit. */
  function AddNoteArgs(commitSha: string, message: string): (args: seq<string>)
    ensures |args| == 8 && args[..3] == ["notes", "--ref", NotesRef]
    ensures "-f" in args && args[|args| - 1] == commitSha
  {
    NotesCommand(["add", "-f", "-m", message, commitSha])
  }

  /** The arguments of `GetNote` and of `HasNote`. */
  function ShowNoteArgs(commitSha: string): (args: seq<string>)
    ensures |args| == 5 && args[..3] == ["notes", "--ref", NotesRef] && args[|args| - 1] == commitSha
  {
    NotesCommand(["show", commitSha])
  }

  /** The arguments of `ListCommitsWithNotes`. */
  function ListNotesArgs(): (args: seq<string>)
    ensures |args| == 4 && args[..3] == ["notes", "--ref", NotesRef] && args[3] == "list"
  {
    NotesCommand(["list"])
  }

  /** The arguments of `PushNotes`: the local pre-push hook is bypassed, so
      that pushing the notes does not run the capture again. */
  function PushNotesArgs(remote: string): (args: seq<string>)
    ensures |args| == 4 && args[0] == "push" && "--no-verify" in args
    ensures args[|args| - 2] == remote && args[|args| - 1] == NotesRef
  {
    ["push", "--no-verify", remote, NotesRef]
  }

  /** The refspec of `FetchNotes`: the remote's notes ref into the local one. */
  function FetchRefspec(): string {
    NotesRef + ":" + NotesRef
  }

  /** The arguments of `FetchNotes`. */
  function FetchNotesArgs(remote: string): (args: seq<string>)
    ensures |args| == 3 && args[0] == "fetch" && args[1] == remote && args[2] == FetchRefspec()
  {
    ["fetch", remote, FetchRefspec()]
  }

  /** The fetch refspec is not forced: it has no leading `+`, and it maps
      the notes ref, read up to the first `:`, onto the same ref, so a fetch
      that is not a fast-forward of the local ref is refused by git. */
  lemma FetchIsNotForced()
    ensures FetchRefspec()[0] != '+'
    ensures var i := IndexOf(FetchRefspec(), ':');
      i < |FetchRefspec()| && FetchRefspec()[..i] == NotesRef && FetchRefspec()[i + 1..] == NotesRef
  {
    NotesRefHasNoColon();
    IndexOfAfter(NotesRef, ':', NotesRef);
    SidesOfRefspec(NotesRef, NotesRef);
  }

  lemma NotesRefHasNoColon()
    ensures ':' !in NotesRef && NotesRef[0] == 'r'
  {
  }

  lemma SidesOfRefspec(src: string, dst: string)
    ensures var r := src + ":" + dst;
      r == src + [':'] + dst && r[..|src|] == src && r[|src| + 1..] == dst
  {
  }
}
