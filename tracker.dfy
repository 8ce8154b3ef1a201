/** The active-session tracker of internal/session/tracker.go: one persisted
    slot naming the session that is producing commits, a staleness test on
    its transcript, and a fallback scan of the assistant's sessions index.

    The slot file, the clock, file modification times and timestamp parsing
    are outside the program: the slot is a field of `ActiveSessionStore`,
    and an `Env` supplies the current time, the modification time `os.Stat`
    reports for a path, and the two `time.Parse` layouts. Times and
    durations are integers counting nanoseconds, as `time.Duration` does. */
module Tracker {
  import opened Common

  const Second: int := 1_000_000_000
  const Minute: int := 60 * Second

  /** A recorded session whose transcript has not been written for this
      long no longer counts. */
  const StaleSessionTimeout: int := 10 * Minute

  /** An index entry modified longer ago than this is not picked. */
  const RecentSessionTimeout: int := 5 * Minute

  datatype ActiveSession = ActiveSession(
    sessionId: string, transcriptPath: string, startedAt: string, projectPath: string)

  /** What the slot file `.claudit/active-session.json` holds: nothing, a
      session written by `WriteActiveSession`, or bytes that do not decode. */
  datatype SlotFile = NoFile | Holds(session: ActiveSession) | Undecodable

  datatype TrackerError = StorageFailed | ParseFailed

  /** An entry of the assistant's sessions index, the fields the tracker reads. */
  datatype SessionEntry = SessionEntry(
    sessionId: string, fullPath: string, created: string, modified: string, projectPath: string)

  /** The world the tracker consults: the current time, the modification
      time of a path (`None` when `os.Stat` fails), and `time.Parse` with
      the RFC3339Nano and the RFC3339 layouts (`None` on a parse error). */
  datatype Env = Env(
    now: int,
    modTime: string -> Option<int>,
    parseRfc3339Nano: string -> Option<int>,
    parseRfc3339: string -> Option<int>)

  /** The persisted slot. */
  class ActiveSessionStore {
    var file: SlotFile

    constructor (initial: SlotFile)
      ensures file == initial
    {
      file := initial;
    }

    /** `WriteActiveSession`: overwrites the slot, whatever it held. A failure
        to locate, create or write the file (`ioFails`) leaves it as it was. */
    method WriteActiveSession(session: ActiveSession, ioFails: bool) returns (err: Option<TrackerError>)
      modifies this
      ensures ioFails ==> err == Some(StorageFailed) && file == old(file)
      ensures !ioFails ==> err == None && file == Holds(session)
    {
      if ioFails {
        return Some(StorageFailed);
      }
      file := Holds(session);
      err := None;
    }

    /** `ReadActiveSession`: no session and no error when there is no file,
        the session when it decodes, an error when it does not or when the
        file cannot be located or read (`ioFails`). */
    method ReadActiveSession(ioFails: bool) returns (r: Result<Option<ActiveSession>, TrackerError>)
      ensures ioFails ==> r == Err(StorageFailed)
      ensures !ioFails ==> (r == Ok(None) <==> file == NoFile)
      ensures !ioFails && file.Holds? ==> r == Ok(Some(file.session))
      ensures !ioFails && file == Undecodable ==> r == Err(ParseFailed)
    {
      if ioFails {
        return Err(StorageFailed);
      }
      match file
      case NoFile => r := Ok(None);
      case Holds(s) => r := Ok(Some(s));
      case Undecodable => r := Err(ParseFailed);
    }

    /** `ClearActiveSession`: removes the file; a missing file is no error.
        A failure other than "does not exist" (`ioFails`) leaves it. */
    method ClearActiveSession(ioFails: bool) returns (err: Option<TrackerError>)
      modifies this
      ensures ioFails ==> err == Some(StorageFailed) && file == old(file)
      ensures !ioFails ==> err == None && file == NoFile
    {
      if ioFails {
        return Some(StorageFailed);
      }
      file := NoFile;
      err := None;
    }

    /** `DiscoverSession`: the recorded session when it belongs to the project
        and is still active; no session at all when the slot cannot be read;
        otherwise the choice of the index scan. It changes nothing. */
    method DiscoverSession(projectPath: string, ioFails: bool, index: Option<seq<SessionEntry>>, env: Env)
      returns (r: Option<ActiveSession>)
      ensures ioFails || file == Undecodable ==> r == None
      ensures !ioFails && RecordedSessionApplies(file, projectPath, env) ==> r == Some(file.session)
      ensures !ioFails && file != Undecodable && !RecordedSessionApplies(file, projectPath, env)
              ==> IsRecentChoice(r, index, projectPath, env)
    {
      var active := ReadActiveSession(ioFails);
      if active.Err? {
        // the source's comment says "continue to fallback", but it returns
        return None;
      }
      if active.value.Some? {
        var a := active.value.value;
        if a.projectPath == projectPath && IsSessionActive(Some(a), env) {
          return Some(a);
        }
      }
      r := DiscoverRecentSession(projectPath, index, env);
    }
  }

  /** `IsSessionActive`: false without a session, without a transcript path
      or when the transcript cannot be stat'ed; otherwise whether it was
      modified strictly less than ten minutes ago. */
  function IsSessionActive(session: Option<ActiveSession>, env: Env): (active: bool)
    ensures active ==> session.Some? && session.value.transcriptPath != ""
                       && env.modTime(session.value.transcriptPath).Some?
  {
    && session.Some?
    && session.value.transcriptPath != ""
    && env.modTime(session.value.transcriptPath).Some?
    && env.now - env.modTime(session.value.transcriptPath).value < StaleSessionTimeout
  }

  /** The first step of discovery succeeds: the slot holds a session of this
      project that is still active. */
  predicate RecordedSessionApplies(file: SlotFile, projectPath: string, env: Env) {
    file.Holds? && file.session.projectPath == projectPath && IsSessionActive(Some(file.session), env)
  }

  /** `modified` parsed with RFC3339Nano, or else with RFC3339. */
  function ParseModified(s: string, env: Env): (m: Option<int>)
    ensures m.None? <==> env.parseRfc3339Nano(s).None? && env.parseRfc3339(s).None?
    ensures m.Some? ==> m == env.parseRfc3339Nano(s) || m == env.parseRfc3339(s)
    ensures env.parseRfc3339Nano(s).Some? ==> m == env.parseRfc3339Nano(s)
  {
    match env.parseRfc3339Nano(s)
    case Some(t) => Some(t)
    case None => env.parseRfc3339(s)
  }

  /** The modification time of an index entry that passes the three filters:
      same project, a timestamp that parses, and at most five minutes old. */
  function Candidate(e: SessionEntry, projectPath: string, env: Env): (m: Option<int>)
    ensures m.Some? ==> e.projectPath == projectPath && ParseModified(e.modified, env) == m
                        && env.now - m.value <= RecentSessionTimeout
    ensures m.None? ==> e.projectPath != projectPath || ParseModified(e.modified, env).None?
                        || env.now - ParseModified(e.modified, env).value > RecentSessionTimeout
  {
    if e.projectPath != projectPath then None
    else
      match ParseModified(e.modified, env)
      case None => None
      case Some(t) => if env.now - t > RecentSessionTimeout then None else Some(t)
  }

  /** Entry `k` is the candidate the scan keeps: it passes the filters, no
      candidate is later, and every earlier candidate is strictly earlier. */
  ghost predicate IsLatestCandidate(entries: seq<SessionEntry>, k: int, projectPath: string, env: Env) {
    && 0 <= k < |entries|
    && Candidate(entries[k], projectPath, env).Some?
    && (forall j :: 0 <= j < |entries| && Candidate(entries[j], projectPath, env).Some?
          ==> Candidate(entries[j], projectPath, env).value <= Candidate(entries[k], projectPath, env).value)
    && (forall j :: 0 <= j < k && Candidate(entries[j], projectPath, env).Some?
          ==> Candidate(entries[j], projectPath, env).value < Candidate(entries[k], projectPath, env).value)
  }

  /** The session an index entry stands for. */
  function SessionOf(e: SessionEntry): ActiveSession {
    ActiveSession(e.sessionId, e.fullPath, e.created, e.projectPath)
  }

  /** What the index scan may answer: nothing when the index is unreadable
      or has no candidate, otherwise the latest candidate, the earliest of
      those that tie. */
  ghost predicate IsRecentChoice(r: Option<ActiveSession>, index: Option<seq<SessionEntry>>, projectPath: string, env: Env) {
    match index
    case None => r.None?
    case Some(entries) =>
      && (r.None? <==> forall j :: 0 <= j < |entries| ==> Candidate(entries[j], projectPath, env).None?)
      && (r.Some? ==> exists k :: IsLatestCandidate(entries, k, projectPath, env) && r.value == SessionOf(entries[k]))
  }

  /** `discoverRecentSession`: one pass over the index keeping the candidate
      with the latest `modified`; a later entry replaces it only when it is
      strictly later (`After`). `index` is `None` when the index cannot be read. */
  method DiscoverRecentSession(projectPath: string, index: Option<seq<SessionEntry>>, env: Env)
    returns (r: Option<ActiveSession>)
    ensures IsRecentChoice(r, index, projectPath, env)
  {
    if index.None? {
      return None;
    }
    var entries := index.value;
    var best: Option<nat> := None;
    var bestModified := 0;
    for i := 0 to |entries|
      invariant best.None? ==> forall j :: 0 <= j < i ==> Candidate(entries[j], projectPath, env).None?
      invariant best.Some? ==> best.value < i && Candidate(entries[best.value], projectPath, env) == Some(bestModified)
      invariant best.Some? ==> forall j :: 0 <= j < i && Candidate(entries[j], projectPath, env).Some?
                                  ==> Candidate(entries[j], projectPath, env).value <= bestModified
      invariant best.Some? ==> forall j :: 0 <= j < best.value && Candidate(entries[j], projectPath, env).Some?
                                  ==> Candidate(entries[j], projectPath, env).value < bestModified
    {
      var entry := entries[i];
      if entry.projectPath != projectPath {
        continue;
      }
      var modified := env.parseRfc3339Nano(entry.modified);
      if modified.None? {
        modified := env.parseRfc3339(entry.modified);
        if modified.None? {
          continue;
        }
      }
      if env.now - modified.value > RecentSessionTimeout {
        continue;
      }
      if best.None? || modified.value > bestModified {
        best := Some(i);
        bestModified := modified.value;
      }
    }
    if best.None? {
      return None;
    }
    assert IsLatestCandidate(entries, best.value, projectPath, env);
    r := Some(SessionOf(entries[best.value]));
  }

  // ---------------------------------------------------------------------
  // Properties

  /** The staleness window: a recorded session counts exactly while its
      transcript was modified less than ten minutes ago; at ten minutes it
      no longer does. */
  lemma StalenessWindow(s: ActiveSession, env: Env)
    requires s.transcriptPath != "" && env.modTime(s.transcriptPath).Some?
    ensures IsSessionActive(Some(s), env) <==> env.now - env.modTime(s.transcriptPath).value < StaleSessionTimeout
    ensures env.now - env.modTime(s.transcriptPath).value == 10 * Minute ==> !IsSessionActive(Some(s), env)
    ensures !IsSessionActive(None, env)
  {
  }

  /** At most one entry is the latest candidate, so the scan's answer is
      determined by the index, the clock and the parsers. */
  lemma LatestCandidateUnique(entries: seq<SessionEntry>, k1: int, k2: int, projectPath: string, env: Env)
    requires IsLatestCandidate(entries, k1, projectPath, env)
    requires IsLatestCandidate(entries, k2, projectPath, env)
    ensures k1 == k2
  {
  }

  /** The recency window: whatever the scan picks belongs to the project and
      was modified at most five minutes before now (a timestamp in the future
      passes), and an entry older than that is never picked, even alone. */
  lemma RecencyWindow(r: Option<ActiveSession>, entries: seq<SessionEntry>, projectPath: string, env: Env)
    requires IsRecentChoice(r, Some(entries), projectPath, env)
    ensures r.Some? ==> r.value.projectPath == projectPath
    ensures r.Some? ==> exists k :: 0 <= k < |entries| && SessionOf(entries[k]) == r.value
                          && ParseModified(entries[k].modified, env).Some?
                          && env.now - ParseModified(entries[k].modified, env).value <= RecentSessionTimeout
    ensures (|entries| == 1 && ParseModified(entries[0].modified, env).Some?
             && env.now - ParseModified(entries[0].modified, env).value > RecentSessionTimeout) ==> r.None?
  {
    if r.Some? {
      var k :| IsLatestCandidate(entries, k, projectPath, env) && r.value == SessionOf(entries[k]);
      assert Candidate(entries[k], projectPath, env).Some?;
    }
  }

  /** A scan result maps the entry's `fullPath` to the transcript path and
      its `created` to the start time. */
  lemma ChoiceMapsFields(r: Option<ActiveSession>, entries: seq<SessionEntry>, projectPath: string, env: Env)
    requires IsRecentChoice(r, Some(entries), projectPath, env) && r.Some?
    ensures exists k :: 0 <= k < |entries| && r.value.sessionId == entries[k].sessionId
              && r.value.transcriptPath == entries[k].fullPath && r.value.startedAt == entries[k].created
  {
    var k :| IsLatestCandidate(entries, k, projectPath, env) && r.value == SessionOf(entries[k]);
  }

  /** The staleness window guards only the recorded slot: the index scan
      checks the entry's `modified`, not the transcript's modification time,
      so a session whose transcript is ten minutes old can still be chosen. */
  lemma StaleSessionFromIndex(e: SessionEntry, env: Env)
    requires env.parseRfc3339Nano(e.modified) == Some(env.now)
    requires env.modTime(e.fullPath) == Some(env.now - StaleSessionTimeout)
    ensures IsRecentChoice(Some(SessionOf(e)), Some([e]), e.projectPath, env)
    ensures !IsSessionActive(Some(SessionOf(e)), env)
  {
    assert IsLatestCandidate([e], 0, e.projectPath, env);
  }

  // ---------------------------------------------------------------------
  // The slot as its callers see it

  /** After a write that succeeds, reading returns the session written. */
  method WriteThenRead(store: ActiveSessionStore, s: ActiveSession) returns (r: Result<Option<ActiveSession>, TrackerError>)
    modifies store
    ensures store.file == Holds(s) && r == Ok(Some(s))
  {
    var err := store.WriteActiveSession(s, false);
    r := store.ReadActiveSession(false);
  }

  /** Clearing twice succeeds both times and leaves no session: clearing is
      idempotent. */
  method ClearTwice(store: ActiveSessionStore) returns (first: Option<TrackerError>, second: Option<TrackerError>, r: Result<Option<ActiveSession>, TrackerError>)
    modifies store
    ensures first == None && second == None && store.file == NoFile && r == Ok(None)
  {
    first := store.ClearActiveSession(false);
    second := store.ClearActiveSession(false);
    r := store.ReadActiveSession(false);
  }
}
