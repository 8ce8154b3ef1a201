/** The SessionStart hook handler of cmd/session_start.go: it reads the
    hook's JSON from standard input and records the session in the slot.
    Every failure is swallowed; the handler returns nil. Reading standard
    input, decoding JSON and formatting the current time are outside the
    program and are parameters. */
module SessionStart {
  import opened Common
  import opened GoStrings
  import opened Tracker

  datatype SessionStartInput = SessionStartInput(sessionId: string, transcriptPath: string, cwd: string)

  /** The payload decoded and carrying both required fields. */
  predicate Accepted(stdin: Option<Bytes>, decode: Bytes -> Option<SessionStartInput>) {
    && stdin.Some?
    && decode(stdin.value).Some?
    && decode(stdin.value).value.sessionId != ""
    && decode(stdin.value).value.transcriptPath != ""
  }

  /** `runSessionStart`. `stdin` is `None` when standard input cannot be
      read, `decode` is `json.Unmarshal` into the hook input (`None` on
      malformed JSON, empty strings for missing fields), `nowUtc` is the
      current time formatted as RFC 3339 in UTC, and `writeFails` says
      whether writing the slot fails. The log line after a successful write
      slices the first eight bytes of the session id, which panics for a
      shorter id; the slot is written by then. */
  method RunSessionStart(store: ActiveSessionStore, stdin: Option<Bytes>,
                         decode: Bytes -> Option<SessionStartInput>, nowUtc: string, writeFails: bool)
    returns (exit: HandlerExit)
    modifies store
    ensures !Accepted(stdin, decode) ==> store.file == old(store.file) && exit == ReturnedNil
    ensures Accepted(stdin, decode) && writeFails ==> store.file == old(store.file) && exit == ReturnedNil
    ensures Accepted(stdin, decode) && !writeFails ==>
      var hook := decode(stdin.value).value;
      && store.file == Holds(ActiveSession(hook.sessionId, hook.transcriptPath, nowUtc, hook.cwd))
      && (exit == Panicked <==> ByteLength(hook.sessionId) < 8)
  {
    if stdin.None? {
      return ReturnedNil;
    }
    var decoded := decode(stdin.value);
    if decoded.None? {
      return ReturnedNil;
    }
    var hook := decoded.value;
    if hook.sessionId == "" || hook.transcriptPath == "" {
      return ReturnedNil;
    }
    // the working directory is stored as given, even when empty
    var active := ActiveSession(hook.sessionId, hook.transcriptPath, nowUtc, hook.cwd);
    var err := store.WriteActiveSession(active, writeFails);
    if err.Some? {
      return ReturnedNil;
    }
    if ByteLength(hook.sessionId) < 8 {
      return Panicked;
    }
    exit := ReturnedNil;
  }
}
