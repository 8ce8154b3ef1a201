/** The SessionEnd hook handler of cmd/session_end.go: it reads the hook's
    JSON from standard input and clears the slot, whichever session it
    names. Every failure is swallowed; the handler returns nil. */
module SessionEnd {
  import opened Common
  import opened GoStrings
  import opened Tracker

  datatype SessionEndInput = SessionEndInput(sessionId: string, transcriptPath: string, cwd: string, reason: string)

  /** `runSessionEnd`. `stdin` is `None` when standard input cannot be read,
      `decode` is `json.Unmarshal` into the hook input (`None` on malformed
      JSON), and `clearFails` says whether removing the slot fails. The slot
      is cleared without comparing the session id with the recorded one;
      only the id matters afterwards, because the log line slices its first
      eight bytes and panics for a shorter (or missing) id. */
  method RunSessionEnd(store: ActiveSessionStore, stdin: Option<Bytes>,
                       decode: Bytes -> Option<SessionEndInput>, clearFails: bool)
    returns (exit: HandlerExit)
    modifies store
    ensures stdin.None? || decode(stdin.value).None? ==> store.file == old(store.file) && exit == ReturnedNil
    ensures stdin.Some? && decode(stdin.value).Some? && clearFails ==>
      store.file == old(store.file) && exit == ReturnedNil
    ensures stdin.Some? && decode(stdin.value).Some? && !clearFails ==>
      && store.file == NoFile
      && (exit == Panicked <==> ByteLength(decode(stdin.value).value.sessionId) < 8)
  {
    if stdin.None? {
      return ReturnedNil;
    }
    var decoded := decode(stdin.value);
    if decoded.None? {
      return ReturnedNil;
    }
    var hook := decoded.value;
    var err := store.ClearActiveSession(clearFails);
    if err.Some? {
      return ReturnedNil;
    }
    if ByteLength(hook.sessionId) < 8 {
      return Panicked;
    }
    exit := ReturnedNil;
  }
}
