/** The editor of the assistant's settings file in internal/claude/hooks.go:
    the settings are split into the post-tool-use hook list and every other
    top-level entry, the claudit hook is upserted into the list, and the two
    are merged back into one document.

    The settings file is the field of a `ClaudeDir`; JSON text is reached
    through two parameters (`parse` for `json.Unmarshal` into a map and
    `render` for `json.MarshalIndent`), and so is the conversion between the
    hook list and its JSON value. */
module Hooks {
  import opened Common

  datatype HookMatcher = HookMatcher(toolName: string)
  datatype HookCmd = HookCmd(cmdType: string, command: string, timeout: int)
  datatype Hook = Hook(matcher: HookMatcher, hooks: seq<HookCmd>)

  /** A JSON value as `encoding/json` decodes it into an `interface{}`.
      Every number becomes a `float64`, so its original text is lost: the
      rounding to a `float64` happens inside `parse`, and `render` writes
      the value back in Go's shortest form. */
  datatype Json =
    | Null
    | Bool(b: bool)
    | Number(value: real)
    | Str(s: string)
    | Array(items: seq<Json>)
    | Object(members: map<string, Json>)

  type Document = map<string, Json>

  /** The top-level key the hook list is stored under. */
  const PostToolUseKey: string := "hooks.postToolUse"

  /** The command the claudit hook runs. */
  const StoreCommand: string := "claudit store"

  /** The hook `AddClauditHook` installs. */
  const ClauditHook: Hook := Hook(HookMatcher("Bash"), [HookCmd("command", StoreCommand, 30)])

  /** What `json.Unmarshal` leaves in a `[]Hook` from a JSON value; its
      error is discarded by the caller, so a value that does not decode
      yields whatever the decoder filled in, often nothing. */
  type HookDecoder = Json -> seq<Hook>

  /** The JSON value `json.Marshal` makes of a hook list. */
  type HookEncoder = seq<Hook> -> Json

  datatype SettingsFile = NotExist | Unreadable | Content(data: Bytes)

  datatype SettingsError = ReadFailed | InvalidJson | WriteFailed

  /** `Settings`: the hook list, and every other top-level entry kept as it was read. */
  class Settings {
    var postToolUse: seq<Hook>
    var other: Document

    constructor (hooks: seq<Hook>, rest: Document)
      ensures postToolUse == hooks && other == rest
    {
      postToolUse := hooks;
      other := rest;
    }
  }

  /** The directory holding `settings.local.json`. */
  class ClaudeDir {
    var file: SettingsFile

    constructor (initial: SettingsFile)
      ensures file == initial
    {
      file := initial;
    }
  }

  // ---------------------------------------------------------------------
  // AddClauditHook

  /** An entry `AddClauditHook` recognises as the claudit hook: it matches
      Bash, has commands, and one of them is the store command. */
  predicate IsClauditHook(h: Hook) {
    h.matcher.toolName == "Bash" && |h.hooks| > 0
    && exists j :: 0 <= j < |h.hooks| && h.hooks[j].command == StoreCommand
  }

  /** Index of the first entry recognised as the claudit hook, or `|hooks|`. */
  function FirstClauditHook(hooks: seq<Hook>): (i: nat)
    ensures i <= |hooks|
    ensures i < |hooks| ==> IsClauditHook(hooks[i])
    ensures forall k :: 0 <= k < i ==> !IsClauditHook(hooks[k])
  {
    if hooks == [] then 0
    else if IsClauditHook(hooks[0]) then 0
    else 1 + FirstClauditHook(hooks[1..])
  }

  /** The hook list after the upsert: the first recognised entry replaced by
      the claudit hook, or the claudit hook appended when there is none. */
  function WithClauditHook(hooks: seq<Hook>): seq<Hook> {
    var i := FirstClauditHook(hooks);
    if i < |hooks| then hooks[i := ClauditHook] else hooks + [ClauditHook]
  }

  /** `AddClauditHook`: scans the list and each entry's commands, replaces
      the first recognised entry in place, otherwise appends. */
  method AddClauditHook(settings: Settings)
    modifies settings
    ensures settings.postToolUse == WithClauditHook(old(settings.postToolUse))
    ensures settings.other == old(settings.other)
  {
    for i := 0 to |settings.postToolUse|
      invariant settings.postToolUse == old(settings.postToolUse)
      invariant forall k :: 0 <= k < i ==> !IsClauditHook(settings.postToolUse[k])
    {
      var hook := settings.postToolUse[i];
      if hook.matcher.toolName == "Bash" && |hook.hooks| > 0 {
        for j := 0 to |hook.hooks|
          invariant forall m :: 0 <= m < j ==> hook.hooks[m].command != StoreCommand
        {
          if hook.hooks[j].command == StoreCommand {
            assert IsClauditHook(hook);
            FirstClauditHookAt(settings.postToolUse, i);
            settings.postToolUse := settings.postToolUse[i := ClauditHook];
            return;
          }
        }
      }
    }
    FirstClauditHookAt(settings.postToolUse, |settings.postToolUse|);
    settings.postToolUse := settings.postToolUse + [ClauditHook];
  }

  /** The first recognised entry is the one with no recognised entry before it. */
  lemma FirstClauditHookAt(hooks: seq<Hook>, i: nat)
    requires i <= |hooks|
    requires i < |hooks| ==> IsClauditHook(hooks[i])
    requires forall k :: 0 <= k < i ==> !IsClauditHook(hooks[k])
    ensures FirstClauditHook(hooks) == i
  {
  }

  /** When some entry is recognised, the first one is replaced by the claudit
      hook; the length and every other entry, in order, stay as they were. */
  lemma UpsertReplacesFirst(hooks: seq<Hook>, i: nat)
    requires i < |hooks| && IsClauditHook(hooks[i])
    requires forall k :: 0 <= k < i ==> !IsClauditHook(hooks[k])
    ensures |WithClauditHook(hooks)| == |hooks|
    ensures WithClauditHook(hooks)[i] == ClauditHook
    ensures forall k :: 0 <= k < |hooks| && k != i ==> WithClauditHook(hooks)[k] == hooks[k]
  {
    FirstClauditHookAt(hooks, i);
  }

  /** When no entry is recognised, the claudit hook is appended and the
      list grows by exactly one. */
  lemma UpsertAppends(hooks: seq<Hook>)
    requires forall k :: 0 <= k < |hooks| ==> !IsClauditHook(hooks[k])
    ensures WithClauditHook(hooks) == hooks + [ClauditHook]
    ensures |WithClauditHook(hooks)| == |hooks| + 1
  {
    FirstClauditHookAt(hooks, |hooks|);
  }

  /** After the upsert the claudit hook is in the list, and it is what the
      scan recognises: Bash, one command, the store command, timeout 30. */
  lemma UpsertInstallsHook(hooks: seq<Hook>)
    ensures ClauditHook in WithClauditHook(hooks)
    ensures IsClauditHook(ClauditHook)
    ensures |ClauditHook.hooks| == 1 && ClauditHook.hooks[0].cmdType == "command"
            && ClauditHook.hooks[0].timeout == 30
  {
    var r := WithClauditHook(hooks);
    var i := FirstClauditHook(hooks);
    assert ClauditHook.hooks[0].command == StoreCommand;
    if i < |hooks| {
      assert r[i] == ClauditHook;
    } else {
      assert r[|hooks|] == ClauditHook;
    }
  }

  /** Upserting twice is upserting once. */
  lemma UpsertIdempotent(hooks: seq<Hook>)
    ensures WithClauditHook(WithClauditHook(hooks)) == WithClauditHook(hooks)
  {
    var r := WithClauditHook(hooks);
    var i := FirstClauditHook(hooks);
    assert ClauditHook.hooks[0].command == StoreCommand;
    if i < |hooks| {
      FirstClauditHookAt(r, i);
      assert r[i := ClauditHook] == r;
    } else {
      FirstClauditHookAt(r, |hooks|);
      assert r[|hooks| := ClauditHook] == r;
    }
  }

  // ---------------------------------------------------------------------
  // ReadSettings and WriteSettings

  /** The split `ReadSettings` performs on the parsed document: the hook
      list decoded from its key when present (none otherwise), and every
      other entry. */
  function SplitDocument(raw: Document, decode: HookDecoder): (r: (seq<Hook>, Document))
    ensures r.1.Keys == raw.Keys - {PostToolUseKey}
    ensures forall k :: k in r.1 ==> r.1[k] == raw[k]
    ensures PostToolUseKey !in raw ==> r.0 == []
    ensures PostToolUseKey in raw ==> r.0 == decode(raw[PostToolUseKey])
  {
    if PostToolUseKey in raw then (decode(raw[PostToolUseKey]), raw - {PostToolUseKey})
    else ([], raw)
  }

  /** The document `WriteSettings` renders: every other entry, plus the
      hook list under its key when the list is non-empty, replacing any
      entry of that name. */
  function MergedDocument(hooks: seq<Hook>, other: Document, encode: HookEncoder): (doc: Document)
    ensures doc.Keys == if hooks == [] then other.Keys else other.Keys + {PostToolUseKey}
    ensures forall k :: k in other && k != PostToolUseKey ==> doc[k] == other[k]
    ensures hooks != [] ==> doc[PostToolUseKey] == encode(hooks)
    ensures hooks == [] && PostToolUseKey in other ==> doc[PostToolUseKey] == other[PostToolUseKey]
  {
    if hooks == [] then other else other[PostToolUseKey := encode(hooks)]
  }

  /** `ReadSettings`: a missing file gives empty settings; a file that
      cannot be read or is not a JSON object is an error; otherwise the
      parsed map is split, deleting the hook key from it. */
  method ReadSettings(dir: ClaudeDir, parse: Bytes -> Option<Document>, decode: HookDecoder)
    returns (r: Result<Settings, SettingsError>)
    ensures dir.file.NotExist? ==>
      r.Ok? && fresh(r.value) && r.value.postToolUse == [] && r.value.other == map[]
    ensures dir.file.Unreadable? ==> r == Err(ReadFailed)
    ensures dir.file.Content? && parse(dir.file.data).None? ==> r == Err(InvalidJson)
    ensures dir.file.Content? && parse(dir.file.data).Some? ==>
      r.Ok? && fresh(r.value)
      && (r.value.postToolUse, r.value.other) == SplitDocument(parse(dir.file.data).value, decode)
  {
    match dir.file {
      case NotExist =>
        var s := new Settings([], map[]);
        return Ok(s);
      case Unreadable =>
        return Err(ReadFailed);
      case Content(data) =>
        var parsed := parse(data);
        if parsed.None? {
          return Err(InvalidJson);
        }
        var raw := parsed.value;
        var hooks: seq<Hook> := [];
        if PostToolUseKey in raw {
          hooks := decode(raw[PostToolUseKey]);
          raw := raw - {PostToolUseKey};
        }
        var s := new Settings(hooks, raw);
        return Ok(s);
    }
  }

  /** `WriteSettings`: copies every other entry into a fresh document, adds
      the hook list when it is non-empty and writes the rendered document.
      A failure to create the directory or write the file is `writeFails`. */
  method WriteSettings(dir: ClaudeDir, settings: Settings, encode: HookEncoder,
                       render: Document -> Bytes, writeFails: bool)
    returns (err: Option<SettingsError>)
    modifies dir
    ensures writeFails ==> err == Some(WriteFailed) && dir.file == old(dir.file)
    ensures !writeFails ==>
      err == None && dir.file == Content(render(MergedDocument(settings.postToolUse, settings.other, encode)))
  {
    var output: Document := map[];
    var remaining := settings.other.Keys;
    while remaining != {}
      invariant remaining <= settings.other.Keys
      invariant output == map k | k in settings.other.Keys - remaining :: settings.other[k]
      decreases |remaining|
    {
      var k :| k in remaining;
      output := output[k := settings.other[k]];
      remaining := remaining - {k};
    }
    assert output == settings.other;
    if |settings.postToolUse| > 0 {
      output := output[PostToolUseKey := encode(settings.postToolUse)];
    }
    if writeFails {
      return Some(WriteFailed);
    }
    dir.file := Content(render(output));
    err := None;
  }

  /** Reading back what was merged gives the same hook list and the same
      other entries, provided the other entries do not use the hook key and
      the hook list survives encoding and decoding. */
  lemma SplitOfMerged(hooks: seq<Hook>, other: Document, encode: HookEncoder, decode: HookDecoder)
    requires PostToolUseKey !in other
    requires hooks != [] ==> decode(encode(hooks)) == hooks
    ensures SplitDocument(MergedDocument(hooks, other, encode), decode) == (hooks, other)
  {
    var doc := MergedDocument(hooks, other, encode);
    if hooks != [] {
      assert doc - {PostToolUseKey} == other;
    }
  }

  /** A hook entry that decodes to an empty list does not survive a read
      followed by a write: the key is dropped from the document. */
  lemma EmptyHookListDropped(raw: Document, encode: HookEncoder, decode: HookDecoder)
    requires PostToolUseKey in raw && decode(raw[PostToolUseKey]) == []
    ensures var (hooks, other) := SplitDocument(raw, decode);
      PostToolUseKey !in MergedDocument(hooks, other, encode)
      && MergedDocument(hooks, other, encode) == raw - {PostToolUseKey}
  {
  }

  /** What a successful first `ReadSettings` of `file` splits off: the hook
      list and the other entries; `None` when that read fails. */
  function FirstRead(file: SettingsFile, parse: Bytes -> Option<Document>, decode: HookDecoder)
    : (r: Option<(seq<Hook>, Document)>)
    ensures file.NotExist? ==> r == Some(([], map[]))
    ensures r.Some? ==> PostToolUseKey !in r.value.1
    ensures r.None? <==> file.Unreadable? || (file.Content? && parse(file.data).None?)
  {
    match file
    case NotExist => Some(([], map[]))
    case Unreadable => None
    case Content(data) => if parse(data).None? then None else Some(SplitDocument(parse(data).value, decode))
  }

  /** The document the first pass of `ConfigureTwice` writes comes back
      unchanged from `parse`, and its hook list from `decode`. */
  predicate FirstWriteReadsBack(file: SettingsFile, parse: Bytes -> Option<Document>, render: Document -> Bytes,
                                encode: HookEncoder, decode: HookDecoder)
  {
    match FirstRead(file, parse, decode)
    case None => true
    case Some((hooks, other)) =>
      var written := MergedDocument(WithClauditHook(hooks), other, encode);
      parse(render(written)) == Some(written) && decode(encode(WithClauditHook(hooks))) == WithClauditHook(hooks)
  }

  /** Configuring twice: read, upsert and write, then again; the second
      read sees the hook list of the first write, and the upsert leaves it
      as it was. Only the document the first pass writes has to read back. */
  method ConfigureTwice(dir: ClaudeDir, parse: Bytes -> Option<Document>, render: Document -> Bytes,
                        encode: HookEncoder, decode: HookDecoder)
    returns (first: seq<Hook>, second: seq<Hook>)
    requires FirstWriteReadsBack(dir.file, parse, render, encode, decode)
    modifies dir
    ensures first == second
  {
    first, second := [], [];
    var r1 := ReadSettings(dir, parse, decode);
    if r1.Err? {
      return;
    }
    var s1 := r1.value;
    ghost var read := s1.postToolUse;
    AddClauditHook(s1);
    first := s1.postToolUse;
    var e1 := WriteSettings(dir, s1, encode, render, false);
    var r2 := ReadSettings(dir, parse, decode);
    SplitOfMerged(s1.postToolUse, s1.other, encode, decode);
    var s2 := r2.value;
    UpsertIdempotent(read);
    AddClauditHook(s2);
    second := s2.postToolUse;
  }
}
