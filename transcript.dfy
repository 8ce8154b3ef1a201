/** The transcript codec of internal/claude/transcript.go: a JSON-lines log
    is split into lines, every non-empty line becomes one entry that keeps
    its bytes, and the entries' bytes are joined back with newlines.

    JSON decoding is library behaviour and is a parameter here: a `Decoder`
    says what `json.Unmarshal` leaves in the entry's structured fields for a
    line and whether it reported an error. The line splitting is that of
    Go's `bufio.ScanLines` with the scanner's token limit of 10 MiB.

    Here each entry keeps its own copy of its line, which is what the code
    evidently intends. The code as written stores a slice of the scanner's
    buffer instead; module `TranscriptAliasing` models that. */
module Transcript {
  import opened Common
  import opened BufScanner

  /** A content block of a message. `input` and `content` are raw JSON. */
  datatype ContentBlock = ContentBlock(
    blockType: string, text: string, thinking: string, id: string, name: string,
    input: Bytes, toolUseId: string, content: Bytes)

  datatype Message = Message(role: string, content: seq<ContentBlock>)

  /** The structured fields of an entry; `entryType` is the message type,
      one of "user", "assistant", "system" when the log is as expected. */
  datatype EntryFields = EntryFields(
    uuid: string, parentUuid: string, entryType: string, timestamp: string,
    message: Option<Message>, sourceToolAssistantUuid: string)

  /** One entry of a transcript: the decoded fields and the line's bytes. */
  datatype TranscriptEntry = TranscriptEntry(fields: EntryFields, raw: Bytes)

  datatype Transcript = Transcript(entries: seq<TranscriptEntry>)

  /** What decoding one line produced: the fields as left in the entry and
      whether the decoder reported success. */
  datatype Decoded = Decoded(fields: EntryFields, ok: bool)

  type Decoder = Bytes -> Decoded

  /** `bufio.ErrTooLong`. */
  datatype ScanError = ErrTooLong

  // ---------------------------------------------------------------------
  // Specification of the scanner and of the parse

  /** The pieces `bufio.ScanLines` cuts the input into, before it drops a
      final carriage return: the bytes up to each newline, and the rest after
      the last newline when that is not empty. */
  function Segments(data: Bytes): (segs: seq<Bytes>)
    ensures data != [] ==> segs != []
    decreases |data|
  {
    if data == [] then []
    else
      var i := IndexOf(data, NL);
      if i == |data| then [data]
      else [data[..i]] + Segments(data[i + 1..])
  }

  /** Every piece fits the scanner's buffer together with its terminator. */
  predicate Fits(segs: seq<Bytes>) {
    forall k :: 0 <= k < |segs| ==> |segs[k]| < MaxScanTokenSize
  }

  /** The tokens of the pieces that are not empty once `\r` is dropped, in order. */
  function NonEmptyLines(segs: seq<Bytes>): (lines: seq<Bytes>)
    ensures |lines| <= |segs|
    ensures forall k :: 0 <= k < |lines| ==> lines[k] != []
  {
    if segs == [] then []
    else
      var line := DropCR(segs[0]);
      (if line == [] then [] else [line]) + NonEmptyLines(segs[1..])
  }

  /** The entry built from one line: whatever the decoder left in the
      structured fields, and always the line itself as `raw`. */
  function MakeEntry(line: Bytes, decode: Decoder): TranscriptEntry {
    TranscriptEntry(decode(line).fields, line)
  }

  function EntriesOf(lines: seq<Bytes>, decode: Decoder): (es: seq<TranscriptEntry>)
    ensures |es| == |lines|
    ensures forall k :: 0 <= k < |lines| ==> es[k].raw == lines[k] && es[k].fields == decode(lines[k]).fields
  {
    seq(|lines|, k requires 0 <= k < |lines| => MakeEntry(lines[k], decode))
  }

  function Raws(entries: seq<TranscriptEntry>): (raws: seq<Bytes>)
    ensures |raws| == |entries|
    ensures forall k :: 0 <= k < |entries| ==> raws[k] == entries[k].raw
  {
    seq(|entries|, k requires 0 <= k < |entries| => entries[k].raw)
  }

  /** What `ParseTranscript` returns for the whole input: an error when some
      line does not fit the scanner, otherwise one entry per non-empty line. */
  function Parse(data: Bytes, decode: Decoder): Result<Transcript, ScanError>
  {
    var segs := Segments(data);
    if Fits(segs) then Ok(Transcript(EntriesOf(NonEmptyLines(segs), decode)))
    else Err(ErrTooLong)
  }

  // ---------------------------------------------------------------------
  // The operations

  /** One call of `scanner.Scan()` at offset `pos`, with `ScanLines` as the
      split function: the offset after the token, the token, and whether the
      line overflowed the buffer. */
  method ScanLine(data: Bytes, pos: nat) returns (next: nat, token: Bytes, tooLong: bool)
    requires pos < |data|
    ensures var seg := Segments(data[pos..])[0];
      && (tooLong <==> |seg| >= MaxScanTokenSize)
      && (!tooLong ==> pos < next <= |data| && token == DropCR(seg)
                       && Segments(data[pos..]) == [seg] + Segments(data[next..]))
  {
    var j := pos;
    while j < |data| && data[j] != NL && j - pos < MaxScanTokenSize
      invariant pos <= j <= |data| && j - pos <= MaxScanTokenSize
      invariant forall k :: pos <= k < j ==> data[k] != NL
    {
      j := j + 1;
    }
    ScanCut(data, pos, j);
    if j - pos >= MaxScanTokenSize {
      return pos, [], true;
    }
    var seg := data[pos..j];
    next := if j < |data| then j + 1 else j;
    token := DropCR(seg);
    tooLong := false;
  }

  /** `ParseTranscript`, with each line copied into its entry: the scanner
      loop appends one entry per non-empty line and keeps the line's bytes
      whether or not it decoded. */
  method ParseTranscript(data: Bytes, decode: Decoder) returns (r: Result<Transcript, ScanError>)
    ensures r == Parse(data, decode)
  {
    var entries: seq<TranscriptEntry> := [];
    var pos: nat := 0;
    ghost var done: seq<Bytes> := [];
    while pos < |data|
      invariant pos <= |data|
      invariant Segments(data) == done + Segments(data[pos..])
      invariant Fits(done)
      invariant entries == EntriesOf(NonEmptyLines(done), decode)
      decreases |data| - pos
    {
      var next, line, tooLong := ScanLine(data, pos);
      ghost var seg := Segments(data[pos..])[0];
      if tooLong {
        assert Segments(data)[|done|] == seg;
        return Err(ErrTooLong);
      }
      ScanStep(Segments(data), done, Segments(data[pos..]), seg, Segments(data[next..]), decode);
      if |line| > 0 {
        var d := decode(line);
        var entry := TranscriptEntry(d.fields, []);
        if !d.ok {
          // a line that does not decode is kept all the same
          entry := entry.(raw := line);
        } else {
          entry := entry.(raw := line);
        }
        entries := entries + [entry];
      }
      done := done + [seg];
      pos := next;
    }
    assert data[pos..] == [];
    assert done == Segments(data);
    r := Ok(Transcript(entries));
  }

  /** `Transcript.ToJSONL`: the entries' raw bytes, a newline between
      neighbours and none at the end. */
  method ToJSONL(t: Transcript) returns (result: Bytes)
    ensures result == Join(Raws(t.entries), NL)
  {
    result := [];
    for i := 0 to |t.entries|
      invariant result == Join(Raws(t.entries[..i]), NL)
    {
      if i > 0 {
        result := result + [NL];
      }
      result := result + t.entries[i].raw;
      assert Raws(t.entries[..i + 1]) == Raws(t.entries[..i]) + [t.entries[i].raw];
      JoinSnoc(Raws(t.entries[..i]), t.entries[i].raw, NL);
    }
    assert t.entries[..|t.entries|] == t.entries;
  }

  /** `Transcript.MessageCount`: one per entry, that is one per raw line kept. */
  function MessageCount(t: Transcript): (n: nat)
    ensures n == |Raws(t.entries)|
  {
    |t.entries|
  }

  // ---------------------------------------------------------------------
  // Helpers for the loops

  lemma {:induction false} NonEmptyLinesSnoc(segs: seq<Bytes>, seg: Bytes)
    ensures NonEmptyLines(segs + [seg])
         == NonEmptyLines(segs) + (if DropCR(seg) == [] then [] else [DropCR(seg)])
    decreases |segs|
  {
    var x := if DropCR(seg) == [] then [] else [DropCR(seg)];
    if segs == [] {
      assert NonEmptyLines([seg]) == x + NonEmptyLines([]);
      assert [] + [seg] == [seg];
    } else {
      var t := segs + [seg];
      assert t[0] == segs[0] && t[1..] == segs[1..] + [seg];
      NonEmptyLinesSnoc(segs[1..], seg);
      var h := if DropCR(segs[0]) == [] then [] else [DropCR(segs[0])];
      assert NonEmptyLines(t) == h + (NonEmptyLines(segs[1..]) + x);
      assert NonEmptyLines(segs) == h + NonEmptyLines(segs[1..]);
    }
  }
  /** What a scanner step adds: the piece moves from the unscanned rest to
      the scanned prefix, and its line, unless empty, adds one entry. */
  lemma ScanStep(all: seq<Bytes>, done: seq<Bytes>, rest: seq<Bytes>, seg: Bytes, next: seq<Bytes>, decode: Decoder)
    requires all == done + rest && rest == [seg] + next
    requires Fits(done) && |seg| < MaxScanTokenSize
    ensures all == (done + [seg]) + next
    ensures Fits(done + [seg])
    ensures EntriesOf(NonEmptyLines(done + [seg]), decode)
         == EntriesOf(NonEmptyLines(done), decode)
            + (if DropCR(seg) == [] then [] else [MakeEntry(DropCR(seg), decode)])
  {
    SeqAssoc(done, [seg], next);
    FitsSnoc(done, seg);
    EntriesOfLinesSnoc(done, seg, decode);
  }

  lemma FitsSnoc(done: seq<Bytes>, seg: Bytes)
    requires Fits(done) && |seg| < MaxScanTokenSize
    ensures Fits(done + [seg])
  {
    assert forall k :: 0 <= k < |done| ==> (done + [seg])[k] == done[k];
  }

  lemma EntriesOfLinesSnoc(done: seq<Bytes>, seg: Bytes, decode: Decoder)
    ensures EntriesOf(NonEmptyLines(done + [seg]), decode)
         == EntriesOf(NonEmptyLines(done), decode)
            + (if DropCR(seg) == [] then [] else [MakeEntry(DropCR(seg), decode)])
  {
    NonEmptyLinesSnoc(done, seg);
    if DropCR(seg) != [] {
      EntriesOfSnoc(NonEmptyLines(done), DropCR(seg), decode);
    } else {
      assert NonEmptyLines(done) + [] == NonEmptyLines(done);
    }
  }

  /** Where the scanner loop stops, at a newline, at the end or at the
      limit, tells the first piece of the rest of the input. */
  lemma ScanCut(data: Bytes, pos: nat, j: nat)
    requires pos < |data| && pos <= j <= |data|
    requires forall k :: pos <= k < j ==> data[k] != NL
    requires j == |data| || data[j] == NL || j - pos >= MaxScanTokenSize
    ensures j - pos >= MaxScanTokenSize ==> |Segments(data[pos..])[0]| >= MaxScanTokenSize
    ensures j - pos < MaxScanTokenSize ==>
      var next := if j < |data| then j + 1 else j;
      Segments(data[pos..]) == [data[pos..j]] + Segments(data[next..])
  {
    var rest := data[pos..];
    var m := j - pos;
    FirstSegment(rest, m);
    if m < MaxScanTokenSize {
      if j < |data| {
        assert rest[..m] == data[pos..j] && rest[m + 1..] == data[j + 1..];
      } else {
        assert rest == data[pos..j] && data[j..] == [];
      }
    }
  }

  /** The first piece of a non-empty input that has no newline before `m`
      is at least `m` long, and it is the first `m` bytes when a newline or
      the end follows them. */
  lemma FirstSegment(rest: Bytes, m: nat)
    requires 0 < |rest| && m <= |rest|
    requires forall k :: 0 <= k < m ==> rest[k] != NL
    ensures |Segments(rest)[0]| >= m
    ensures m < |rest| && rest[m] == NL ==> Segments(rest) == [rest[..m]] + Segments(rest[m + 1..])
    ensures m == |rest| ==> Segments(rest) == [rest]
  {
    if m == |rest| || rest[m] == NL {
      IndexOfAt(rest, NL, m);
    } else {
      assert IndexOf(rest, NL) >= m;
    }
  }

  lemma EntriesOfSnoc(lines: seq<Bytes>, line: Bytes, decode: Decoder)
    ensures EntriesOf(lines + [line], decode) == EntriesOf(lines, decode) + [MakeEntry(line, decode)]
  {
  }

  // ---------------------------------------------------------------------
  // Properties of the parse

  /** Every non-empty line gives exactly one entry, in input order; empty
      lines give none; the entry's `raw` is the line itself and its fields
      are what the decoder made of that line. */
  lemma ParseKeepsEveryLine(data: Bytes, decode: Decoder)
    requires Fits(Segments(data))
    ensures Parse(data, decode).Ok?
    ensures var es := Parse(data, decode).value.entries;
      && Raws(es) == NonEmptyLines(Segments(data))
      && forall k :: 0 <= k < |es| ==> es[k].raw != [] && es[k].fields == decode(es[k].raw).fields
  {
  }

  /** A line the decoder rejects never aborts the parse and never loses its
      bytes: the outcome and the raw lines do not depend on the decoder. */
  lemma {:induction false} RawsIndependentOfDecoder(data: Bytes, d1: Decoder, d2: Decoder)
    ensures Parse(data, d1).Ok? <==> Parse(data, d2).Ok?
    ensures Parse(data, d1).Ok? ==>
      Raws(Parse(data, d1).value.entries) == Raws(Parse(data, d2).value.entries)
  {
    var segs := Segments(data);
    if Fits(segs) {
      var lines := NonEmptyLines(segs);
      assert Raws(EntriesOf(lines, d1)) == lines == Raws(EntriesOf(lines, d2));
    }
  }

  /** The parse fails exactly when some line, `\r` included, reaches the
      scanner's 10 MiB limit; then no transcript at all is returned. */
  lemma TooLongLineFails(data: Bytes, decode: Decoder, k: nat)
    requires k < |Segments(data)| && |Segments(data)[k]| >= MaxScanTokenSize
    ensures Parse(data, decode) == Err(ErrTooLong)
  {
  }

  /** `MessageCount` of a parsed transcript is its number of non-empty lines. */
  lemma MessageCountOfParse(data: Bytes, decode: Decoder)
    requires Parse(data, decode).Ok?
    ensures MessageCount(Parse(data, decode).value) == |NonEmptyLines(Segments(data))|
  {
  }

  // ---------------------------------------------------------------------
  // Round trips

  /** A line that survives parsing unchanged: not empty, no newline, no
      final `\r`, and short enough for the scanner. */
  predicate GoodLine(line: Bytes) {
    line != [] && NL !in line && line[|line| - 1] != CR && |line| < MaxScanTokenSize
  }

  /** A log without empty lines, without a final newline, without `\r`
      before a newline or at the end, and without over-long lines. */
  predicate WellFormedLog(data: Bytes) {
    (data == [] || data[|data| - 1] != NL)
    && forall k :: 0 <= k < |Segments(data)| ==> GoodLine(Segments(data)[k])
  }

  /** Cutting joined lines at their newlines gives the lines back, when no
      line holds a newline and the last one is not empty. */
  lemma {:induction false} SegmentsOfJoin(lines: seq<Bytes>)
    requires forall k :: 0 <= k < |lines| ==> NL !in lines[k]
    requires lines != [] ==> lines[|lines| - 1] != []
    ensures Segments(Join(lines, NL)) == lines
    decreases |lines|
  {
    if |lines| == 1 {
      assert IndexOf(lines[0], NL) == |lines[0]|;
    } else if |lines| > 1 {
      var s := Join(lines, NL);
      var head := lines[0];
      var tail := Join(lines[1..], NL);
      assert s == head + [NL] + tail;
      assert s[|head|] == NL;
      assert forall j :: 0 <= j < |head| ==> s[j] == head[j];
      assert IndexOf(s, NL) == |head|;
      assert s[..|head|] == head;
      assert s[|head| + 1..] == tail;
      SegmentsOfJoin(lines[1..]);
    }
  }

  /** Joining the pieces with newlines restores an input that does not end
      with a newline. */
  lemma {:induction false} JoinOfSegments(data: Bytes)
    requires data == [] || data[|data| - 1] != NL
    ensures Join(Segments(data), NL) == data
    decreases |data|
  {
    if data != [] && IndexOf(data, NL) < |data| {
      var i := IndexOf(data, NL);
      var rest := data[i + 1..];
      assert rest != [] && rest[|rest| - 1] != NL by {
        assert rest[|rest| - 1] == data[|data| - 1];
      }
      JoinOfSegments(rest);
      JoinOfCut(data, i, Segments(rest));
    }
  }

  /** One step of `JoinOfSegments`: the first piece, a newline and the
      joined rest make up the input. */
  lemma JoinOfCut(data: Bytes, i: nat, segs: seq<Bytes>)
    requires i == IndexOf(data, NL) < |data|
    requires segs == Segments(data[i + 1..]) && segs != []
    requires Join(segs, NL) == data[i + 1..]
    ensures Join(Segments(data), NL) == data
  {
    assert Segments(data) == [data[..i]] + segs;
    JoinCons(data[..i], segs);
    assert data == data[..i] + [NL] + data[i + 1..];
  }

  lemma JoinCons(x: Bytes, tail: seq<Bytes>)
    requires tail != []
    ensures Join([x] + tail, NL) == x + [NL] + Join(tail, NL)
  {
    assert ([x] + tail)[1..] == tail;
  }

  /** Lines that survive parsing are their own non-empty tokens. */
  lemma {:induction false} NonEmptyLinesOfGood(lines: seq<Bytes>)
    requires forall k :: 0 <= k < |lines| ==> GoodLine(lines[k])
    ensures NonEmptyLines(lines) == lines
    decreases |lines|
  {
    if lines != [] {
      assert DropCR(lines[0]) == lines[0];
      NonEmptyLinesOfGood(lines[1..]);
    }
  }

  lemma RawsOfEntries(lines: seq<Bytes>, decode: Decoder)
    ensures Raws(EntriesOf(lines, decode)) == lines
  {
  }

  /** `ToJSONL(ParseTranscript(x)) == x` for a well-formed log `x`. */
  lemma SerializeParse(data: Bytes, decode: Decoder)
    requires WellFormedLog(data)
    ensures Parse(data, decode).Ok?
    ensures Join(Raws(Parse(data, decode).value.entries), NL) == data
  {
    var segs := Segments(data);
    assert Fits(segs);
    NonEmptyLinesOfGood(segs);
    RawsOfEntries(segs, decode);
    JoinOfSegments(data);
  }

  /** `ParseTranscript(ToJSONL(t))` rebuilds every transcript whose raw lines
      survive parsing and whose fields are what the decoder makes of them. */
  lemma ParseSerialize(t: Transcript, decode: Decoder)
    requires forall k :: 0 <= k < |t.entries| ==> GoodLine(t.entries[k].raw)
    requires forall k :: 0 <= k < |t.entries| ==> t.entries[k].fields == decode(t.entries[k].raw).fields
    ensures Parse(Join(Raws(t.entries), NL), decode) == Ok(t)
  {
    var lines := Raws(t.entries);
    SegmentsOfJoin(lines);
    NonEmptyLinesOfGood(lines);
    assert EntriesOf(lines, decode) == t.entries;
  }

  // Where the round trip stops: for lines `a` and `b` that would otherwise
  // survive it, a `\r\n` line end comes back as `\n`, and an empty line and
  // a final newline are not reproduced.

  /** A `\r` before a newline is dropped from the line. */
  lemma CrLfBecomesLf(a: Bytes, b: Bytes, decode: Decoder)
    requires GoodLine(a) && GoodLine(b) && |a| + 1 < MaxScanTokenSize
    ensures Parse(a + [CR, NL] + b, decode).Ok?
    ensures Raws(Parse(a + [CR, NL] + b, decode).value.entries) == [a, b]
  {
    var a' := a + [CR];
    assert NL !in a';
    assert Join([a', b], NL) == a + [CR, NL] + b;
    SegmentsOfJoin([a', b]);
    assert DropCR(a') == a;
    assert NonEmptyLines([a', b]) == [a, b] by {
      assert NonEmptyLines([b]) == [b] + NonEmptyLines([]);
    }
    RawsOfEntries([a, b], decode);
  }

  /** An empty line gives no entry. */
  lemma EmptyLineDropped(a: Bytes, b: Bytes, decode: Decoder)
    requires GoodLine(a) && GoodLine(b)
    ensures Parse(a + [NL, NL] + b, decode).Ok?
    ensures Raws(Parse(a + [NL, NL] + b, decode).value.entries) == [a, b]
  {
    JoinWithEmptyMiddle(a, b);
    SegmentsOfJoin([a, [], b]);
    NonEmptyLinesWithEmptyMiddle(a, b);
    RawsOfEntries([a, b], decode);
  }

  lemma JoinWithEmptyMiddle(a: Bytes, b: Bytes)
    ensures Join([a, [], b], NL) == a + [NL, NL] + b
  {
    JoinCons([], [b]);
    JoinCons(a, [[], b]);
    assert [a] + [[], b] == [a, [], b];
    assert [[]] + [b] == [[], b];
  }

  lemma NonEmptyLinesWithEmptyMiddle(a: Bytes, b: Bytes)
    requires a != [] && a[|a| - 1] != CR && b != [] && b[|b| - 1] != CR
    ensures NonEmptyLines([a, [], b]) == [a, b]
  {
    assert [a, [], b][1..] == [[], b];
    assert [[], b][1..] == [b];
    assert NonEmptyLines([b]) == [b] + NonEmptyLines([]);
  }

  /** A final newline gives no entry. */
  lemma TrailingNewlineDropped(a: Bytes, decode: Decoder)
    requires GoodLine(a)
    ensures Parse(a + [NL], decode).Ok?
    ensures Raws(Parse(a + [NL], decode).value.entries) == [a]
  {
    assert IndexOf(a + [NL], NL) == |a| by {
      assert forall j :: 0 <= j < |a| ==> (a + [NL])[j] == a[j];
      assert (a + [NL])[|a|] == NL;
    }
    assert (a + [NL])[..|a|] == a && (a + [NL])[|a| + 1..] == [];
    assert Segments(a + [NL]) == [a];
    assert NonEmptyLines([a]) == [a] + NonEmptyLines([]);
    RawsOfEntries([a], decode);
  }
}
