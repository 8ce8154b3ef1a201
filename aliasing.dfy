/** `ParseTranscript` of internal/claude/transcript.go as it is written:
    the entry's `Raw` is `scanner.Bytes()` converted to `json.RawMessage`
    without a copy, so it stays a window on the scanner's buffer and shows
    whatever later scans write there. The copying parse of the `Transcript`
    module is the one the rest of the model uses. */
module TranscriptAliasing {
  import opened Common
  import opened BufScanner
  import opened Transcript

  /** An entry as the loop leaves it: the fields decoded from the line when
      it was scanned, and `Raw`, which is `scanner.Bytes()` converted
      without a copy, so a window on the scanner's buffer. */
  datatype HeldEntry = HeldEntry(fields: EntryFields, raw: Window)

  /** The `for scanner.Scan()` loop of `ParseTranscript` as written, from
      scanner state `s` with the entries `held` appended so far; it ends
      with `scanner.Err()`, which is nil after `io.EOF`. */
  function ScanLoop(s: Scanner, data: Bytes, decode: Decoder, held: seq<HeldEntry>)
    : (r: Result<(Scanner, seq<HeldEntry>), ScanError>)
    requires Valid(s, data)
    requires AllIn(s, held)
    ensures r.Ok? ==> Valid(r.value.0, data) && |r.value.1| >= |held|
    ensures r.Ok? ==> AllIn(r.value.0, r.value.1)
    ensures r.Ok? ==> r.value.1[..|held|] == held
    decreases |data| - Consumed(s)
  {
    var (t, token) := Scan(s, data);
    WindowsStay(s, t, held);
    match token
    case None => if t.err == TooLong then Err(ErrTooLong) else Ok((t, held))
    case Some(w) =>
      var line := View(t, w);
      if line == [] then ScanLoop(t, data, decode, held)
      else
        var more := held + [HeldEntry(decode(line).fields, w)];
        assert more[..|held|] == held;
        ScanLoop(t, data, decode, more)
  }

  /** The loop fails exactly when a line of the rest of the file does not
      fit the scanner, and otherwise appends one entry per non-empty line,
      holding the fields decoded from that line. */
  lemma {:induction false} LoopFollowsLines(s: Scanner, data: Bytes, decode: Decoder, held: seq<HeldEntry>)
    requires Tracks(s, data) && s.err != TooLong && AllIn(s, held)
    ensures var r := ScanLoop(s, data, decode, held);
      var lines := NonEmptyLines(Segments(Rest(s, data)));
      && (r.Ok? <==> Fits(Segments(Rest(s, data))))
      && (r.Ok? ==> |r.value.1| == |held| + |lines| && FieldsFrom(r.value.1, |held|, lines, decode))
    decreases |data| - Consumed(s)
  {
    var (t, token) := Scan(s, data);
    WindowsStay(s, t, held);
    ScanFollowsSegments(s, data);
    if token.Some? {
      var w := token.value;
      var line := View(t, w);
      if line == [] {
        LoopFollowsLines(t, data, decode, held);
        assert NonEmptyLines(Segments(Rest(s, data))) == NonEmptyLines(Segments(Rest(t, data)));
      } else {
        var e := HeldEntry(decode(line).fields, w);
        var more := held + [e];
        WindowsAppend(t, held, e);
        LoopFollowsLines(t, data, decode, more);
        assert ScanLoop(s, data, decode, held) == ScanLoop(t, data, decode, more);
        var loop := ScanLoop(t, data, decode, more);
        if loop.Ok? {
          FieldsOfLines(loop.value.1, held, more, line, NonEmptyLines(Segments(Rest(t, data))), decode);
          assert NonEmptyLines(Segments(Rest(s, data))) == [line] + NonEmptyLines(Segments(Rest(t, data)));
        }
      }
    }
  }

  /** One `Scan` in terms of the segments of the rest of the file: no token
      means nothing is left or the next line does not fit; a token is the
      next line, and the segments after it are those of what remains. */
  lemma ScanFollowsSegments(s: Scanner, data: Bytes)
    requires Tracks(s, data) && s.err != TooLong
    ensures var (t, token) := Scan(s, data); var segs := Segments(Rest(s, data));
      && Tracks(t, data)
      && (token.None? ==>
            && (t.err == TooLong <==> !Fits(segs))
            && (t.err != TooLong ==> NonEmptyLines(segs) == []))
      && (token.Some? ==>
            && t.err != TooLong
            && (Fits(segs) <==> Fits(Segments(Rest(t, data))))
            && NonEmptyLines(segs)
               == (if View(t, token.value) == [] then [] else [View(t, token.value)])
                  + NonEmptyLines(Segments(Rest(t, data))))
  {
    var rest := Rest(s, data);
    ScanYieldsNextLine(s, data);
    if Scan(s, data).1.None? {
      NoSegmentsLeft(rest);
    } else {
      NextSegment(rest);
    }
  }

  /** From index `from` on, the entries hold the fields decoded from `lines`. */
  predicate FieldsFrom(all: seq<HeldEntry>, from: nat, lines: seq<Bytes>, decode: Decoder) {
    && from + |lines| <= |all|
    && forall k :: 0 <= k < |lines| ==> all[from + k].fields == decode(lines[k]).fields
  }

  /** Entries holding the fields of `line` and then of `lines`, after `held`. */
  lemma FieldsOfLines(all: seq<HeldEntry>, held: seq<HeldEntry>, more: seq<HeldEntry>,
                      line: Bytes, lines: seq<Bytes>, decode: Decoder)
    requires |more| == |held| + 1 && more[|held|].fields == decode(line).fields
    requires |all| == |more| + |lines| && all[..|more|] == more
    requires FieldsFrom(all, |more|, lines, decode)
    ensures |all| == |held| + |[line] + lines|
    ensures FieldsFrom(all, |held|, [line] + lines, decode)
  {
    forall k | 0 <= k < |[line] + lines|
      ensures all[|held| + k].fields == decode(([line] + lines)[k]).fields
    {
      if k > 0 {
        assert ([line] + lines)[k] == lines[k - 1];
      } else {
        assert all[|held|] == all[..|more|][|held|];
      }
    }
  }

  /** The segments of the rest of the file begin with its next line. */
  lemma NextSegment(rest: Bytes)
    requires rest != []
    ensures Fits(Segments(rest)) <==> |LineOf(rest)| < MaxScanTokenSize && Fits(Segments(AfterLine(rest)))
    ensures NonEmptyLines(Segments(rest))
            == (if DropCR(LineOf(rest)) == [] then [] else [DropCR(LineOf(rest))]) + NonEmptyLines(Segments(AfterLine(rest)))
  {
    SegmentsOfRest(rest);
    FitsCons(LineOf(rest), Segments(AfterLine(rest)));
    NonEmptyLinesCons(LineOf(rest), Segments(AfterLine(rest)));
  }

  lemma SegmentsOfRest(rest: Bytes)
    requires rest != []
    ensures Segments(rest) == [LineOf(rest)] + Segments(AfterLine(rest))
  {
    if IndexOf(rest, NL) == |rest| {
      assert LineOf(rest) == rest && AfterLine(rest) == [];
    }
  }

  lemma FitsCons(seg: Bytes, segs: seq<Bytes>)
    ensures Fits([seg] + segs) <==> |seg| < MaxScanTokenSize && Fits(segs)
  {
    var all := [seg] + segs;
    assert all[0] == seg;
    assert forall k :: 0 <= k < |segs| ==> all[k + 1] == segs[k];
  }

  lemma NonEmptyLinesCons(seg: Bytes, segs: seq<Bytes>)
    ensures NonEmptyLines([seg] + segs)
            == (if DropCR(seg) == [] then [] else [DropCR(seg)]) + NonEmptyLines(segs)
  {
    assert ([seg] + segs)[1..] == segs;
  }

  /** Nothing left gives no segments; a long next line does not fit. */
  lemma NoSegmentsLeft(rest: Bytes)
    ensures rest == [] ==> Fits(Segments(rest)) && NonEmptyLines(Segments(rest)) == []
    ensures rest != [] && |LineOf(rest)| >= MaxScanTokenSize ==> !Fits(Segments(rest))
  {
    if rest != [] {
      assert Segments(rest)[0] == LineOf(rest);
    }
  }

  /** The window lies in the scanner's arrays and shows `x` there. */
  predicate Shows(s: Scanner, w: Window, x: Bytes) {
    WindowIn(s, w) && View(s, w) == x
  }

  /** Every held window lies inside the scanner's arrays. */
  predicate AllIn(s: Scanner, held: seq<HeldEntry>) {
    forall k :: 0 <= k < |held| ==> WindowIn(s, held[k].raw)
  }

  lemma WindowsStay(s: Scanner, t: Scanner, held: seq<HeldEntry>)
    requires Extends(s, t)
    requires AllIn(s, held)
    ensures AllIn(t, held)
  {
  }

  lemma WindowsAppend(s: Scanner, held: seq<HeldEntry>, e: HeldEntry)
    requires AllIn(s, held)
    requires WindowIn(s, e.raw)
    ensures AllIn(s, held + [e])
  {
  }

  /** The entries once scanning has finished: the held fields, and as
      `Raw` whatever each window shows in the scanner's final state. */
  function Settle(s: Scanner, held: seq<HeldEntry>): (entries: seq<TranscriptEntry>)
    requires AllIn(s, held)
  {
    seq(|held|, k requires 0 <= k < |held| => TranscriptEntry(held[k].fields, View(s, held[k].raw)))
  }

  /** `ParseTranscript` as written: each entry's `Raw` is what its window
      shows once scanning has finished, which is what `ToJSONL` later reads.
      It fails exactly when the copying parse fails, and otherwise has as
      many entries, with the same fields; only `Raw` may differ. */
  function ParseAsWritten(data: Bytes, decode: Decoder): (r: Result<Transcript, ScanError>)
    ensures r.Ok? <==> Parse(data, decode).Ok?
    ensures r.Ok? ==> |r.value.entries| == |Parse(data, decode).value.entries|
    ensures r.Ok? ==> forall k :: 0 <= k < |r.value.entries| ==>
              r.value.entries[k].fields == Parse(data, decode).value.entries[k].fields
  {
    ParseFrom(NewScanner(), data, decode)
  }

  /** The parse as written from a scanner that has read nothing yet. */
  function ParseFrom(s: Scanner, data: Bytes, decode: Decoder): (r: Result<Transcript, ScanError>)
    requires Initial(s)
    ensures r.Ok? <==> Parse(data, decode).Ok?
    ensures r.Ok? ==> |r.value.entries| == |Parse(data, decode).value.entries|
    ensures r.Ok? ==> forall k :: 0 <= k < |r.value.entries| ==>
              r.value.entries[k].fields == Parse(data, decode).value.entries[k].fields
  {
    assert Tracks(s, data) && Rest(s, data) == data;
    LoopFollowsLines(s, data, decode, []);
    Settled(ScanLoop(s, data, decode, []))
  }

  /** `scanner.Err()` then the transcript: `ErrTooLong` is returned, and
      otherwise the entries are settled against the final state. */
  function Settled(loop: Result<(Scanner, seq<HeldEntry>), ScanError>): (r: Result<Transcript, ScanError>)
    requires loop.Ok? ==> AllIn(loop.value.0, loop.value.1)
  {
    if loop.Err? then Err(loop.error)
    else Ok(Transcript(Settle(loop.value.0, loop.value.1)))
  }

  /** Two lines of 40,000 bytes read from a file: the first `Read` fills the
      64 KiB buffer, the second `Scan` moves the start of the second line to
      the front of the same array, over the first line's bytes, and the
      second line ends up where the first one was. Both entries then hold
      the second line, although each was decoded from its own line; the
      copying parse keeps both lines. */
  lemma RawsOverwritten(a: Bytes, b: Bytes, decode: Decoder)
    requires |a| == 40000 && |b| == 40000
    requires NL !in a && NL !in b && a[|a| - 1] != CR && b[|b| - 1] != CR
    ensures var r := ParseAsWritten(a + [NL] + b, decode);
      && r.Ok? && |r.value.entries| == 2
      && r.value.entries[0] == TranscriptEntry(decode(a).fields, b)
      && r.value.entries[1] == TranscriptEntry(decode(b).fields, b)
    ensures Parse(a + [NL] + b, decode)
            == Ok(Transcript([TranscriptEntry(decode(a).fields, a), TranscriptEntry(decode(b).fields, b)]))
  {
    var s0 := NewScanner();
    var s7, held := LoopOfTwoLines(s0, a, b, decode);
    ParseAsWrittenOfLoop(a + [NL] + b, decode, s7, held);
    ParseOfTwoLines(a, b, decode);
  }

  /** The result of the parse is what the loop leaves, settled. */
  lemma ParseAsWrittenOfLoop(data: Bytes, decode: Decoder, s: Scanner, held: seq<HeldEntry>)
    requires AllIn(s, held)
    requires ScanLoop(NewScanner(), data, decode, []) == Ok((s, held))
    ensures ParseAsWritten(data, decode) == Ok(Transcript(Settle(s, held)))
  {
  }

  /** The loop over the two lines: two entries, both holding the same window. */
  lemma LoopOfTwoLines(s0: Scanner, a: Bytes, b: Bytes, decode: Decoder) returns (s7: Scanner, held: seq<HeldEntry>)
    requires Initial(s0)
    requires |a| == 40000 && |b| == 40000
    requires NL !in a && NL !in b && a[|a| - 1] != CR && b[|b| - 1] != CR
    ensures |held| == 2 && held[0] == HeldEntry(decode(a).fields, Window(0, 0, 40000))
            && held[1] == HeldEntry(decode(b).fields, Window(0, 0, 40000))
    ensures Shows(s7, Window(0, 0, 40000), b)
    ensures ScanLoop(s0, a + [NL] + b, decode, []) == Ok((s7, held))
  {
    var data := a + [NL] + b;
    var s2, s6;
    s2, s6, s7 := ScansOfTwoLines(s0, a, b);
    held := LoopOfTwoScans(s0, s2, s6, s7, Window(0, 0, 40000), a, b, data, decode);
  }

  /** The three `Scan`s over the two lines. */
  lemma ScansOfTwoLines(s0: Scanner, a: Bytes, b: Bytes) returns (s2: Scanner, s6: Scanner, s7: Scanner)
    requires Initial(s0)
    requires |a| == 40000 && |b| == 40000
    requires NL !in a && NL !in b && a[|a| - 1] != CR && b[|b| - 1] != CR
    ensures Valid(s0, a + [NL] + b)
    ensures Scan(s0, a + [NL] + b) == (s2, Some(Window(0, 0, 40000)))
    ensures Shows(s2, Window(0, 0, 40000), a)
    ensures Scan(s2, a + [NL] + b) == (s6, Some(Window(0, 0, 40000)))
    ensures Shows(s6, Window(0, 0, 40000), b)
    ensures Scan(s6, a + [NL] + b) == (s7, None) && s7.err == EOF
    ensures Shows(s7, Window(0, 0, 40000), b)
  {
    s2 := FirstScanOfTwoLines(s0, a, b);
    s6 := SecondScanOfTwoLines(a, b, s2);
    s7 := LastScanOfTwoLines(a, b, s6);
    SameView(s6, s7, Window(0, 0, 40000), b);
  }

  /** A window shows the same bytes in two states with the same arrays. */
  lemma SameView(s: Scanner, t: Scanner, w: Window, x: Bytes)
    requires s.arrays == t.arrays && Shows(s, w, x)
    ensures Shows(t, w, x)
  {
  }

  /** Two `Scan`s that yield non-empty lines through the same window, then
      the end of the file: two entries. */
  lemma LoopOfTwoScans(s0: Scanner, s2: Scanner, s6: Scanner, s7: Scanner, w: Window,
                       x: Bytes, y: Bytes, data: Bytes, decode: Decoder)
    returns (held: seq<HeldEntry>)
    requires Valid(s0, data)
    requires Scan(s0, data) == (s2, Some(w)) && Shows(s2, w, x) && x != []
    requires Scan(s2, data) == (s6, Some(w)) && Shows(s6, w, y) && y != []
    requires Scan(s6, data) == (s7, None) && s7.err == EOF
    ensures |held| == 2 && held[0] == HeldEntry(decode(x).fields, w) && held[1] == HeldEntry(decode(y).fields, w)
    ensures ScanLoop(s0, data, decode, []) == Ok((s7, held))
  {
    var one := [HeldEntry(decode(x).fields, w)];
    assert AllIn(s2, one);
    LoopTakesLine(s0, s2, w, x, data, decode, []);
    assert [] + [HeldEntry(decode(x).fields, w)] == one;
    held := LoopOfLastScan(s2, s6, s7, w, y, data, decode, one);
  }

  /** A `Scan` that yields a last non-empty line, then the end of the file:
      one more entry and the loop ends. */
  lemma LoopOfLastScan(s: Scanner, t: Scanner, u: Scanner, w: Window,
                       line: Bytes, data: Bytes, decode: Decoder, held: seq<HeldEntry>)
    returns (all: seq<HeldEntry>)
    requires Valid(s, data) && AllIn(s, held)
    requires Scan(s, data) == (t, Some(w)) && Shows(t, w, line) && line != []
    requires Scan(t, data) == (u, None) && u.err == EOF
    ensures all == held + [HeldEntry(decode(line).fields, w)]
    ensures ScanLoop(s, data, decode, held) == Ok((u, all))
  {
    all := held + [HeldEntry(decode(line).fields, w)];
    LoopTakesLine(s, t, w, line, data, decode, held);
    WindowsAppend(t, held, HeldEntry(decode(line).fields, w));
    LoopEnds(t, u, data, decode, all);
  }

  /** A `Scan` that yields a non-empty line appends one entry holding its window. */
  lemma LoopTakesLine(s: Scanner, t: Scanner, w: Window, line: Bytes, data: Bytes, decode: Decoder, held: seq<HeldEntry>)
    requires Valid(s, data) && AllIn(s, held)
    requires Scan(s, data) == (t, Some(w)) && Shows(t, w, line) && line != []
    ensures AllIn(t, held)
    ensures ScanLoop(s, data, decode, held) == ScanLoop(t, data, decode, held + [HeldEntry(decode(line).fields, w)])
  {
    WindowsStay(s, t, held);
  }

  /** A `Scan` that yields nothing after `io.EOF` ends the loop without an error. */
  lemma LoopEnds(s: Scanner, t: Scanner, data: Bytes, decode: Decoder, held: seq<HeldEntry>)
    requires Valid(s, data) && AllIn(s, held)
    requires Scan(s, data) == (t, None) && t.err == EOF
    ensures ScanLoop(s, data, decode, held) == Ok((t, held))
  {
  }

  /** The copying parse of two good lines keeps both. */
  lemma ParseOfTwoLines(a: Bytes, b: Bytes, decode: Decoder)
    requires GoodLine(a) && GoodLine(b)
    ensures Parse(a + [NL] + b, decode)
            == Ok(Transcript([TranscriptEntry(decode(a).fields, a), TranscriptEntry(decode(b).fields, b)]))
  {
    var t := Transcript([TranscriptEntry(decode(a).fields, a), TranscriptEntry(decode(b).fields, b)]);
    assert Raws(t.entries) == [a, b];
    assert Join([a, b], NL) == a + [NL] + Join([b], NL);
    ParseSerialize(t, decode);
  }

  /** The first `Scan`: one `Read` of 64 KiB, then the first line. */
  lemma FirstScanOfTwoLines(s0: Scanner, a: Bytes, b: Bytes) returns (s2: Scanner)
    requires Initial(s0)
    requires |a| == 40000 && |b| == 40000
    requires NL !in a && NL !in b && a[|a| - 1] != CR
    ensures s2 == Scanner([(a + [NL] + b)[..InitialBufferSize]], 40001, 65536, 65536, NoErr)
    ensures Valid(s2, a + [NL] + b) && Shows(s2, Window(0, 0, 40000), a)
    ensures Valid(s0, a + [NL] + b)
    ensures Scan(s0, a + [NL] + b) == (s2, Some(Window(0, 0, 40000)))
  {
    var data := a + [NL] + b;
    assert Valid(s0, data) && Pending(s0) == [];
    RoundReads(s0, data);
    var cur := data[..InitialBufferSize];
    var s1 := Scanner([cur], 0, 65536, 65536, NoErr);
    assert Read(s0, data) == s1 by {
      assert Current(s0)[..0] + data[0..65536] + Current(s0)[65536..] == cur;
    }
    assert Pending(s1) == cur && cur[40000] == NL && cur[..40000] == a;
    RoundAtNewline(s1, data, 40000);
    s2 := s1.(start := 40001);
    assert Scan(s0, data) == Scan(s1, data);
  }

  /** The second `Scan`: the rest of the second line is moved to the front
      of the array, the file's last bytes are read behind it, `io.EOF`
      follows, and the whole second line is the token, at offset 0. */
  lemma SecondScanOfTwoLines(a: Bytes, b: Bytes, s2: Scanner) returns (s6: Scanner)
    requires |a| == 40000 && |b| == 40000
    requires NL !in a && NL !in b && b[|b| - 1] != CR
    requires s2 == Scanner([(a + [NL] + b)[..InitialBufferSize]], 40001, 65536, 65536, NoErr)
    ensures Valid(s6, a + [NL] + b) && |s6.arrays| == 1 && |s6.arrays[0]| == 65536
    ensures Shows(s6, Window(0, 0, 40000), b)
    ensures s6.start == s6.end == 40000 && s6.err == EOF
    ensures Scan(s2, a + [NL] + b) == (s6, Some(Window(0, 0, 40000)))
  {
    var data := a + [NL] + b;
    assert Pending(s2) == b[..25535];
    RoundShiftsAndReads(s2, data);
    var s3 := Shift(s2);
    var s4 := Read(s3, data);
    assert s4.start == 0 && s4.end == 40000 && s4.pos == 80001 && s4.err == NoErr;
    assert Pending(s4) == b by {
      assert Current(s4)[..25535] == Current(s3)[..25535] == b[..25535];
      assert Current(s4)[25535..40000] == data[65536..80001] == b[25535..];
      assert b == b[..25535] + b[25535..];
    }
    RoundReads(s4, data);
    var s5 := s4.(err := EOF);
    RoundLastLine(s5, data);
    s6 := s5.(start := 40000);
    assert Scan(s2, data) == Scan(s4, data) == Scan(s5, data);
  }

  /** The third `Scan` finds nothing more and ends without an error. */
  lemma LastScanOfTwoLines(a: Bytes, b: Bytes, s6: Scanner) returns (s7: Scanner)
    requires Valid(s6, a + [NL] + b) && s6.start == s6.end && s6.err == EOF
    ensures s7 == s6.(start := 0, end := 0) && s7.arrays == s6.arrays
    ensures Scan(s6, a + [NL] + b) == (s7, None)
  {
    s7 := s6.(start := 0, end := 0);
    RoundStops(s6, a + [NL] + b);
  }
}
