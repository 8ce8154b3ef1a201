/** Go's `bufio.Scanner` with the `bufio.ScanLines` split function, set up
    as `ParseTranscript` sets it up (a 64 KiB initial buffer, a 10 MiB
    limit) and reading a regular file, whose `Read` fills as much of the
    buffer as the rest of the file allows and reports `io.EOF` once the
    file is exhausted.

    The scanner owns byte arrays: it refills the current one in place,
    shifts unconsumed bytes to its front, and allocates a larger one when a
    line does not fit. `scanner.Bytes()` is a window on the current array,
    not a copy. The arrays are modelled by their contents, numbered in the
    order they were allocated, so a window taken earlier sees every later
    write to its array. */
module BufScanner {
  import opened Common

  const NL: byte := 10
  const CR: byte := 13

  /** The capacity of `make([]byte, 0, 64*1024)`, the first buffer. */
  const InitialBufferSize: nat := 64 * 1024

  /** The limit given to `scanner.Buffer`: no buffer grows beyond it. */
  const MaxScanTokenSize: nat := 10 * 1024 * 1024

  /** The token `ScanLines` returns for a piece: one trailing `\r` removed. */
  function DropCR(seg: Bytes): (line: Bytes)
    ensures line == seg || (seg == line + [CR])
    ensures line == seg[..|line|]
  {
    if |seg| > 0 && seg[|seg| - 1] == CR then seg[..|seg| - 1] else seg
  }

  /** `s.err`: nil, `io.EOF` or `bufio.ErrTooLong`. */
  datatype ScanErr = NoErr | EOF | TooLong

  /** `buf[lo:hi]` of the array numbered `buffer`. */
  datatype Window = Window(buffer: nat, lo: nat, hi: nat)

  /** The scanner: the contents of every array it allocated (the last is
      `s.buf`), the unconsumed bytes `buf[start:end]`, how much of the file
      has been read, and the sticky error. */
  datatype Scanner = Scanner(arrays: seq<Bytes>, start: nat, end: nat, pos: nat, err: ScanErr)

  /** What `ScanLines` answers for the unconsumed bytes: how far to advance,
      and the length of the token at their front when there is one. */
  datatype Split = Split(advance: nat, token: Option<nat>)

  /** The outcome of one round of `Scan`'s loop: a token, the end of
      scanning, or another round after reading. */
  datatype Round = Token(s: Scanner, w: Window) | Stop(s: Scanner) | Again(s: Scanner)

  function Current(s: Scanner): Bytes
    requires s.arrays != []
  {
    s.arrays[|s.arrays| - 1]
  }

  /** Bytes of the file taken up by tokens (or dropped) so far. */
  function Consumed(s: Scanner): int {
    s.pos - (s.end - s.start)
  }

  /** The offsets lie within the current array and the file. */
  predicate Valid(s: Scanner, data: Bytes) {
    && s.arrays != []
    && 0 < |Current(s)| <= MaxScanTokenSize
    && s.start <= s.end <= |Current(s)|
    && s.pos <= |data|
    && s.end - s.start <= s.pos
  }

  /** The scanner agrees with the file: the unconsumed bytes are the file's
      bytes between what tokens have taken up and what has been read, and
      `io.EOF` is recorded only once the whole file is read, with room left
      in the array. */
  predicate Tracks(s: Scanner, data: Bytes) {
    && Valid(s, data)
    && Pending(s) == data[Consumed(s)..s.pos]
    && (s.err == EOF ==> s.pos == |data| && s.end < |Current(s)|)
  }

  /** The part of the file that no token has taken up yet. */
  function Rest(s: Scanner, data: Bytes): Bytes
    requires 0 <= Consumed(s) <= |data|
  {
    data[Consumed(s)..]
  }

  /** The next line of `rest`: its bytes before the first newline, or all
      of them when there is no newline. */
  function LineOf(rest: Bytes): Bytes {
    rest[..IndexOf(rest, NL)]
  }

  /** What follows the next line of `rest` and its newline. */
  function AfterLine(rest: Bytes): Bytes {
    var i := IndexOf(rest, NL);
    if i < |rest| then rest[i + 1..] else []
  }

  predicate WindowIn(s: Scanner, w: Window) {
    w.buffer < |s.arrays| && w.lo <= w.hi <= |s.arrays[w.buffer]|
  }

  /** What a window shows in a given state. */
  function View(s: Scanner, w: Window): Bytes
    requires WindowIn(s, w)
  {
    s.arrays[w.buffer][w.lo..w.hi]
  }

  /** `t` is a later state of `s`: no array is freed or resized, and only
      the current array of `s` may have been written. */
  predicate Extends(s: Scanner, t: Scanner) {
    && |s.arrays| <= |t.arrays|
    && (forall i :: 0 <= i < |s.arrays| ==> |t.arrays[i]| == |s.arrays[i]|)
    && (forall i :: 0 <= i < |s.arrays| - 1 ==> t.arrays[i] == s.arrays[i])
  }

  /** A scanner that has read nothing yet, over one array of 64 KiB;
      what that array holds is never looked at. */
  predicate Initial(s: Scanner) {
    && |s.arrays| == 1 && |Current(s)| == InitialBufferSize
    && s.start == s.end == s.pos == 0 && s.err == NoErr
  }

  /** The scanner right after `scanner.Buffer(make([]byte, 0, 64*1024), ...)`. */
  function NewScanner(): (s: Scanner)
    ensures Initial(s)
  {
    Scanner([seq(InitialBufferSize, _ => 0)], 0, 0, 0, NoErr)
  }

  /** `bufio.ScanLines`: up to and including the first newline, the token
      being the bytes before it without one final `\r`; at the end of input
      the rest, or nothing when there is no rest; otherwise ask for more. */
  function ScanLines(chunk: Bytes, atEOF: bool): (r: Split)
    ensures r.advance <= |chunk|
    ensures r.token.Some? ==> 0 < r.advance && r.token.value <= r.advance
    ensures r.token.None? ==> r.advance == 0
    ensures r.token.Some? <==> IndexOf(chunk, NL) < |chunk| || (atEOF && chunk != [])
  {
    if atEOF && |chunk| == 0 then Split(0, None)
    else
      var i := IndexOf(chunk, NL);
      if i < |chunk| then Split(i + 1, Some(|DropCR(chunk[..i])|))
      else if atEOF then Split(|chunk|, Some(|DropCR(chunk)|))
      else Split(0, None)
  }

  /** `copy(s.buf, s.buf[s.start:s.end])`: the unconsumed bytes move to the
      front of the same array; what lay behind them stays. */
  function Shift(s: Scanner): (t: Scanner)
    requires s.arrays != [] && s.start <= s.end <= |Current(s)|
    ensures |t.arrays| == |s.arrays| && |Current(t)| == |Current(s)|
    ensures t.arrays[..|t.arrays| - 1] == s.arrays[..|s.arrays| - 1]
    ensures t.start == 0 && t.end == s.end - s.start && t.pos == s.pos && t.err == s.err
    ensures Current(t)[..t.end] == Current(s)[s.start..s.end]
    ensures Current(t)[t.end..] == Current(s)[t.end..]
    ensures Extends(s, t) && Consumed(t) == Consumed(s)
  {
    var cur := Current(s);
    var moved := cur[s.start..s.end] + cur[s.end - s.start..];
    s.(arrays := s.arrays[|s.arrays| - 1 := moved], start := 0, end := s.end - s.start)
  }

  /** A new array of twice the size, capped at the limit, holding the
      unconsumed bytes at its front. */
  function Grow(s: Scanner): (t: Scanner)
    requires s.arrays != [] && s.start <= s.end <= |Current(s)| && 0 < |Current(s)| < MaxScanTokenSize
    ensures |t.arrays| == |s.arrays| + 1 && t.arrays[..|s.arrays|] == s.arrays
    ensures t.start == 0 && t.end == s.end - s.start && t.pos == s.pos && t.err == s.err
    ensures |Current(s)| < |Current(t)| <= MaxScanTokenSize
    ensures Current(t)[..t.end] == Current(s)[s.start..s.end]
    ensures Extends(s, t) && Consumed(t) == Consumed(s)
  {
    var cur := Current(s);
    var size := if 2 * |cur| < MaxScanTokenSize then 2 * |cur| else MaxScanTokenSize;
    var grown := cur[s.start..s.end] + seq(size - (s.end - s.start), _ => 0);
    s.(arrays := s.arrays + [grown], start := 0, end := s.end - s.start)
  }

  /** One `f.Read(s.buf[s.end:])` of a regular file: as many bytes as fit
      and remain, or `io.EOF` when none remain. */
  function Read(s: Scanner, data: Bytes): (t: Scanner)
    requires s.arrays != [] && s.start <= s.end < |Current(s)| && s.pos <= |data|
    ensures |t.arrays| == |s.arrays| && |Current(t)| == |Current(s)|
    ensures t.arrays[..|t.arrays| - 1] == s.arrays[..|s.arrays| - 1]
    ensures s.end <= t.end <= |Current(t)| && s.pos <= t.pos <= |data|
    ensures s.pos == |data| ==> t == s.(err := EOF)
    ensures s.pos < |data| ==> t.pos > s.pos && t.err == s.err
    ensures t.pos - t.end == s.pos - s.end && t.start == s.start
    ensures Current(t)[..s.end] == Current(s)[..s.end]
    ensures Current(t)[s.end..t.end] == data[s.pos..t.pos]
    ensures Current(t)[t.end..] == Current(s)[t.end..]
    ensures Extends(s, t) && Consumed(t) == Consumed(s)
  {
    if s.pos == |data| then s.(err := EOF)
    else
      var cur := Current(s);
      var room := |cur| - s.end;
      var n := if room < |data| - s.pos then room else |data| - s.pos;
      var filled := cur[..s.end] + data[s.pos..s.pos + n] + cur[s.end + n..];
      s.(arrays := s.arrays[|s.arrays| - 1 := filled], end := s.end + n, pos := s.pos + n)
  }

  /** Shift when the array is full or mostly consumed, then grow when it is
      still full (or give up at the limit), then read. */
  function Refill(s: Scanner, data: Bytes): (r: Round)
    requires Valid(s, data) && s.err == NoErr
    ensures r.Stop? || r.Again?
    ensures Valid(r.s, data) && Extends(s, r.s) && Consumed(r.s) == Consumed(s)
    ensures r.Again? ==> r.s.pos > s.pos || (r.s.pos == s.pos && r.s.err != NoErr)
  {
    var cur := Current(s);
    var s1 := if s.start > 0 && (s.end == |cur| || s.start > |cur| / 2) then Shift(s) else s;
    if s1.end == |Current(s1)| then
      if |Current(s1)| >= MaxScanTokenSize then Stop(s1.(err := TooLong))
      else
        var s2 := Grow(s1);
        var s3 := Read(s2, data);
        ExtendsTrans(s, s1, s2);
        ExtendsTrans(s, s2, s3);
        Again(s3)
    else
      var s3 := Read(s1, data);
      ExtendsTrans(s, s1, s3);
      Again(s3)
  }

  /** One round of `Scan`'s loop: split what is buffered (at the end of
      input once an error is recorded); a token ends the call, an error
      with no token resets the buffer and ends it; otherwise refill. */
  function Round1(s: Scanner, data: Bytes): (r: Round)
    requires Valid(s, data)
    ensures Valid(r.s, data) && Extends(s, r.s) && Consumed(r.s) >= Consumed(s)
    ensures r.Token? ==> Consumed(r.s) > Consumed(s) && WindowIn(r.s, r.w)
    ensures r.Again? ==> s.err == NoErr && (r.s.pos > s.pos || (r.s.pos == s.pos && r.s.err != NoErr))
  {
    var cur := Current(s);
    var split := if s.end > s.start || s.err != NoErr then ScanLines(cur[s.start..s.end], s.err != NoErr)
                 else Split(0, None);
    var s1 := s.(start := s.start + split.advance);
    if split.token.Some? then Token(s1, Window(|s.arrays| - 1, s.start, s.start + split.token.value))
    else if s.err != NoErr then Stop(s.(start := 0, end := 0))
    else Refill(s, data)
  }

  /** `scanner.Scan()`: rounds until a token or the end; the token is a
      window on the array current when it was cut. */
  function Scan(s: Scanner, data: Bytes): (r: (Scanner, Option<Window>))
    requires Valid(s, data)
    ensures Valid(r.0, data) && Extends(s, r.0) && Consumed(r.0) >= Consumed(s)
    ensures r.1.Some? ==> Consumed(r.0) > Consumed(s) && WindowIn(r.0, r.1.value)
    decreases |data| - s.pos, if s.err == NoErr then 1 else 0
  {
    match Round1(s, data)
    case Token(t, w) => (t, Some(w))
    case Stop(t) => (t, None)
    case Again(t) => ExtendsTrans(s, t, Scan(t, data).0); Scan(t, data)
  }

  lemma ExtendsTrans(s: Scanner, t: Scanner, u: Scanner)
    requires Extends(s, t) && Extends(t, u)
    ensures Extends(s, u)
  {
  }

  // ---------------------------------------------------------------------
  // Single rounds, for following one run of the scanner

  /** The unconsumed bytes. */
  function Pending(s: Scanner): Bytes
    requires s.arrays != [] && s.start <= s.end <= |Current(s)|
  {
    Current(s)[s.start..s.end]
  }

  /** A newline among the unconsumed bytes: the line before it is the token. */
  lemma RoundAtNewline(s: Scanner, data: Bytes, i: nat)
    requires Valid(s, data)
    requires i < |Pending(s)| && Pending(s)[i] == NL
    requires forall j :: 0 <= j < i ==> Pending(s)[j] != NL
    ensures Round1(s, data)
            == Token(s.(start := s.start + i + 1), Window(|s.arrays| - 1, s.start, s.start + |DropCR(Pending(s)[..i])|))
  {
    IndexOfAt(Pending(s), NL, i);
  }

  /** No newline, the file not yet exhausted, and the front of the array
      free or the array full: the unconsumed bytes move to the front, then a read. */
  lemma RoundShiftsAndReads(s: Scanner, data: Bytes)
    requires Valid(s, data) && s.err == NoErr && s.start < s.end
    requires NL !in Pending(s)
    requires s.start > 0 && (s.end == |Current(s)| || s.start > |Current(s)| / 2)
    ensures Round1(s, data) == Again(Read(Shift(s), data))
  {
    IndexOfAt(Pending(s), NL, |Pending(s)|);
  }

  /** No newline, the file not yet exhausted, no shift and room behind the
      unconsumed bytes: just a read. */
  lemma RoundReads(s: Scanner, data: Bytes)
    requires Valid(s, data) && s.err == NoErr && s.end < |Current(s)|
    requires NL !in Pending(s)
    requires !(s.start > 0 && (s.end == |Current(s)| || s.start > |Current(s)| / 2))
    ensures Round1(s, data) == Again(Read(s, data))
  {
    IndexOfAt(Pending(s), NL, |Pending(s)|);
  }

  /** After `io.EOF`, unconsumed bytes without a newline are the last token. */
  lemma RoundLastLine(s: Scanner, data: Bytes)
    requires Valid(s, data) && s.err == EOF && s.start < s.end
    requires NL !in Pending(s)
    ensures Round1(s, data)
            == Token(s.(start := s.end), Window(|s.arrays| - 1, s.start, s.start + |DropCR(Pending(s))|))
  {
    IndexOfAt(Pending(s), NL, |Pending(s)|);
  }

  /** After `io.EOF` with nothing left, scanning stops. */
  lemma RoundStops(s: Scanner, data: Bytes)
    requires Valid(s, data) && s.err == EOF && s.start == s.end
    ensures Round1(s, data) == Stop(s.(start := 0, end := 0))
  {
  }

  // ---------------------------------------------------------------------
  // What a `Scan` yields: the next line of the file

  /** One `Scan` from a scanner that agrees with the file yields the next
      line of the rest of the file, without its newline and one final
      `\r`, and consumes the line and its newline; with nothing left it
      yields no token and `io.EOF`; when the next line does not fit the
      10 MiB limit it yields no token and `ErrTooLong`. */
  lemma {:induction false} ScanYieldsNextLine(s: Scanner, data: Bytes)
    requires Tracks(s, data) && s.err != TooLong
    ensures var r := Scan(s, data); var rest := Rest(s, data);
      && Tracks(r.0, data)
      && (r.1.Some? ==>
            && rest != [] && |LineOf(rest)| < MaxScanTokenSize
            && View(r.0, r.1.value) == DropCR(LineOf(rest)) && Rest(r.0, data) == AfterLine(rest)
            && r.0.err != TooLong)
      && (r.1.None? ==>
            if rest == [] then r.0.err == EOF
            else |LineOf(rest)| >= MaxScanTokenSize && r.0.err == TooLong)
    decreases |data| - s.pos, if s.err == NoErr then 1 else 0
  {
    RoundFollowsFile(s, data);
    match Round1(s, data)
    case Token(_, _) =>
    case Stop(_) =>
    case Again(t) => ScanYieldsNextLine(t, data);
  }

  /** What one round promises, as `ScanYieldsNextLine` states it for a
      whole `Scan`; a round that refills leaves the rest of the file as it was. */
  predicate RoundFollows(s: Scanner, data: Bytes, r: Round)
    requires Valid(s, data)
  {
    var rest := Rest(s, data);
    && Tracks(r.s, data)
    && (r.Token? ==>
          && WindowIn(r.s, r.w) && rest != [] && |LineOf(rest)| < MaxScanTokenSize
          && View(r.s, r.w) == DropCR(LineOf(rest)) && Rest(r.s, data) == AfterLine(rest)
          && r.s.err == s.err)
    && (r.Stop? ==>
          if rest == [] then r.s.err == EOF
          else |LineOf(rest)| >= MaxScanTokenSize && r.s.err == TooLong)
    && (r.Again? ==> Consumed(r.s) == Consumed(s) && r.s.err != TooLong)
  }

  lemma RoundFollowsFile(s: Scanner, data: Bytes)
    requires Tracks(s, data) && s.err != TooLong
    ensures RoundFollows(s, data, Round1(s, data))
  {
    var p := Pending(s);
    if IndexOf(p, NL) < |p| || (s.err != NoErr && p != []) {
      RoundCuts(s, data);
    } else if s.err != NoErr {
      RoundEnds(s, data);
    } else {
      RoundRefills(s, data);
    }
  }

  /** A round after `io.EOF` with nothing left to split ends the scan. */
  lemma RoundEnds(s: Scanner, data: Bytes)
    requires Tracks(s, data) && s.err != NoErr && s.err != TooLong && Pending(s) == []
    ensures RoundFollows(s, data, Round1(s, data))
  {
    assert Round1(s, data) == Stop(s.(start := 0, end := 0));
    ConsumeTracks(s, data, 0);
  }

  /** A round with no newline buffered and no error refills. */
  lemma RoundRefills(s: Scanner, data: Bytes)
    requires Tracks(s, data) && s.err == NoErr && IndexOf(Pending(s), NL) == |Pending(s)|
    ensures RoundFollows(s, data, Round1(s, data))
  {
    assert Round1(s, data) == Refill(s, data);
    NoLineBuffered(s, data);
    RefillTracks(s, data);
  }

  /** How far a token cut from `p` advances: past the first newline, or
      over all of `p` when it has none. */
  function Advance(p: Bytes): nat {
    var i := IndexOf(p, NL);
    if i < |p| then i + 1 else |p|
  }

  /** A round that finds a token cuts the next line at the front of the
      unconsumed bytes, in the current array. */
  lemma RoundCuts(s: Scanner, data: Bytes)
    requires Tracks(s, data) && s.err != TooLong
    requires IndexOf(Pending(s), NL) < |Pending(s)| || (s.err != NoErr && Pending(s) != [])
    ensures RoundFollows(s, data, Round1(s, data))
  {
    RoundCutShape(s, data);
    CutFollows(s, data);
  }

  /** The token `RoundCutShape` names is the next line of the file. */
  lemma CutFollows(s: Scanner, data: Bytes)
    requires Tracks(s, data) && s.err != TooLong
    requires IndexOf(Pending(s), NL) < |Pending(s)| || (s.err != NoErr && Pending(s) != [])
    ensures var p := Pending(s); var i := IndexOf(p, NL);
      RoundFollows(s, data,
        Token(s.(start := s.start + Advance(p)), Window(|s.arrays| - 1, s.start, s.start + |DropCR(p[..i])|)))
  {
    var p, i := Pending(s), IndexOf(Pending(s), NL);
    CutWindow(s, p[..i]);
    CutIsNextLine(s, data);
    ConsumeTracks(s, data, Advance(p));
  }

  /** The round that cuts: the token is the line before the first newline
      (or all of the unconsumed bytes at the end), and it consumes `Advance`. */
  lemma RoundCutShape(s: Scanner, data: Bytes)
    requires Valid(s, data)
    requires IndexOf(Pending(s), NL) < |Pending(s)| || (s.err != NoErr && Pending(s) != [])
    ensures var p := Pending(s); var i := IndexOf(p, NL);
      Round1(s, data)
      == Token(s.(start := s.start + Advance(p)), Window(|s.arrays| - 1, s.start, s.start + |DropCR(p[..i])|))
  {
    var p := Pending(s);
    assert p[..IndexOf(p, NL)] == p || IndexOf(p, NL) < |p|;
  }

  /** The token is a prefix of the unconsumed bytes, so its window shows it. */
  lemma CutWindow(s: Scanner, seg: Bytes)
    requires s.arrays != [] && s.start <= s.end <= |Current(s)|
    requires |seg| <= s.end - s.start && seg == Pending(s)[..|seg|]
    ensures WindowIn(s, Window(|s.arrays| - 1, s.start, s.start + |DropCR(seg)|))
    ensures View(s, Window(|s.arrays| - 1, s.start, s.start + |DropCR(seg)|)) == DropCR(seg)
  {
    var line := DropCR(seg);
    assert |line| <= |seg| && line == seg[..|line|];
    forall k | 0 <= k < |line|
      ensures Current(s)[s.start..s.start + |line|][k] == line[k]
    {
      assert line[k] == seg[k] == Pending(s)[k];
    }
  }

  /** A token cut from the unconsumed bytes is the next line of the rest of
      the file. */
  lemma CutIsNextLine(s: Scanner, data: Bytes)
    requires Tracks(s, data) && s.err != TooLong
    requires IndexOf(Pending(s), NL) < |Pending(s)| || (s.err != NoErr && Pending(s) != [])
    ensures var p := Pending(s); var rest := Rest(s, data);
      && rest != [] && LineOf(rest) == p[..IndexOf(p, NL)] && |LineOf(rest)| < MaxScanTokenSize
      && AfterLine(rest) == data[Consumed(s) + Advance(p)..]
  {
    var p, rest, i := Pending(s), Rest(s, data), IndexOf(Pending(s), NL);
    assert p == rest[..|p|];
    if i < |p| {
      IndexOfAt(rest, NL, i);
    } else {
      assert rest == p;
    }
  }

  /** Unconsumed bytes without a newline begin the next line of the rest of
      the file. */
  lemma NoLineBuffered(s: Scanner, data: Bytes)
    requires Tracks(s, data)
    requires IndexOf(Pending(s), NL) == |Pending(s)|
    ensures Pending(s) != [] ==> Rest(s, data) != []
    ensures |LineOf(Rest(s, data))| >= |Pending(s)|
  {
    var p, rest := Pending(s), Rest(s, data);
    assert p == rest[..|p|];
  }

  /** Taking `n` unconsumed bytes, or dropping all of them once the file
      is read, keeps the scanner agreeing with the file. */
  lemma ConsumeTracks(s: Scanner, data: Bytes, n: nat)
    requires Tracks(s, data) && n <= s.end - s.start
    ensures Tracks(s.(start := s.start + n), data)
    ensures s.err != NoErr && s.err != TooLong ==> Tracks(s.(start := 0, end := 0), data)
  {
    assert Pending(s.(start := s.start + n)) == Pending(s)[n..];
  }

  /** A refill keeps the scanner agreeing with the file, and gives up only
      when the unconsumed bytes fill an array at the limit. */
  lemma RefillTracks(s: Scanner, data: Bytes)
    requires Tracks(s, data) && s.err == NoErr
    ensures var r := Refill(s, data);
      && Tracks(r.s, data)
      && (r.Stop? ==> r.s.err == TooLong && |Pending(s)| >= MaxScanTokenSize)
      && (r.Again? ==> r.s.err != TooLong)
  {
    var cur := Current(s);
    var s1 := if s.start > 0 && (s.end == |cur| || s.start > |cur| / 2) then Shift(s) else s;
    assert Pending(s1) == Pending(s);
    if s1.end == |Current(s1)| {
      if |Current(s1)| < MaxScanTokenSize {
        var s2 := Grow(s1);
        assert Pending(s2) == Pending(s1);
        ReadTracks(s2, data);
      } else {
        assert s1.start == 0;
      }
    } else {
      ReadTracks(s1, data);
    }
  }

  /** A read appends the file's next bytes to the unconsumed ones. */
  lemma ReadTracks(s: Scanner, data: Bytes)
    requires Tracks(s, data) && s.err == NoErr && s.end < |Current(s)|
    ensures Tracks(Read(s, data), data)
  {
    var t := Read(s, data);
    assert Pending(t) == Current(t)[s.start..s.end] + Current(t)[s.end..t.end];
    assert data[Consumed(s)..s.pos] + data[s.pos..t.pos] == data[Consumed(t)..t.pos];
  }
}
