/** The parts of Go's `strings` package that the core relies on, over
    `string` (a sequence of Unicode scalar values): `TrimSpace`, `Split`
    on a newline, `Fields`, and the first-separator cut that
    `SplitN(s, ": ", 2)` performs. Space is `unicode.IsSpace`. */
module GoStrings {
  import opened Common

  /** `unicode.IsSpace`: the Latin-1 spaces plus the other characters with
      the Unicode White_Space property. */
  predicate IsSpace(c: char) {
    c == '\t' || c == '\n' || c == '\U{000B}' || c == '\U{000C}' || c == '\r' || c == ' '
    || c == '\U{0085}' || c == '\U{00A0}' || c == '\U{1680}'
    || ('\U{2000}' <= c <= '\U{200A}')
    || c == '\U{2028}' || c == '\U{2029}' || c == '\U{202F}' || c == '\U{205F}' || c == '\U{3000}'
  }

  /** The number of bytes of the UTF-8 encoding of one character. */
  function Utf8Width(c: char): nat {
    if c < '\U{0080}' then 1
    else if c < '\U{0800}' then 2
    else if c < '\U{10000}' then 3
    else 4
  }

  /** `len(s)` of a Go string: its length in bytes of UTF-8. */
  function ByteLength(s: string): (n: nat)
    ensures |s| <= n <= 4 * |s|
  {
    if s == [] then 0 else Utf8Width(s[0]) + ByteLength(s[1..])
  }

  predicate AllSpace(s: string) {
    forall i :: 0 <= i < |s| ==> IsSpace(s[i])
  }

  /** A non-empty run of non-space characters: what `Fields` yields. */
  predicate IsToken(s: string) {
    s != [] && forall i :: 0 <= i < |s| ==> !IsSpace(s[i])
  }

  /** No leading and no trailing space. */
  predicate IsTrimmed(s: string) {
    s == [] || (!IsSpace(s[0]) && !IsSpace(s[|s| - 1]))
  }

  /** `strings.TrimLeftFunc(s, unicode.IsSpace)`: a suffix of `s` that
      does not start with space; `TrimLeftRemovesSpace` shows that only
      space was cut. */
  function TrimLeft(s: string): (r: string)
    ensures |r| <= |s| && r == s[|s| - |r|..]
    ensures r == [] || !IsSpace(r[0])
  {
    if s != [] && IsSpace(s[0]) then TrimLeft(s[1..]) else s
  }

  lemma {:induction false} TrimLeftRemovesSpace(s: string)
    ensures AllSpace(s[..|s| - |TrimLeft(s)|])
    decreases |s|
  {
    if s != [] && IsSpace(s[0]) {
      var tail := s[1..];
      var r := TrimLeft(tail);
      TrimLeftRemovesSpace(tail);
      assert [s[0]] + tail[..|tail| - |r|] == s[..|s| - |r|];
      AllSpaceCons(s[0], tail[..|tail| - |r|]);
    }
  }

  lemma AllSpaceCons(c: char, a: string)
    requires IsSpace(c) && AllSpace(a)
    ensures AllSpace([c] + a)
  {
  }

  /** Index of the first non-space at or after `i`, or `|s|`. */
  function SkipSpace(s: string, i: nat): (n: nat)
    requires i <= |s|
    ensures i <= n <= |s|
    ensures forall k :: i <= k < n ==> IsSpace(s[k])
    ensures n < |s| ==> !IsSpace(s[n])
    decreases |s| - i
  {
    if i < |s| && IsSpace(s[i]) then SkipSpace(s, i + 1) else i
  }

  /** Index just past the last non-space in `s[lo..j]`, or `lo` when that
      part is all space. */
  function SkipSpaceBack(s: string, lo: nat, j: nat): (m: nat)
    requires lo <= j <= |s|
    ensures lo <= m <= j
    ensures forall k :: m <= k < j ==> IsSpace(s[k])
    ensures m > lo ==> !IsSpace(s[m - 1])
    decreases j
  {
    if j > lo && IsSpace(s[j - 1]) then SkipSpaceBack(s, lo, j - 1) else j
  }

  /** `SkipSpace` stops at the first non-space, wherever that is shown to be. */
  lemma SkipSpaceAt(s: string, i: nat, n: nat)
    requires i <= n <= |s|
    requires forall k :: i <= k < n ==> IsSpace(s[k])
    requires n < |s| ==> !IsSpace(s[n])
    ensures SkipSpace(s, i) == n
  {
  }

  /** `SkipSpaceBack` stops after the last non-space, wherever that is shown to be. */
  lemma SkipSpaceBackAt(s: string, lo: nat, j: nat, m: nat)
    requires lo <= m <= j <= |s|
    requires forall k :: m <= k < j ==> IsSpace(s[k])
    requires m > lo ==> !IsSpace(s[m - 1])
    ensures SkipSpaceBack(s, lo, j) == m
  {
  }

  /** `strings.TrimSpace`: the input with leading and trailing space
      removed. The result is trimmed; `TrimSpaceOfPadded` shows that it is
      what remains of a trimmed string padded with space on both sides, and
      `TrimSpaceRemovesOnlySpace` that every string is such a padding. */
  function TrimSpace(s: string): (r: string)
    ensures IsTrimmed(r)
  {
    var a := SkipSpace(s, 0);
    var b := SkipSpaceBack(s, a, |s|);
    s[a..b]
  }

  /** What `TrimSpace` removes is space, on both sides. */
  lemma TrimSpaceRemovesOnlySpace(s: string)
    ensures exists a, b :: 0 <= a <= b <= |s| && TrimSpace(s) == s[a..b]
                           && AllSpace(s[..a]) && AllSpace(s[b..])
  {
    var a := SkipSpace(s, 0);
    var b := SkipSpaceBack(s, a, |s|);
    assert AllSpace(s[..a]);
    assert AllSpace(s[b..]);
  }

  /** Whatever space pads a trimmed string on either side, `TrimSpace`
      removes exactly that padding. */
  lemma TrimSpaceOfPadded(lead: string, s: string, trail: string)
    requires AllSpace(lead) && IsTrimmed(s) && AllSpace(trail)
    ensures TrimSpace(lead + s + trail) == s
  {
    var x := lead + s + trail;
    var e := |lead| + |s|;
    assert forall k :: 0 <= k < |lead| ==> x[k] == lead[k];
    assert forall k :: |lead| <= k < e ==> x[k] == s[k - |lead|];
    assert forall k :: e <= k < |x| ==> x[k] == trail[k - e];
    if s == [] {
      SkipSpaceAt(x, 0, |x|);
      SkipSpaceBackAt(x, |x|, |x|, |x|);
      assert x[|x|..|x|] == [];
    } else {
      SkipSpaceAt(x, 0, |lead|);
      SkipSpaceBackAt(x, |lead|, |x|, e);
      assert x[|lead|..e] == s;
    }
  }

  /** Space appended to a trimmed string is exactly what `TrimSpace` removes. */
  lemma TrimSpaceDropsTrailingSpace(s: string, ws: string)
    requires IsTrimmed(s) && AllSpace(ws)
    ensures TrimSpace(s + ws) == s
  {
    assert [] + s + ws == s + ws;
    TrimSpaceOfPadded([], s, ws);
  }

  /** `strings.Split(s, "\n")`: the pieces between newlines, always at least one. */
  function SplitLines(s: string): (pieces: seq<string>)
    ensures |pieces| >= 1
    ensures forall k :: 0 <= k < |pieces| ==> '\n' !in pieces[k]
    decreases |s|
  {
    var i := IndexOf(s, '\n');
    if i == |s| then [s]
    else [s[..i]] + SplitLines(s[i + 1..])
  }

  /** `strings.Join(lines, "\n")`. */
  function JoinLines(lines: seq<string>): string
  {
    Join(lines, '\n')
  }

  /** Splitting undoes joining, for lines without newlines. */
  lemma {:induction false} SplitJoinLines(lines: seq<string>)
    requires |lines| >= 1
    requires forall k :: 0 <= k < |lines| ==> '\n' !in lines[k]
    ensures SplitLines(JoinLines(lines)) == lines
    decreases |lines|
  {
    var s := JoinLines(lines);
    if |lines| == 1 {
      assert IndexOf(s, '\n') == |s|;
    } else {
      var head := lines[0];
      assert s == head + "\n" + JoinLines(lines[1..]);
      assert s[|head|] == '\n';
      assert forall j :: 0 <= j < |head| ==> s[j] == head[j];
      assert IndexOf(s, '\n') == |head|;
      assert s[..|head|] == head;
      assert s[|head| + 1..] == JoinLines(lines[1..]);
      SplitJoinLines(lines[1..]);
    }
  }

  /** `strings.Fields`: the maximal runs of non-space characters, in order. */
  function Fields(s: string): (fs: seq<string>)
    ensures forall k :: 0 <= k < |fs| ==> IsToken(fs[k])
    decreases |s|
  {
    var t := TrimLeft(s);
    if t == [] then []
    else
      var k := FirstSpace(t);
      LeadingToken(t);
      var rest := Fields(t[k..]);
      TokensCons(t[..k], rest);
      [t[..k]] + rest
  }

  lemma TokensCons(token: string, rest: seq<string>)
    requires IsToken(token)
    requires forall k :: 0 <= k < |rest| ==> IsToken(rest[k])
    ensures forall k :: 0 <= k < |[token] + rest| ==> IsToken(([token] + rest)[k])
  {
  }

  /** A string that starts with a non-space begins with a token, which runs
      up to its first space. */
  lemma LeadingToken(t: string)
    requires t != [] && !IsSpace(t[0])
    ensures FirstSpace(t) > 0 && IsToken(t[..FirstSpace(t)])
  {
  }

  /** Index of the first space in `s`, or `|s|`. */
  function FirstSpace(s: string): (i: nat)
    ensures i <= |s|
    ensures i < |s| ==> IsSpace(s[i])
    ensures forall j :: 0 <= j < i ==> !IsSpace(s[j])
  {
    if s == [] then 0
    else if IsSpace(s[0]) then 0
    else 1 + FirstSpace(s[1..])
  }

  /** `FirstSpace` stops right after a leading run of non-space characters. */
  lemma {:induction false} FirstSpaceAfterRun(a: string, rest: string)
    requires forall j :: 0 <= j < |a| ==> !IsSpace(a[j])
    requires rest == [] || IsSpace(rest[0])
    ensures FirstSpace(a + rest) == |a|
    decreases |a|
  {
    if a != [] {
      assert (a + rest)[1..] == a[1..] + rest;
      FirstSpaceAfterRun(a[1..], rest);
    } else {
      assert a + rest == rest;
    }
  }

  /** A single token is its own only field. */
  lemma FieldsOfToken(b: string)
    requires IsToken(b)
    ensures Fields(b) == [b]
  {
    assert TrimLeft(b) == b;
    FirstSpaceAfterRun(b, []);
    assert b + [] == b;
    assert b[..|b|] == b && b[|b|..] == [];
    assert TrimLeft([]) == [];
  }

  /** A leading token, ended by a space, is the first field. */
  lemma FieldsAfterToken(a: string, rest: string)
    requires IsToken(a) && rest != [] && IsSpace(rest[0])
    ensures Fields(a + rest) == [a] + Fields(rest)
  {
    var s := a + rest;
    FirstSpaceAfterRun(a, rest);
    assert TrimLeft(s) == s;
    assert s[..|a|] == a && s[|a|..] == rest;
  }

  /** Leading space contributes no field. */
  lemma FieldsSkipSpace(c: char, b: string)
    requires IsSpace(c)
    ensures Fields([c] + b) == Fields(b)
  {
    assert ([c] + b)[1..] == b;
    assert TrimLeft([c] + b) == TrimLeft(b);
  }

  /** A line made of two tokens separated by one space has exactly those
      two fields. */
  lemma FieldsOfPair(a: string, b: string)
    requires IsToken(a) && IsToken(b)
    ensures Fields(a + " " + b) == [a, b]
  {
    assert a + " " + b == a + ([' '] + b);
    FieldsAfterToken(a, [' '] + b);
    FieldsSkipSpace(' ', b);
    FieldsOfToken(b);
  }

  /** Index of the first `": "` in `s`, or `|s|` when there is none. */
  function IndexOfColonSpace(s: string): (i: nat)
    ensures i <= |s|
    ensures i < |s| ==> i + 1 < |s| && s[i] == ':' && s[i + 1] == ' '
    ensures forall j :: 0 <= j < i && j + 1 < |s| ==> !(s[j] == ':' && s[j + 1] == ' ')
  {
    if |s| < 2 then |s|
    else if s[0] == ':' && s[1] == ' ' then 0
    else 1 + IndexOfColonSpace(s[1..])
  }

  /** `strings.SplitN(s, ": ", 2)`: `Some((before, after))` around the first
      `": "`, or `None` when there is no such separator (a single part). */
  function CutColonSpace(s: string): (r: Option<(string, string)>)
    ensures r.Some? ==> s == r.value.0 + ": " + r.value.1
    ensures r.Some? ==> forall j :: 0 <= j < |r.value.0| ==> !(s[j] == ':' && s[j + 1] == ' ')
    ensures r.None? <==> forall j :: 0 <= j < |s| - 1 ==> !(s[j] == ':' && s[j + 1] == ' ')
  {
    var i := IndexOfColonSpace(s);
    if i == |s| then None
    else
      assert s == s[..i] + ": " + s[i + 2..];
      Some((s[..i], s[i + 2..]))
  }
}
