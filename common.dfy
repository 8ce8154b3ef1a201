/** Values shared by every part of the model: bytes, optional values,
    fallible results and the outcome of running an external command. */
module Common {

  /** A Go `byte`. */
  newtype byte = b: int | 0 <= b < 0x100

  type Bytes = seq<byte>

  datatype Option<+T> = None | Some(value: T)

  datatype Result<+T, +E> = Ok(value: T) | Err(error: E)

  /** What `cmd.Output()` reports for one run of an external program:
      its standard output when it exits with status 0, an `*exec.ExitError`
      carrying a non-zero exit status, or a failure to start it at all. */
  datatype CmdResult = Completed(stdout: string) | ExitError(code: int) | StartFailed

  /** An executor of `git` subcommands: the argument vector after the
      program name, and what running it reports. */
  type Git = seq<string> -> CmdResult

  /** How a command handler ends: it returns a nil error, or it panics. */
  datatype HandlerExit = ReturnedNil | Panicked

  /** Index of the first occurrence of `x` in `s`, or `|s|` when there is none. */
  function IndexOf<T(==)>(s: seq<T>, x: T): (i: nat)
    ensures i <= |s|
    ensures i < |s| ==> s[i] == x
    ensures forall j :: 0 <= j < i ==> s[j] != x
  {
    if s == [] then 0
    else if s[0] == x then 0
    else 1 + IndexOf(s[1..], x)
  }

  /** `IndexOf` is the position of the first occurrence. */
  lemma IndexOfAt<T>(s: seq<T>, x: T, i: nat)
    requires i <= |s| && (i < |s| ==> s[i] == x)
    requires forall j :: 0 <= j < i ==> s[j] != x
    ensures IndexOf(s, x) == i
  {
  }

  /** The parts with one `sep` between neighbours and none at either end. */
  function Join<T>(parts: seq<seq<T>>, sep: T): seq<T>
  {
    if parts == [] then []
    else if |parts| == 1 then parts[0]
    else parts[0] + [sep] + Join(parts[1..], sep)
  }

  /** Concatenation regroups freely; stated once so that loop proofs can name the step. */
  lemma SeqAssoc<T>(a: seq<T>, b: seq<T>, c: seq<T>)
    ensures a + (b + c) == (a + b) + c
  {
  }

  /** Appending a part adds one separator when there was something before it. */
  lemma {:induction false} JoinSnoc<T>(parts: seq<seq<T>>, last: seq<T>, sep: T)
    ensures Join(parts + [last], sep) == if parts == [] then last else Join(parts, sep) + [sep] + last
    decreases |parts|
  {
    if |parts| > 1 {
      assert (parts + [last])[1..] == parts[1..] + [last];
      JoinSnoc(parts[1..], last, sep);
    } else if |parts| == 1 {
      assert (parts + [last])[1..] == [last];
    }
  }
}
