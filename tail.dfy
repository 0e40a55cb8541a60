/** `ReadTail`: the last `n` lines of the log file, for the `log` sub-command. */
module Tail {
  import opened Common
  import opened Strings

  /** What `ReadTail` ends with: the text, the error of `os.Open`, or the
      run-time panic of an out-of-range slice expression. */
  datatype TailResult = Text(text: string) | OpenError | SlicePanic

  /** The last `n` lines, or all of them when there are no more than `n`. */
  function LastLines(lines: seq<string>, n: nat): (t: seq<string>)
    ensures |t| == if |lines| <= n then |lines| else n
    ensures t == lines[|lines| - |t|..]
  {
    if |lines| <= n then lines else lines[|lines| - n..]
  }

  /** `ReadTail(fileName, n)`. `file` is the file's lines as the scanner
      yields them, or `None` when the file cannot be opened. A negative `n`
      makes the final slice start past the end, which panics. */
  method ReadTail(file: Option<seq<string>>, n: int) returns (r: TailResult)
    ensures file.None? ==> r == OpenError
    ensures file.Some? && n < 0 ==> r == SlicePanic
    ensures file.Some? && n >= 0 ==> r == Text(Join(LastLines(file.value, n), "\n"))
  {
    if file.None? {
      return OpenError;
    }
    var tokens := file.value;
    var lines: seq<string> := [];
    var i := 0;
    while i < |tokens|
      invariant 0 <= i <= |tokens|
      invariant lines == tokens[..i]
    {
      lines := lines + [tokens[i]];
      i := i + 1;
    }
    assert lines == tokens;
    if |lines| <= n {
      return Text(Join(lines, "\n"));
    }
    if |lines| - n > |lines| {
      return SlicePanic;
    }
    return Text(Join(lines[|lines| - n..], "\n"));
  }

  /** Asking for fewer lines gives the end of what asking for more gives, and
      taking the tail of a tail changes nothing. */
  lemma LastLinesNested(lines: seq<string>, m: nat, n: nat)
    requires m <= n
    ensures LastLines(LastLines(lines, n), m) == LastLines(lines, m)
    ensures LastLines(LastLines(lines, n), n) == LastLines(lines, n)
  {
  }

  /** The text has no trailing separator and loses nothing: splitting it at
      the line breaks gives back exactly the selected lines, provided there is
      at least one and none contains a line break (which the scanner
      guarantees). */
  lemma TailTextSplitsBack(lines: seq<string>, n: nat)
    requires forall i :: 0 <= i < |lines| ==> '\n' !in lines[i]
    requires |LastLines(lines, n)| >= 1
    ensures Split(Join(LastLines(lines, n), "\n"), '\n') == LastLines(lines, n)
  {
    var t := LastLines(lines, n);
    forall i | 0 <= i < |t| ensures '\n' !in t[i] {
      assert t[i] == lines[|lines| - |t| + i];
    }
    SplitJoin(t, '\n');
  }

  /** No line asked for, or no line in the file: the text is empty. */
  lemma EmptyTail(lines: seq<string>, n: nat)
    requires n == 0 || lines == []
    ensures Join(LastLines(lines, n), "\n") == ""
  {
  }
}
