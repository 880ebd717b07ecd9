/** The maximal delimiter-free runs of a text, which strtok_r walks over, and what is left of the text when
    it has (IEEE Std 1003.1-2008, System Interfaces, strtok_r). */
module TokenRuns {
  import opened BoundedStrings

  datatype Run = Run(start: nat, end: nat)

  /** The first position from `from` on that holds no delimiter. */
  function TokenStart(s: seq<char>, from: nat, delim: seq<char>): (i: nat)
    requires from <= |s|
    ensures from <= i <= |s|
    ensures forall k :: from <= k < i ==> s[k] in delim
    ensures i < |s| ==> s[i] !in delim
    decreases |s| - from
  {
    if from < |s| && s[from] in delim then TokenStart(s, from + 1, delim) else from
  }

  /** The first position from `from` on that holds a delimiter. */
  function TokenEnd(s: seq<char>, from: nat, delim: seq<char>): (i: nat)
    requires from <= |s|
    ensures from <= i <= |s|
    ensures forall k :: from <= k < i ==> s[k] !in delim
    ensures i < |s| ==> s[i] in delim
    ensures from < |s| && s[from] !in delim ==> from < i
    decreases |s| - from
  {
    if from < |s| && s[from] !in delim then TokenEnd(s, from + 1, delim) else from
  }

  /** Where the next call goes on: after the delimiter that ended the token, or at the end. */
  function After(s: seq<char>, end: nat): (i: nat)
    requires end <= |s|
    ensures end <= i <= |s|
  {
    if end < |s| then end + 1 else end
  }

  function RunsFrom(s: seq<char>, from: nat, delim: seq<char>): (runs: seq<Run>)
    requires from <= |s|
    ensures forall i :: 0 <= i < |runs| ==> runs[i].start < runs[i].end <= |s|
    decreases |s| - from
  {
    var a := TokenStart(s, from, delim);
    if a == |s| then []
    else
      var b := TokenEnd(s, a, delim);
      [Run(a, b)] + RunsFrom(s, After(s, b), delim)
  }

  function Runs(s: seq<char>, delim: seq<char>): (runs: seq<Run>)
    ensures forall i :: 0 <= i < |runs| ==> runs[i].start < runs[i].end <= |s|
  {
    RunsFrom(s, 0, delim)
  }

  /** Not empty, free of delimiters, and not extensible on either side. */
  predicate Maximal(s: seq<char>, delim: seq<char>, r: Run) {
    && r.start < r.end <= |s|
    && (forall k :: r.start <= k < r.end ==> s[k] !in delim)
    && (r.start == 0 || s[r.start - 1] in delim)
    && (r.end == |s| || s[r.end] in delim)
  }

  /** Where a search may start: at a boundary between runs. */
  predicate Boundary(s: seq<char>, from: nat, delim: seq<char>) {
    from <= |s| && (from == 0 || from == |s| || s[from - 1] in delim)
  }

  lemma {:induction false} RunsFromExact(s: seq<char>, from: nat, delim: seq<char>, r: Run)
    requires Boundary(s, from, delim)
    ensures r in RunsFrom(s, from, delim) <==> Maximal(s, delim, r) && from <= r.start
    decreases |s| - from
  {
    var a := TokenStart(s, from, delim);
    if a < |s| {
      var b := TokenEnd(s, a, delim);
      RunsFromExact(s, After(s, b), delim, r);
      assert Maximal(s, delim, Run(a, b));
    }
    if Maximal(s, delim, r) && from <= r.start {
      FirstRun(s, from, delim, r);
    }
  }

  /** A maximal run at or after `from` is the first one found there or lies after it. */
  lemma FirstRun(s: seq<char>, from: nat, delim: seq<char>, r: Run)
    requires from <= |s| && Maximal(s, delim, r) && from <= r.start
    ensures var a := TokenStart(s, from, delim);
      a < |s| && var b := TokenEnd(s, a, delim);
      r == Run(a, b) || After(s, b) <= r.start
  {
    var a := TokenStart(s, from, delim);
    assert s[r.start] !in delim;
    assert a <= r.start;
    var b := TokenEnd(s, a, delim);
    assert a < r.start ==> s[r.start - 1] in delim;
    assert r.start <= b ==> r.start == a || r.start == b;
    assert r.start == a ==> r.end == b;
  }

  /** The runs are exactly the maximal ones, */
  lemma RunsExact(s: seq<char>, delim: seq<char>, r: Run)
    ensures r in Runs(s, delim) <==> Maximal(s, delim, r)
  {
    RunsFromExact(s, 0, delim, r);
  }

  /** each once and in the order of the text. */
  lemma {:induction false} RunsInOrder(s: seq<char>, from: nat, delim: seq<char>, i: nat, j: nat)
    requires Boundary(s, from, delim)
    requires i < j < |RunsFrom(s, from, delim)|
    ensures RunsFrom(s, from, delim)[i].end < RunsFrom(s, from, delim)[j].start
    decreases |s| - from
  {
    var a := TokenStart(s, from, delim);
    var b := TokenEnd(s, a, delim);
    var next := After(s, b);
    var rest := RunsFrom(s, next, delim);
    if i == 0 {
      RunsFromExact(s, next, delim, rest[j - 1]);
    } else {
      RunsInOrder(s, next, delim, i - 1, j - 1);
    }
  }

  // ----- the buffer afterwards -----

  /** The buffer with a NUL at the end of each run. */
  function Cut(buffer: seq<char>, runs: seq<Run>): (r: seq<char>)
    requires forall i :: 0 <= i < |runs| ==> runs[i].end < |buffer|
    ensures |r| == |buffer|
  {
    if runs == [] then buffer
    else Cut(buffer, runs[..|runs| - 1])[runs[|runs| - 1].end := NUL]
  }

  lemma {:induction false} CutAt(buffer: seq<char>, runs: seq<Run>, k: nat)
    requires forall i :: 0 <= i < |runs| ==> runs[i].end < |buffer|
    requires k < |buffer|
    ensures Cut(buffer, runs)[k] == if exists i :: 0 <= i < |runs| && runs[i].end == k then NUL else buffer[k]
  {
    if runs != [] {
      var n := |runs| - 1;
      CutAt(buffer, runs[..n], k);
      assert forall i :: 0 <= i < n ==> runs[..n][i] == runs[i];
    }
  }

  /** Read as a C string, each recorded token is its run of the original text. */
  lemma TokenReadsAsRun(buffer: seq<char>, delim: seq<char>, i: nat)
    requires NUL in buffer
    requires var s := Str(buffer); i < |Runs(s, delim)|
    ensures var s := Str(buffer);
      var runs := Runs(s, delim);
      Str(Cut(buffer, runs)[runs[i].start..]) == s[runs[i].start..runs[i].end]
  {
    hide Cut, Runs, Str;
    var s := Str(buffer);
    var runs := Runs(s, delim);
    var r := runs[i];
    RunsExact(s, delim, r);
    var after := Cut(buffer, runs);
    forall k | r.start <= k < r.end ensures after[k] == s[k] {
      CutAt(buffer, runs, k);
      forall j | 0 <= j < |runs| ensures runs[j].end != k {
        RunsExact(s, delim, runs[j]);
      }
    }
    CutAt(buffer, runs, r.end);
    var view := after[r.start..];
    assert forall k :: 0 <= k < r.end - r.start ==> view[k] == s[r.start + k];
    StrIs(view, r.end - r.start);
    assert view[..r.end - r.start] == s[r.start..r.end];
  }

  function Starts(runs: seq<Run>): (r: seq<nat>)
    ensures |r| == |runs|
    ensures forall i :: 0 <= i < |runs| ==> r[i] == runs[i].start
  {
    if runs == [] then [] else Starts(runs[..|runs| - 1]) + [runs[|runs| - 1].start]
  }

  /** The texts of the runs. */
  function Texts(s: seq<char>, delim: seq<char>): (r: seq<seq<char>>)
  {
    var runs := Runs(s, delim);
    seq(|runs|, i requires 0 <= i < |runs| => s[runs[i].start..runs[i].end])
  }
}
