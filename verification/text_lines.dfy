/** Lines as getline reads them, what TextFileParser does to each, and which calls it makes
    (include/nebula/text_file_parser.h). */
module TextLines {
  import opened BoundedStrings
  import opened TokenRuns

  /** One past the first newline at or after pos, or the end of the file. */
  function LineEnd(content: seq<char>, pos: nat): (e: nat)
    requires pos <= |content|
    ensures pos <= e <= |content|
    ensures pos < |content| ==> pos < e
    ensures forall k :: pos <= k < e - 1 ==> content[k] != '\n'
    ensures e < |content| ==> pos < e && content[e - 1] == '\n'
    decreases |content| - pos
  {
    if pos == |content| then pos
    else if content[pos] == '\n' then pos + 1
    else LineEnd(content, pos + 1)
  }

  function LinesFrom(content: seq<char>, pos: nat): seq<seq<char>>
    requires pos <= |content|
    decreases |content| - pos
  {
    if pos == |content| then []
    else [content[pos..LineEnd(content, pos)]] + LinesFrom(content, LineEnd(content, pos))
  }

  function Join(lines: seq<seq<char>>): seq<char> {
    if lines == [] then [] else lines[0] + Join(lines[1..])
  }

  /** A newline ends a line and is nowhere else in it; only the last line may lack one. */
  predicate ProperLines(lines: seq<seq<char>>) {
    forall i :: 0 <= i < |lines| ==>
      && lines[i] != []
      && (forall k :: 0 <= k < |lines[i]| - 1 ==> lines[i][k] != '\n')
      && (i < |lines| - 1 ==> lines[i][|lines[i]| - 1] == '\n')
  }

  /** getline loses and adds nothing, */
  lemma {:induction false} LinesJoin(content: seq<char>, pos: nat)
    requires pos <= |content|
    ensures Join(LinesFrom(content, pos)) == content[pos..]
    decreases |content| - pos
  {
    hide LineEnd;
    if pos < |content| {
      var e := LineEnd(content, pos);
      LinesJoin(content, e);
      assert content[pos..] == content[pos..e] + content[e..];
    }
  }

  /** and cuts after newlines only. */
  lemma {:induction false} LinesAreProper(content: seq<char>, pos: nat)
    requires pos <= |content|
    ensures ProperLines(LinesFrom(content, pos))
    decreases |content| - pos
  {
    hide LineEnd;
    if pos < |content| {
      LinesAreProper(content, LineEnd(content, pos));
    }
  }

  predicate EndsWith(line: seq<char>, tail: seq<char>) {
    |tail| <= |line| && line[|line| - |tail|..] == tail
  }

  function Drop(line: seq<char>, n: nat): seq<char> {
    if n <= |line| then line[..|line| - n] else []
  }

  /** What is left of a line, following the code: a final CR or LF goes, then a CR before it. */
  function Stripped(line: seq<char>): (r: seq<char>)
    ensures r <= line
  {
    var n := |line|;
    if n > 0 && (line[n - 1] == '\r' || line[n - 1] == '\n') then
      if n > 1 && line[n - 2] == '\r' then line[..n - 2] else line[..n - 1]
    else line
  }

  /** What the comment above that code says: one trailing CR, LF or CR LF goes. */
  function StrippedAsDocumented(line: seq<char>): seq<char> {
    if EndsWith(line, "\r\n") then Drop(line, 2)
    else if EndsWith(line, "\n") || EndsWith(line, "\r") then Drop(line, 1)
    else line
  }

  /** They differ on a line that ends in two CRs, which only a file's last line can. */
  lemma StrippedAsDocumentedIff(line: seq<char>)
    ensures Stripped(line) == StrippedAsDocumented(line) <==> !EndsWith(line, "\r\r")
  {
    EndsWithOne(line, '\r');
    EndsWithOne(line, '\n');
    EndsWithTwo(line, '\r', '\n');
    EndsWithTwo(line, '\r', '\r');
    hide EndsWith;
  }

  /** There is such a file. */
  lemma TwoReturnsHappen()
    ensures LinesFrom("a\r\r", 0) == ["a\r\r"] && Stripped("a\r\r") == "a"
    ensures StrippedAsDocumented("a\r\r") == "a\r"
  {
    var file := "a\r\r";
    assert LineEnd(file, 3) == 3 && LineEnd(file, 2) == 3 && LineEnd(file, 1) == 3;
    assert file[0..3] == file;
    EndsWithTwo(file, '\r', '\n');
    EndsWithOne(file, '\r');
  }

  lemma EndsWithOne(line: seq<char>, c: char)
    ensures EndsWith(line, [c]) <==> |line| > 0 && line[|line| - 1] == c
  {
    if |line| > 0 {
      assert line[|line| - 1..] == [line[|line| - 1]];
    }
  }

  lemma EndsWithTwo(line: seq<char>, c: char, d: char)
    ensures EndsWith(line, [c, d]) <==> |line| > 1 && line[|line| - 2] == c && line[|line| - 1] == d
  {
    if |line| > 1 {
      assert line[|line| - 2..] == [line[|line| - 2], line[|line| - 1]];
    }
  }

  // ----- callbacks -----

  /** One call of the callback: the line's number and the tokens it can read. */
  datatype Call = Call(line: nat, tokens: seq<seq<char>>)

  type Callback = (nat, seq<seq<char>>) -> int

  function TokensOf(line: seq<char>, delim: seq<char>): seq<seq<char>> {
    Texts(Str(Stripped(line)), delim)
  }

  predicate Skipped(line: seq<char>, delim: seq<char>, skipEmpty: bool) {
    skipEmpty && TokensOf(line, delim) == []
  }

  /** What the tokens of a line are, in terms of the documentation: the maximal delimiter-free runs of what is in
      front of the line's end (and of its second CR, when it ends in two). */
  lemma TokensAreRuns(line: seq<char>, delim: seq<char>)
    ensures var text := Str(if EndsWith(line, "\r\r") then Drop(line, 2) else StrippedAsDocumented(line));
      && |TokensOf(line, delim)| == |Runs(text, delim)|
      && (forall i :: 0 <= i < |Runs(text, delim)| ==>
            var r := Runs(text, delim)[i];
            Maximal(text, delim, r) && TokensOf(line, delim)[i] == text[r.start..r.end])
      && (forall r :: Maximal(text, delim, r) ==> text[r.start..r.end] in TokensOf(line, delim))
  {
    StrippedIs(line);
    hide EndsWith, Stripped, StrippedAsDocumented, Str, Runs, Maximal;
    var text := Str(Stripped(line));
    var runs := Runs(text, delim);
    forall i | 0 <= i < |runs| ensures Maximal(text, delim, runs[i]) {
      RunsExact(text, delim, runs[i]);
    }
    forall r | Maximal(text, delim, r) ensures r.start < r.end <= |text| && text[r.start..r.end] in Texts(text, delim) {
      RunsExact(text, delim, r);
      var i :| 0 <= i < |runs| && runs[i] == r;
      assert Texts(text, delim)[i] == text[r.start..r.end];
    }
  }

  lemma StrippedIs(line: seq<char>)
    ensures Stripped(line) == if EndsWith(line, "\r\r") then Drop(line, 2) else StrippedAsDocumented(line)
  {
    StrippedAsDocumentedIff(line);
    EndsWithTwo(line, '\r', '\r');
  }

  predicate OnlyDelimiters(text: seq<char>, delim: seq<char>) {
    forall k :: 0 <= k < |text| ==> text[k] in delim
  }

  /** A line is skipped exactly when the caller asked for that and the line has no character but delimiters in
      front of its end, or of a NUL. */
  lemma SkippedIff(line: seq<char>, delim: seq<char>, skipEmpty: bool)
    ensures Skipped(line, delim, skipEmpty) <==> skipEmpty && OnlyDelimiters(Str(Stripped(line)), delim)
  {
    hide Str, Stripped;
    NoTextsIff(Str(Stripped(line)), delim);
  }

  lemma NoTextsIff(text: seq<char>, delim: seq<char>)
    ensures Texts(text, delim) == [] <==> OnlyDelimiters(text, delim)
  {
    var a := TokenStart(text, 0, delim);
    if a < |text| {
      assert |Runs(text, delim)| > 0 && text[a] !in delim;
    } else {
      assert Runs(text, delim) == [];
    }
  }

  /** The calls for these lines, the first of which has number `first`, and the final result. */
  function Calls(lines: seq<seq<char>>, first: nat, delim: seq<char>, skipEmpty: bool, fn: Callback)
    : (r: (seq<Call>, int))
  {
    if lines == [] then ([], 0)
    else if Skipped(lines[0], delim, skipEmpty) then Calls(lines[1..], first + 1, delim, skipEmpty, fn)
    else
      var call := Call(first, TokensOf(lines[0], delim));
      var rc := fn(first, call.tokens);
      if rc != 0 then ([call], rc)
      else
        var rest := Calls(lines[1..], first + 1, delim, skipEmpty, fn);
        ([call] + rest.0, rest.1)
  }

  /** Line k is not skipped, and the callback returned 0 for each unskipped line before it. */
  ghost predicate Reached(lines: seq<seq<char>>, first: nat, delim: seq<char>, skipEmpty: bool, fn: Callback, k: nat)
  {
    && k < |lines| && !Skipped(lines[k], delim, skipEmpty)
    && (forall j :: 0 <= j < k ==>
          Skipped(lines[j], delim, skipEmpty) || fn(first + j, TokensOf(lines[j], delim)) == 0)
  }

  lemma ReachedTail(lines: seq<seq<char>>, first: nat, delim: seq<char>, skipEmpty: bool, fn: Callback, k: nat)
    requires lines != [] && k > 0
    requires Skipped(lines[0], delim, skipEmpty) || fn(first, TokensOf(lines[0], delim)) == 0
    ensures Reached(lines, first, delim, skipEmpty, fn, k)
       <==> Reached(lines[1..], first + 1, delim, skipEmpty, fn, k - 1)
  {
    hide TokensOf, Skipped;
    var tail := lines[1..];
    assert forall j :: 0 <= j < |tail| ==> tail[j] == lines[1 + j];
    if Reached(tail, first + 1, delim, skipEmpty, fn, k - 1) {
      forall j | 0 <= j < k
        ensures Skipped(lines[j], delim, skipEmpty) || fn(first + j, TokensOf(lines[j], delim)) == 0
      {
        if j > 0 {
          assert lines[j] == tail[j - 1];
        }
      }
    }
    if Reached(lines, first, delim, skipEmpty, fn, k) {
      forall j | 0 <= j < k - 1
        ensures Skipped(tail[j], delim, skipEmpty) || fn(first + 1 + j, TokensOf(tail[j], delim)) == 0
      {
        assert tail[j] == lines[j + 1];
      }
    }
  }

  predicate InOrder(calls: seq<Call>, first: nat) {
    && (forall i :: 0 <= i < |calls| ==> first <= calls[i].line)
    && (forall i, j :: 0 <= i < j < |calls| ==> calls[i].line < calls[j].line)
  }

  lemma InOrderPrepend(call: Call, rest: seq<Call>)
    requires InOrder(rest, call.line + 1)
    ensures InOrder([call] + rest, call.line)
  {
    var calls := [call] + rest;
    assert forall i :: 0 < i < |calls| ==> calls[i] == rest[i - 1];
  }

  /** Calls come in the order of the lines, one for a line at most. */
  lemma {:induction false} CallsInOrder(lines: seq<seq<char>>, first: nat, delim: seq<char>, skipEmpty: bool,
                                        fn: Callback)
    ensures InOrder(Calls(lines, first, delim, skipEmpty, fn).0, first)
    decreases |lines|
  {
    if lines != [] {
      hide TokensOf, Skipped;
      CallsInOrder(lines[1..], first + 1, delim, skipEmpty, fn);
      InOrderPrepend(Call(first, TokensOf(lines[0], delim)),
                     Calls(lines[1..], first + 1, delim, skipEmpty, fn).0);
    }
  }

  /** Line k causes a call, with its own number and tokens, exactly when it is reached. */
  lemma {:induction false} CalledIffReached(lines: seq<seq<char>>, first: nat, delim: seq<char>, skipEmpty: bool,
                                            fn: Callback, k: nat)
    requires k < |lines|
    ensures var calls := Calls(lines, first, delim, skipEmpty, fn).0;
      Reached(lines, first, delim, skipEmpty, fn, k) <==> Call(first + k, TokensOf(lines[k], delim)) in calls
    decreases |lines|
  {
    hide TokensOf, Skipped;
    CallsInOrder(lines[1..], first + 1, delim, skipEmpty, fn);
    var head := Call(first, TokensOf(lines[0], delim));
    var calls := Calls(lines, first, delim, skipEmpty, fn).0;
    var rest := Calls(lines[1..], first + 1, delim, skipEmpty, fn).0;
    assert calls == if Skipped(lines[0], delim, skipEmpty) then rest
                    else if fn(first, head.tokens) != 0 then [head] else [head] + rest;
    if k > 0 {
      if Skipped(lines[0], delim, skipEmpty) || fn(first, TokensOf(lines[0], delim)) == 0 {
        ReachedTail(lines, first, delim, skipEmpty, fn, k);
        CalledIffReached(lines[1..], first + 1, delim, skipEmpty, fn, k - 1);
      }
    }
  }

  /** Every call is for one of the lines. */
  lemma {:induction false} CallIsForItsLine(lines: seq<seq<char>>, first: nat, delim: seq<char>, skipEmpty: bool,
                                            fn: Callback, i: nat)
    requires i < |Calls(lines, first, delim, skipEmpty, fn).0|
    ensures var c := Calls(lines, first, delim, skipEmpty, fn).0[i];
      first <= c.line < first + |lines| && c.tokens == TokensOf(lines[c.line - first], delim)
    decreases |lines|
  {
    hide TokensOf, Skipped;
    var tail := lines[1..];
    if Skipped(lines[0], delim, skipEmpty) {
      CallIsForItsLine(tail, first + 1, delim, skipEmpty, fn, i);
    } else if i > 0 {
      CallIsForItsLine(tail, first + 1, delim, skipEmpty, fn, i - 1);
    }
  }

  /** The result is that of the last call, which alone may be non-zero. */
  lemma {:induction false} ResultIsLast(lines: seq<seq<char>>, first: nat, delim: seq<char>, skipEmpty: bool,
                                        fn: Callback)
    ensures var (calls, rc) := Calls(lines, first, delim, skipEmpty, fn);
      && (forall i :: 0 <= i < |calls| - 1 ==> fn(calls[i].line, calls[i].tokens) == 0)
      && rc == (if calls == [] then 0 else fn(calls[|calls| - 1].line, calls[|calls| - 1].tokens))
    decreases |lines|
  {
    hide TokensOf, Skipped;
    if lines != [] {
      ResultIsLast(lines[1..], first + 1, delim, skipEmpty, fn);
    }
  }
}
