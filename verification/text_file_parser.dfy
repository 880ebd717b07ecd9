/** TextFileParser (include/nebula/text_file_parser.h): reads a file line by line into one buffer, splits each
    line in that buffer and hands the tokens to a callback. */
module TextFileParsers {
  import opened Options
  import opened BoundedStrings
  import opened TokenRuns
  import opened TextTokens
  import opened TextLines

  const DEFAULT_LINE_SIZE := 4096

  /** The C strings at these addresses. */
  function StringsAt(addresses: seq<nat>, buffer: seq<char>): (r: seq<seq<char>>)
    requires forall i :: 0 <= i < |addresses| ==> addresses[i] <= |buffer|
    ensures |r| == |addresses|
  {
    seq(|addresses|, i requires 0 <= i < |addresses| => Str(buffer[addresses[i]..]))
  }

  /** What a callback reads through the tokens is the texts of the line's runs. */
  lemma StringsAreTexts(buffer: seq<char>, delim: seq<char>)
    requires NUL in buffer
    ensures var runs := Runs(Str(buffer), delim);
      StringsAt(Starts(runs), Cut(buffer, runs)) == Texts(Str(buffer), delim)
  {
    hide Str, Runs, Cut, Starts;
    var runs := Runs(Str(buffer), delim);
    forall i | 0 <= i < |runs|
      ensures StringsAt(Starts(runs), Cut(buffer, runs))[i] == Texts(Str(buffer), delim)[i]
    {
      TokenReadsAsRun(buffer, delim, i);
    }
  }

  class TextFileParser {
    var lineBuffer: array?<char>
    var lineSize: nat
    var fileOpen: bool

    ghost predicate Valid()
      reads this
    {
      lineBuffer != null ==> lineSize <= lineBuffer.Length && DEFAULT_LINE_SIZE <= lineBuffer.Length
    }

    constructor ()
      ensures Valid() && lineBuffer == null && !fileOpen
    {
      lineBuffer, lineSize, fileOpen := null, 0, false;
    }

    /** What getline leaves: -1 at the end of the file, else the length of the line that is now in the
        buffer, followed by a NUL. */
    predicate LineRead(content: seq<char>, pos: nat, length: int)
      reads this, lineBuffer
    {
      && pos <= |content|
      && (length == -1 <==> pos == |content|)
      && (length != -1 ==>
            && length == LineEnd(content, pos) - pos
            && lineBuffer != null && length < lineBuffer.Length
            && lineBuffer[..length] == content[pos..LineEnd(content, pos)] && lineBuffer[length] == NUL)
    }

    /** getline at this position of the file. A buffer that is too small is replaced. */
    method GetLine(content: seq<char>, pos: nat) returns (length: int)
      requires Valid() && lineBuffer != null && pos <= |content|
      modifies this`lineBuffer, this`lineSize, lineBuffer
      ensures Valid() && lineBuffer != null && (lineBuffer == old(lineBuffer) || fresh(lineBuffer))
      ensures LineRead(content, pos, length)
    {
      if pos == |content| {
        return -1;
      }
      var end := LineEnd(content, pos);
      length := end - pos;
      if lineSize < length + 1 {
        lineSize := length + 1;
        lineBuffer := new char[if lineSize < DEFAULT_LINE_SIZE then DEFAULT_LINE_SIZE else lineSize];
      }
      forall i | 0 <= i < length {
        lineBuffer[i] := content[pos + i];
      }
      lineBuffer[length] := NUL;
    }

    /** Puts NULs over the end of the line. */
    method StripLine(line: seq<char>)
      requires Valid() && lineBuffer != null && 0 < |line| < lineBuffer.Length
      requires lineBuffer[..|line|] == line && lineBuffer[|line|] == NUL
      modifies lineBuffer
      ensures NUL in lineBuffer[..] && Str(lineBuffer[..]) == Str(Stripped(line))
    {
      var length := |line|;
      if lineBuffer[length - 1] == '\r' || lineBuffer[length - 1] == '\n' {
        length := length - 1;
        lineBuffer[length] := NUL;
        if length != 0 && lineBuffer[length - 1] == '\r' {
          length := length - 1;
          lineBuffer[length] := NUL;
        }
      }
      assert lineBuffer[..length] == Stripped(line);
      SameString(lineBuffer[..], Stripped(line));
    }

    /** Strips and splits the line in the buffer; `texts` is what the tokens then read as. */
    method SplitLine(tokens: Tokens, content: seq<char>, pos: nat, length: nat, delim: seq<char>)
      returns (texts: seq<seq<char>>)
      requires Valid() && lineBuffer != null && LineRead(content, pos, length)
      requires tokens.Valid() && NUL !in delim
      modifies lineBuffer, tokens`tokens, tokens`numOfTokens, tokens`maxTokens, tokens.tokens
      ensures Valid() && tokens.Valid()
      ensures tokens.tokens == old(tokens.tokens) || fresh(tokens.tokens)
      ensures texts == TokensOf(content[pos..LineEnd(content, pos)], delim)
      ensures |texts| == tokens.numOfTokens && length == LineEnd(content, pos) - pos
    {
      hide Cut, Runs, Starts, Stripped, Str, Texts;
      StripLine(content[pos..pos + length]);
      ghost var buffer := lineBuffer[..];
      tokens.SplitString(lineBuffer, delim);
      StringsAreTexts(buffer, delim);
      texts := StringsAt(tokens.Contents(), lineBuffer[..]);
    }

    /** The loop over the lines of an open file. */
    method ParseLines(file: seq<char>, tokens: Tokens, fn: Callback, delim: seq<char>, skipEmpty: bool)
      returns (rc: int, ghost calls: seq<Call>)
      requires Valid() && lineBuffer != null && tokens.Valid() && NUL !in delim
      modifies this`lineBuffer, this`lineSize, lineBuffer
      modifies tokens`tokens, tokens`numOfTokens, tokens`maxTokens, tokens.tokens
      ensures Valid() && lineBuffer != null
      ensures (calls, rc) == Calls(LinesFrom(file, 0), 1, delim, skipEmpty, fn)
    {
      hide TokensOf, LineEnd, Calls, LinesFrom, LineRead;
      var lineNum: nat, pos: nat := 0, 0;
      rc, calls := 0, [];
      ghost var all := Calls(LinesFrom(file, 0), 1, delim, skipEmpty, fn);
      assert Completes(all, calls, file, pos, lineNum + 1, delim, skipEmpty, fn) by {
        assert calls + all.0 == all.0;
      }
      hide Completes;
      var length := GetLine(file, pos);
      while length != -1
        invariant Valid() && lineBuffer != null && (lineBuffer == old(lineBuffer) || fresh(lineBuffer))
        invariant tokens.Valid() && (tokens.tokens == old(tokens.tokens) || fresh(tokens.tokens))
        invariant LineRead(file, pos, length) && rc == 0
        invariant Completes(all, calls, file, pos, lineNum + 1, delim, skipEmpty, fn)
        decreases |file| - pos
      {
        LineReadSays(file, pos, length);
        lineNum := lineNum + 1;
        CompletesNext(all, calls, file, pos, lineNum, delim, skipEmpty, fn);
        var texts := SplitLine(tokens, file, pos, length, delim);
        pos := pos + length;
        if tokens.numOfTokens == 0 && skipEmpty {
          length := GetLine(file, pos);
          continue;
        }
        rc := fn(lineNum, texts);
        calls := calls + [Call(lineNum, texts)];
        if rc != 0 {
          break;
        }
        length := GetLine(file, pos);
      }
      if rc == 0 {
        LineReadSays(file, pos, length);
        CompletesAtEnd(all, calls, file, lineNum + 1, delim, skipEmpty, fn);
      }
    }

    lemma LineReadSays(content: seq<char>, pos: nat, length: int)
      requires LineRead(content, pos, length)
      ensures pos <= |content| && (length == -1 <==> pos == |content|)
      ensures length != -1 ==> length == LineEnd(content, pos) - pos && pos < pos + length <= |content|
    {}

    /** `content` is None for a file that cannot be opened. The callback runs for each line that getline
        reads and skip_empty does not skip, with its number from 1, until it returns non-zero. */
    method ParseLineByLine(content: Option<seq<char>>, fn: Callback, delim: seq<char>, skipEmpty: bool, hint: nat)
      returns (rc: int, ghost calls: seq<Call>)
      requires Valid() && NUL !in delim
      modifies this, lineBuffer
      ensures Valid() && !fileOpen && lineBuffer != null
      ensures content.None? ==> rc == -1 && calls == []
      ensures content.Some? ==> (calls, rc) == Calls(LinesFrom(content.value, 0), 1, delim, skipEmpty, fn)
    {
      fileOpen, calls := false, [];
      if lineBuffer == null {
        lineBuffer := new char[DEFAULT_LINE_SIZE];
      }
      lineSize := DEFAULT_LINE_SIZE;
      if content.None? {
        return -1, calls;
      }
      fileOpen := true;
      var tokens := new Tokens(hint);
      rc, calls := ParseLines(content.value, tokens, fn, delim, skipEmpty);
      fileOpen := false;
    }
  }

  /** The calls still to come extend the calls made so far to all of them. */
  ghost predicate Completes(all: (seq<Call>, int), calls: seq<Call>, file: seq<char>, pos: nat, lineNum: nat,
                            delim: seq<char>, skipEmpty: bool, fn: Callback)
  {
    pos <= |file| &&
    var rest := Calls(LinesFrom(file, pos), lineNum, delim, skipEmpty, fn);
    all.0 == calls + rest.0 && all.1 == rest.1
  }

  lemma CompletesNext(all: (seq<Call>, int), calls: seq<Call>, file: seq<char>, pos: nat, lineNum: nat,
                      delim: seq<char>, skipEmpty: bool, fn: Callback)
    requires pos < |file| && Completes(all, calls, file, pos, lineNum, delim, skipEmpty, fn)
    ensures var end := LineEnd(file, pos);
      var texts := TokensOf(file[pos..end], delim);
      var made := calls + [Call(lineNum, texts)];
      if skipEmpty && texts == [] then Completes(all, calls, file, end, lineNum + 1, delim, skipEmpty, fn)
      else if fn(lineNum, texts) != 0 then all == (made, fn(lineNum, texts))
      else Completes(all, made, file, end, lineNum + 1, delim, skipEmpty, fn)
  {
    hide LineEnd, TokensOf, Calls, LinesFrom;
    CallsUnfold(file, pos, lineNum, delim, skipEmpty, fn);
    var end := LineEnd(file, pos);
    var call := Call(lineNum, TokensOf(file[pos..end], delim));
    var rest := Calls(LinesFrom(file, end), lineNum + 1, delim, skipEmpty, fn);
    AppendMiddle(calls, call, rest.0);
  }

  lemma AppendMiddle(before: seq<Call>, call: Call, after: seq<Call>)
    ensures before + ([call] + after) == (before + [call]) + after
  {}

  lemma CallsUnfold(file: seq<char>, pos: nat, lineNum: nat, delim: seq<char>, skipEmpty: bool, fn: Callback)
    requires pos < |file|
    ensures var line := file[pos..LineEnd(file, pos)];
      var texts := TokensOf(line, delim);
      var rest := Calls(LinesFrom(file, LineEnd(file, pos)), lineNum + 1, delim, skipEmpty, fn);
      Calls(LinesFrom(file, pos), lineNum, delim, skipEmpty, fn) ==
        if skipEmpty && texts == [] then rest
        else if fn(lineNum, texts) != 0 then ([Call(lineNum, texts)], fn(lineNum, texts))
        else ([Call(lineNum, texts)] + rest.0, rest.1)
  {
    hide LineEnd, TokensOf;
    assert LinesFrom(file, pos)[1..] == LinesFrom(file, LineEnd(file, pos));
  }

  lemma CompletesAtEnd(all: (seq<Call>, int), calls: seq<Call>, file: seq<char>, lineNum: nat,
                       delim: seq<char>, skipEmpty: bool, fn: Callback)
    requires Completes(all, calls, file, |file|, lineNum, delim, skipEmpty, fn)
    ensures all == (calls, 0)
  {
    assert calls + [] == calls;
  }

  /** A buffer that holds a line and then a NUL holds the line's C string. */
  lemma SameString(buffer: seq<char>, line: seq<char>)
    requires |line| < |buffer| && buffer[..|line|] == line && buffer[|line|] == NUL
    ensures Str(buffer) == Str(line)
  {
    var s := Str(line);
    assert forall k :: 0 <= k < |s| ==> buffer[k] == line[k];
    StrIs(buffer, |s|);
  }
}
