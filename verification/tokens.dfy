/** Tokens (include/nebula/text_file_parser.h): splits a C string in place and records where the tokens start.
    A pointer into the input is its offset. Allocation always succeeds here. */
module TextTokens {
  import opened Options
  import opened BoundedStrings
  import opened TokenRuns

  const DEFAULT_HINT_SIZE := 32

  /** One call of strtok_r from position `from` of a string that was s at first: the token or null, where
      the next call goes on, and the buffer. */
  function Strtok(s: seq<char>, delim: seq<char>, from: nat, buffer: seq<char>): (r: (Option<nat>, nat, seq<char>))
    requires from <= |s| < |buffer|
    ensures from <= r.1 <= |s| && |r.2| == |buffer|
  {
    var a := TokenStart(s, from, delim);
    if a == |s| then (None, |s|, buffer)
    else
      var b := TokenEnd(s, a, delim);
      (Some(a), After(s, b), buffer[b := NUL])
  }

  /** strtok_r; str is None for a null pointer. The calls so far changed nothing from `saved` on. */
  method StrtokR(buffer: array<char>, str: Option<nat>, delim: seq<char>, saved: nat, ghost s: seq<char>)
    returns (token: Option<nat>, next: nat)
    requires |s| < buffer.Length && buffer[|s|] == NUL && NUL !in s && NUL !in delim
    requires (if str.Some? then str.value else saved) <= |s|
    requires forall k :: (if str.Some? then str.value else saved) <= k < |s| ==> buffer[k] == s[k]
    modifies buffer
    ensures (token, next, buffer[..]) ==
              Strtok(s, delim, if str.Some? then str.value else saved, old(buffer[..]))
  {
    var i: nat := if str.Some? then str.value else saved;
    ghost var from := i;
    while buffer[i] != NUL && buffer[i] in delim
      invariant from <= i <= |s| && TokenStart(s, from, delim) == TokenStart(s, i, delim)
      modifies {}
      decreases |s| - i
    {
      assert i < |s|;
      i := i + 1;
    }
    if buffer[i] == NUL {
      return None, i;
    }
    token := Some(i);
    while buffer[i] != NUL && buffer[i] !in delim
      invariant token.value <= i <= |s| && TokenEnd(s, token.value, delim) == TokenEnd(s, i, delim)
      modifies {}
      decreases |s| - i
    {
      assert i < |s|;
      i := i + 1;
    }
    next := i;
    if buffer[i] != NUL {
      buffer[i] := NUL;
      next := i + 1;
    } else {
      assert buffer[..][i := NUL] == buffer[..];
    }
  }

  /** Part of the way through a string: the runs recorded so far, and the last result of strtok_r, from a
      call that began at `at`. */
  ghost predicate Scanned(was: seq<char>, delim: seq<char>, done: seq<Run>, at: nat,
                          token: Option<nat>, saved: nat, now: seq<char>)
  {
    var s := Str(was);
    && |s| < |was| && at <= |s|
    && Runs(s, delim) == done + RunsFrom(s, at, delim)
    && (forall j :: 0 <= j < |done| ==> done[j].end < |was|)
    && (token, saved, now) == Strtok(s, delim, at, Cut(was, done))
    && (forall k :: saved <= k < |was| ==> now[k] == was[k])
  }

  lemma ScanStarts(was: seq<char>, delim: seq<char>, token: Option<nat>, saved: nat, now: seq<char>)
    requires NUL in was && (token, saved, now) == Strtok(Str(was), delim, 0, was)
    ensures Scanned(was, delim, [], 0, token, saved, now)
  {}

  lemma ScanGoesOn(was: seq<char>, delim: seq<char>, done: seq<Run>, at: nat,
                   token: Option<nat>, saved: nat, now: seq<char>)
    requires Scanned(was, delim, done, at, token, saved, now) && token.Some?
    ensures |now| == |was| && forall k :: saved <= k < |was| ==> now[k] == was[k]
    ensures var s := Str(was);
      var r := Run(token.value, TokenEnd(s, token.value, delim));
      var (token', saved', now') := Strtok(s, delim, saved, now);
      && at < saved
      && Scanned(was, delim, done + [r], saved, token', saved', now')
      && Starts(done + [r]) == Starts(done) + [token.value]
  {
    hide Str, Runs, TokenStart, TokenEnd;
    var s := Str(was);
    var r := Run(token.value, TokenEnd(s, token.value, delim));
    var rest := RunsFrom(s, saved, delim);
    assert RunsFrom(s, at, delim) == [r] + rest;
    hide RunsFrom;
    assert (done + [r])[..|done|] == done;
    assert done + ([r] + rest) == (done + [r]) + rest;
  }

  lemma ScanEnds(was: seq<char>, delim: seq<char>, done: seq<Run>, at: nat, saved: nat, now: seq<char>)
    requires Scanned(was, delim, done, at, None, saved, now)
    ensures done == Runs(Str(was), delim) && now == Cut(was, done)
  {
    assert done + [] == done;
  }

  class Tokens {
    var tokens: array?<nat>
    var numOfTokens: nat
    var maxTokens: nat
    const hintSize: nat

    ghost predicate Valid()
      reads this, tokens
    {
      && hintSize > 0
      && numOfTokens <= maxTokens && maxTokens % hintSize == 0
      && (tokens == null <==> maxTokens == 0)
      && (tokens != null ==> tokens.Length == maxTokens)
    }

    /** The recorded token addresses. */
    function Contents(): (c: seq<nat>)
      requires Valid()
      reads this, tokens
      ensures |c| == numOfTokens
    {
      if tokens == null then [] else tokens[..numOfTokens]
    }

    constructor (hint: nat)
      ensures Valid() && Contents() == [] && maxTokens == 0
      ensures hintSize == if hint != 0 then hint else DEFAULT_HINT_SIZE
    {
      tokens, numOfTokens, maxTokens := null, 0, 0;
      hintSize := if hint != 0 then hint else DEFAULT_HINT_SIZE;
    }

    method Clear()
      requires Valid()
      modifies this`numOfTokens
      ensures Valid() && Contents() == []
    {
      numOfTokens := 0;
    }

    /** Null is None. */
    method Token(idx: nat) returns (t: Option<nat>)
      requires Valid()
      ensures t == if idx < |Contents()| then Some(Contents()[idx]) else None
    {
      if idx < numOfTokens {
        t := Some(tokens[idx]);
      } else {
        t := None;
      }
    }

    /** A full table grows by the hint, keeping what it holds. */
    method SaveTokenAddr(ptr: nat)
      requires Valid()
      modifies this`tokens, this`numOfTokens, this`maxTokens, tokens
      ensures Valid() && Contents() == old(Contents()) + [ptr]
      ensures maxTokens == old(maxTokens) + (if old(numOfTokens == maxTokens) then hintSize else 0)
      ensures tokens == old(tokens) || fresh(tokens)
    {
      if numOfTokens == maxTokens {
        maxTokens := maxTokens + hintSize;
        MultipleOf(old(maxTokens), hintSize);
        var all := new nat[maxTokens];
        if tokens != null {
          forall i | 0 <= i < numOfTokens {
            all[i] := tokens[i];
          }
        }
        tokens := all;
      }
      tokens[numOfTokens] := ptr;
      numOfTokens := numOfTokens + 1;
    }

    /** Records the start of every maximal delimiter-free run of the input, in order, whatever the object
        held before; the capacity never shrinks, and grows only by the hints needed. */
    method SplitString(input: array<char>, delim: seq<char>)
      requires Valid() && NUL in input[..] && NUL !in delim
      modifies this`tokens, this`numOfTokens, this`maxTokens, tokens, input
      ensures Valid()
      ensures Contents() == Starts(Runs(Str(old(input[..])), delim))
      ensures input[..] == Cut(old(input[..]), Runs(Str(old(input[..])), delim))
      ensures old(maxTokens) <= maxTokens
      ensures maxTokens == old(maxTokens) || maxTokens < numOfTokens + hintSize
      ensures tokens == old(tokens) || fresh(tokens)
    {
      hide Str, Scanned, Strtok, Cut;
      Clear();
      ghost var was, s := input[..], Str(input[..]);
      ghost var done: seq<Run>, at: nat := [], 0;
      var token: Option<nat>, saved: nat := None, 0;
      token, saved := StrtokR(input, Some(0), delim, saved, s);
      ScanStarts(was, delim, token, saved, input[..]);
      while token.Some?
        invariant Valid() && Contents() == Starts(done)
        invariant tokens == old(tokens) || fresh(tokens)
        invariant old(maxTokens) <= maxTokens
        invariant maxTokens == old(maxTokens) || maxTokens < numOfTokens + hintSize
        invariant Scanned(was, delim, done, at, token, saved, input[..])
        invariant at <= |s| && saved <= |s|
        decreases |s| - at
      {
        SaveTokenAddr(token.value);
        ScanGoesOn(was, delim, done, at, token, saved, input[..]);
        done := done + [Run(token.value, TokenEnd(s, token.value, delim))];
        at := saved;
        token, saved := StrtokR(input, None, delim, saved, s);
      }
      ScanEnds(was, delim, done, at, saved, input[..]);
    }
  }

  lemma SmallMultiple(h: nat, x: int, r: nat)
    requires h > 0 && r < h && h * x == r
    ensures r == 0
  {
    assert x >= 1 ==> h * x >= h;
  }

  lemma MultipleOf(m: nat, h: nat)
    requires h > 0 && m % h == 0
    ensures (m + h) % h == 0
  {
    var r := (m + h) % h;
    var d := (m + h) / h - m / h - 1;
    assert m == h * (m / h) && m + h == h * ((m + h) / h) + r;
    assert h * -d == r;
    SmallMultiple(h, -d, r);
  }
}
