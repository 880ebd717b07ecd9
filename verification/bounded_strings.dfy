/** String::strlcpy and String::strlcat (src/strlcpy.cc, src/strlcat.cc) on character arrays. */
module BoundedStrings {
  import opened Words

  const NUL := '\0'

  /** The C string in a buffer: everything before the first NUL. */
  function Str(a: seq<char>): (s: seq<char>)
    ensures s <= a && NUL !in s
    ensures s == a || (|s| < |a| && a[|s|] == NUL)
  {
    if a == [] || a[0] == NUL then [] else [a[0]] + Str(a[1..])
  }

  /** The C string is determined by where the first NUL is. */
  lemma {:induction false} StrIs(a: seq<char>, n: nat)
    requires n <= |a| && forall k :: 0 <= k < n ==> a[k] != NUL
    requires n == |a| || a[n] == NUL
    ensures Str(a) == a[..n]
  {
    if n > 0 {
      StrIs(a[1..], n - 1);
    }
  }

  /** The first n characters, or all when there are fewer. */
  function Take(s: seq<char>, n: nat): seq<char> {
    if n <= |s| then s[..n] else s
  }

  /** The buffer after writing the string t and a NUL at `at`. */
  function Written(buffer: seq<char>, at: nat, t: seq<char>): (r: seq<char>)
    requires at + |t| < |buffer|
    ensures |r| == |buffer|
  {
    buffer[..at] + t + [NUL] + buffer[at + |t| + 1..]
  }

  /** strlcpy's effect on the whole buffer. */
  function Copied(buffer: seq<char>, src: seq<char>, siz: nat): (r: seq<char>)
    requires siz <= |buffer|
    ensures |r| == |buffer|
  {
    if siz == 0 then buffer else Written(buffer, 0, Take(src, siz - 1))
  }

  /** strlcat's effect on the whole buffer: nothing when no NUL ends the string within siz. */
  function Appended(buffer: seq<char>, src: seq<char>, siz: nat): (r: seq<char>)
    requires siz <= |buffer|
    ensures |r| == |buffer|
  {
    var d := Str(buffer[..siz]);
    if |d| == siz then buffer else Written(buffer, |d|, Take(src, siz - 1 - |d|))
  }

  lemma IsWritten(buffer: seq<char>, at: nat, t: seq<char>, r: seq<char>)
    requires at + |t| < |buffer| == |r|
    requires forall k :: 0 <= k < at ==> r[k] == buffer[k]
    requires forall k :: 0 <= k < |t| ==> r[at + k] == t[k]
    requires r[at + |t|] == NUL
    requires forall k :: at + |t| < k < |r| ==> r[k] == buffer[k]
    ensures r == Written(buffer, at, t)
  {
    assert r[..at] == buffer[..at];
    assert r[at..at + |t|] == t;
    assert r[at + |t| + 1..] == buffer[at + |t| + 1..];
  }

  /** The buffer after a copy, character by character. */
  lemma CopiedIs(was: seq<char>, text: seq<char>, now: seq<char>, siz: nat, length: nat)
    requires 0 < siz <= |was| == |now| && length < |text| && text[length] == NUL
    requires forall k :: 0 <= k < length ==> text[k] != NUL
    requires var m := Min(length, siz - 1);
      && (forall k :: 0 <= k < m ==> now[k] == text[k])
      && now[m] == NUL && forall k :: m < k < |now| ==> now[k] == was[k]
    ensures now == Copied(was, Str(text), siz) && length == |Str(text)|
  {
    hide Str, Written;
    StrIs(text, length);
    IsWritten(was, 0, Take(Str(text), siz - 1), now);
  }

  lemma CopiedNothing(was: seq<char>, text: seq<char>, length: nat)
    requires length < |text| && text[length] == NUL && forall k :: 0 <= k < length ==> text[k] != NUL
    ensures was == Copied(was, Str(text), 0) && length == |Str(text)|
  {
    StrIs(text, length);
  }

  method Strlcpy(dst: array<char>, src: array<char>, siz: nat) returns (length: nat)
    requires dst != src && siz <= dst.Length && NUL in src[..]
    modifies dst
    ensures dst[..] == Copied(old(dst[..]), Str(src[..]), siz)
    ensures length == |Str(src[..])|
  {
    hide Written, Str, Copied;
    ghost var was, text := dst[..], src[..];
    var d: nat, s: nat, n: nat := 0, 0, siz;
    if n != 0 {
      n := n - 1;
      while n != 0
        invariant d == s <= src.Length && d + n == siz - 1
        invariant forall k :: 0 <= k < d ==> dst[k] == src[k] && src[k] != NUL
        invariant forall k :: d <= k < dst.Length ==> dst[k] == was[k]
        decreases n
      {
        EndsLater(text, s);
        var c := src[s];
        dst[d] := c;
        d, s := d + 1, s + 1;
        if c == NUL {
          break;
        }
        n := n - 1;
      }
    }
    if n == 0 {
      if siz != 0 {
        dst[d] := NUL;
      }
      EndsLater(text, s);
      while src[s] != NUL
        invariant d <= s < src.Length
        invariant forall k :: 0 <= k < s ==> src[k] != NUL
        modifies {}
        decreases src.Length - s
      {
        s := s + 1;
        EndsLater(text, s);
      }
      s := s + 1;
    }
    length := s - 1;
    if siz == 0 {
      CopiedNothing(was, text, length);
    } else {
      CopiedIs(was, text, dst[..], siz, length);
    }
  }

  /** A terminated string goes on at least to the first NUL. */
  lemma EndsLater(a: seq<char>, n: nat)
    requires NUL in a && n <= |a| && forall k :: 0 <= k < n ==> a[k] != NUL
    ensures n < |a|
  {}

  method Strlcat(dst: array<char>, src: array<char>, siz: nat) returns (length: nat)
    requires dst != src && siz <= dst.Length && NUL in src[..]
    modifies dst
    ensures dst[..] == Appended(old(dst[..]), Str(src[..]), siz)
    ensures length == |Str(old(dst[..siz]))| + |Str(src[..])|
  {
    hide Written, Str;
    ghost var was := dst[..];
    var d: nat, s: nat, n: nat := 0, 0, siz;
    // the source's last test also decrements n, which is overwritten below
    while n != 0 && dst[d] != NUL
      invariant d + n == siz
      invariant forall k :: 0 <= k < d ==> was[k] != NUL
      modifies {}
      decreases n
    {
      d, n := d + 1, n - 1;
    }
    var dlen := d;
    n := siz - dlen;
    assert was[..siz] == dst[..siz];
    StrIs(was[..siz], dlen);
    if n == 0 {
      var rest := Strlen(src);
      return dlen + rest;
    }
    EndsLater(src[..], s);
    while src[s] != NUL
      invariant s < src.Length
      invariant forall k :: 0 <= k < s ==> src[k] != NUL
      invariant 1 <= n == siz - d && d - dlen == Min(s, siz - 1 - dlen)
      invariant forall k :: 0 <= k < d - dlen ==> dst[dlen + k] == src[k]
      invariant forall k :: 0 <= k < dlen || d <= k < dst.Length ==> dst[k] == was[k]
      decreases src.Length - s
    {
      if n != 1 {
        dst[d] := src[s];
        d, n := d + 1, n - 1;
      }
      s := s + 1;
      EndsLater(src[..], s);
    }
    dst[d] := NUL;
    StrIs(src[..], s);
    IsWritten(was, dlen, Take(Str(src[..]), siz - 1 - dlen), dst[..]);
    length := dlen + s;
  }

  /** The C library's strlen. */
  method Strlen(src: array<char>) returns (n: nat)
    requires NUL in src[..]
    ensures n == |Str(src[..])|
  {
    n := 0;
    while src[n] != NUL
      invariant n < src.Length && forall k :: 0 <= k < n ==> src[k] != NUL
      decreases src.Length - n
    {
      n := n + 1;
    }
    StrIs(src[..], n);
  }

  // ----- what the two functions promise -----

  lemma WrittenAt(buffer: seq<char>, at: nat, t: seq<char>)
    requires at + |t| < |buffer|
    ensures var r := Written(buffer, at, t);
      && (forall k :: 0 <= k < at ==> r[k] == buffer[k])
      && (forall k :: 0 <= k < |t| ==> r[at + k] == t[k])
      && r[at + |t|] == NUL
      && (forall k :: at + |t| < k < |r| ==> r[k] == buffer[k])
  {}

  lemma StrOfWritten(buffer: seq<char>, at: nat, t: seq<char>, siz: nat)
    requires at + |t| < siz <= |buffer|
    requires NUL !in t && forall k :: 0 <= k < at ==> buffer[k] != NUL
    ensures var r := Written(buffer, at, t);
      Str(r[..siz]) == buffer[..at] + t && r[at + |t|] == NUL && r[siz..] == buffer[siz..]
  {
    var r := Written(buffer, at, t);
    WrittenAt(buffer, at, t);
    hide Written, Str;
    forall k | 0 <= k < at + |t| ensures r[..siz][k] != NUL && r[..siz][k] == (buffer[..at] + t)[k] {}
    StrIs(r[..siz], at + |t|);
    assert r[..siz][..at + |t|] == buffer[..at] + t;
  }

  /** strlcpy leaves the first siz - 1 characters, terminated within siz; nothing beyond changes, and its
      result, the source's length, is at least siz exactly when it truncated. */
  lemma CopiedFits(buffer: seq<char>, src: seq<char>, siz: nat)
    requires 0 < siz <= |buffer| && NUL !in src
    ensures var r := Copied(buffer, src, siz);
      && Str(r[..siz]) == Take(src, siz - 1) && NUL in r[..siz] && r[siz..] == buffer[siz..]
      && (|src| >= siz <==> Str(r[..siz]) != src)
  {
    var t := Take(src, siz - 1);
    StrOfWritten(buffer, 0, t, siz);
    var r := Copied(buffer, src, siz);
    assert buffer[..0] + t == t;
    assert r[..siz][|t|] == NUL;
  }

  /** strlcat on a string terminated within siz. */
  lemma AppendedFits(buffer: seq<char>, src: seq<char>, siz: nat)
    requires siz <= |buffer| && NUL in buffer[..siz] && NUL !in src
    ensures var r := Appended(buffer, src, siz);
      var d := Str(buffer[..siz]);
      && Str(r[..siz]) == Take(d + src, siz - 1) && NUL in r[..siz] && r[siz..] == buffer[siz..]
      && (|d| + |src| >= siz <==> Str(r[..siz]) != d + src)
  {
    hide Str, Written, Take;
    var d := Str(buffer[..siz]);
    var t := Take(src, siz - 1 - |d|);
    EndsLater(buffer[..siz], |d|);
    assert buffer[..|d|] == d;
    TakeFits(src, siz - 1 - |d|);
    StrOfWritten(buffer, |d|, t, siz);
    var r := Appended(buffer, src, siz);
    TakeSplits(d, src, siz - 1);
    assert r[..siz][|d| + |t|] == NUL;
  }

  lemma TakeFits(s: seq<char>, n: nat)
    ensures |Take(s, n)| <= n && Take(s, n) <= s
  {}

  lemma TakeSplits(a: seq<char>, b: seq<char>, n: nat)
    requires |a| <= n
    ensures a + Take(b, n - |a|) == Take(a + b, n)
    ensures |a| + |b| > n <==> Take(a + b, n) != a + b
  {}

  /** strlcat on a buffer that is not terminated within siz changes nothing, and its result, siz plus the
      source's length, says that it truncated. */
  lemma UnterminatedIsLeftAlone(buffer: seq<char>, src: seq<char>, siz: nat)
    requires siz <= |buffer| && NUL !in buffer[..siz]
    ensures Appended(buffer, src, siz) == buffer && |Str(buffer[..siz])| == siz
  {
    StrIs(buffer[..siz], siz);
  }

  // ----- a copy followed by appends -----

  function Concat(parts: seq<seq<char>>): seq<char> {
    if parts == [] then [] else Concat(parts[..|parts| - 1]) + parts[|parts| - 1]
  }

  /** strlcpy of the first part, then strlcat of each other, all with the same siz. */
  function Chain(buffer: seq<char>, parts: seq<seq<char>>, siz: nat): (r: seq<char>)
    requires siz <= |buffer| && parts != []
    ensures |r| == |buffer|
  {
    if |parts| == 1 then Copied(buffer, parts[0], siz)
    else Appended(Chain(buffer, parts[..|parts| - 1], siz), parts[|parts| - 1], siz)
  }

  /** The string before the last call of the chain; strlcpy counts from nothing. */
  function Before(buffer: seq<char>, parts: seq<seq<char>>, siz: nat): seq<char>
    requires siz <= |buffer| && parts != []
  {
    if |parts| == 1 then [] else Str(Chain(buffer, parts[..|parts| - 1], siz)[..siz])
  }

  /** What the last call of the chain returns. */
  function LastResult(buffer: seq<char>, parts: seq<seq<char>>, siz: nat): nat
    requires siz <= |buffer| && parts != []
  {
    |Before(buffer, parts, siz)| + |parts[|parts| - 1]|
  }

  lemma TakeTwice(a: seq<char>, b: seq<char>, n: nat)
    ensures Take(Take(a, n) + b, n) == Take(a + b, n)
  {}

  /** A chain leaves the first siz - 1 characters of the whole concatenation, terminated, and nothing beyond
      siz is written; its last call returns siz or more exactly when that call truncated. */
  lemma {:induction false} ChainKeepsPrefix(buffer: seq<char>, parts: seq<seq<char>>, siz: nat)
    requires 0 < siz <= |buffer| && parts != []
    requires forall i :: 0 <= i < |parts| ==> NUL !in parts[i]
    ensures var r := Chain(buffer, parts, siz);
      && Str(r[..siz]) == Take(Concat(parts), siz - 1) && NUL in r[..siz] && r[siz..] == buffer[siz..]
      && (LastResult(buffer, parts, siz) >= siz
          <==> Str(r[..siz]) != Before(buffer, parts, siz) + parts[|parts| - 1])
    decreases |parts|
  {
    hide Str, Written, Copied, Appended, Take;
    var n := |parts| - 1;
    var last := parts[n];
    if n == 0 {
      assert Concat(parts) == last by { assert Concat(parts[..0]) == []; }
      CopiedFits(buffer, last, siz);
    } else {
      var b := Chain(buffer, parts[..n], siz);
      ChainKeepsPrefix(buffer, parts[..n], siz);
      AppendedFits(b, last, siz);
      TakeTwice(Concat(parts[..n]), last, siz - 1);
    }
  }

  /** Some call of the chain returned siz or more. */
  predicate Reported(buffer: seq<char>, parts: seq<seq<char>>, siz: nat)
    requires siz <= |buffer| && parts != []
  {
    LastResult(buffer, parts, siz) >= siz || (|parts| > 1 && Reported(buffer, parts[..|parts| - 1], siz))
  }

  /** Looking at every result is enough: the whole concatenation fails to fit exactly when some call
      returned siz or more. */
  lemma {:induction false} ChainTruncatesIffReported(buffer: seq<char>, parts: seq<seq<char>>, siz: nat)
    requires 0 < siz <= |buffer| && parts != []
    requires forall i :: 0 <= i < |parts| ==> NUL !in parts[i]
    ensures |Concat(parts)| >= siz <==> Reported(buffer, parts, siz)
    decreases |parts|
  {
    hide Str, Chain;
    var n := |parts| - 1;
    if n == 0 {
      assert Concat(parts) == parts[0] by { assert Concat(parts[..0]) == []; }
    } else {
      ChainKeepsPrefix(buffer, parts[..n], siz);
      ChainTruncatesIffReported(buffer, parts[..n], siz);
    }
  }
}
