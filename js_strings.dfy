/**
 * The String.prototype operations the wind-speed parser relies on:
 * `indexOf`/`includes`, `split` with a non-empty string separator,
 * `Array.prototype.join` as its inverse, and `trim`.
 */
module JsStrings {
  import opened Wrappers

  /** `sep` occurs in `s` starting at index `i`. */
  predicate OccursAt(s: string, sep: string, i: nat) {
    i + |sep| <= |s| && s[i..i + |sep|] == sep
  }

  /** `s.indexOf(sep)`: the first index at which `sep` occurs in `s`. */
  function IndexOf(s: string, sep: string): (r: Option<nat>)
    ensures r.Some? ==> OccursAt(s, sep, r.value)
    decreases |s|
  {
    if |s| < |sep| then None
    else if s[..|sep|] == sep then Some(0)
    else match IndexOf(s[1..], sep)
      case None => None
      case Some(k) =>
        assert s[1..][k..k + |sep|] == s[k + 1..k + 1 + |sep|];
        Some(k + 1)
  }

  /** `s.includes(sep)`. */
  predicate Includes(s: string, sep: string) {
    IndexOf(s, sep).Some?
  }

  /** IndexOf finds the least occurrence, and finds none only when there is none. */
  lemma {:induction false} IndexOfLeast(s: string, sep: string)
    ensures IndexOf(s, sep).Some? ==> forall j: nat :: j < IndexOf(s, sep).value ==> !OccursAt(s, sep, j)
    ensures IndexOf(s, sep).None? ==> forall j: nat :: !OccursAt(s, sep, j)
    decreases |s|
  {
    if |s| < |sep| || s[..|sep|] == sep {
    } else {
      IndexOfLeast(s[1..], sep);
      forall j: nat | 0 < j && OccursAt(s, sep, j)
        ensures OccursAt(s[1..], sep, j - 1)
      {
        assert s[1..][j - 1..j - 1 + |sep|] == s[j..j + |sep|];
      }
    }
  }

  /** `s.includes(sep)` holds exactly when `sep` occurs somewhere in `s`. */
  lemma IncludesIff(s: string, sep: string)
    ensures Includes(s, sep) <==> exists i: nat :: OccursAt(s, sep, i)
  {
    IndexOfLeast(s, sep);
    if Includes(s, sep) {
      var k := IndexOf(s, sep).value;
      assert OccursAt(s, sep, k);
    }
  }

  /** A string none of whose characters is the separator's first does not include it. */
  lemma NotIncludedWithoutFirstChar(s: string, sep: string)
    requires |sep| > 0
    requires forall i :: 0 <= i < |s| ==> s[i] != sep[0]
    ensures !Includes(s, sep)
  {
    forall j: nat
      ensures !OccursAt(s, sep, j)
    {
      if j + |sep| <= |s| {
        assert s[j..j + |sep|][0] == s[j];
      }
    }
  }

  /**
   * `s.split(sep)` for a non-empty separator: the pieces between successive
   * non-overlapping occurrences of `sep`, scanned left to right.
   */
  function Split(s: string, sep: string): (parts: seq<string>)
    requires |sep| > 0
    ensures |parts| >= 1
    decreases |s|
  {
    match IndexOf(s, sep)
    case None => [s]
    case Some(j) => [s[..j]] + Split(s[j + |sep|..], sep)
  }

  /** `parts.join(sep)`. */
  function Join(parts: seq<string>, sep: string): string
    decreases |parts|
  {
    if |parts| == 0 then ""
    else if |parts| == 1 then parts[0]
    else parts[0] + sep + Join(parts[1..], sep)
  }

  lemma JoinCons(head: string, tail: seq<string>, sep: string)
    requires |tail| >= 1
    ensures Join([head] + tail, sep) == head + sep + Join(tail, sep)
  {
    assert ([head] + tail)[1..] == tail;
  }

  /** An occurrence cuts the string into what precedes it, the separator, and what follows. */
  lemma OccurrenceSplits(s: string, sep: string, j: nat)
    requires OccursAt(s, sep, j)
    ensures s == s[..j] + sep + s[j + |sep|..]
  {
    assert s == s[..j] + s[j..j + |sep|] + s[j + |sep|..];
  }

  /** Joining the pieces of a split with the separator gives back the string. */
  lemma {:induction false} SplitJoin(s: string, sep: string)
    requires |sep| > 0
    ensures Join(Split(s, sep), sep) == s
    decreases |s|
  {
    if IndexOf(s, sep).Some? {
      var j := IndexOf(s, sep).value;
      var rest := s[j + |sep|..];
      SplitJoin(rest, sep);
      OccurrenceSplits(s, sep, j);
      assert Split(s, sep) == [s[..j]] + Split(rest, sep);
      JoinCons(s[..j], Split(rest, sep), sep);
    } else {
      assert Split(s, sep) == [s];
    }
  }

  /** No piece of a split contains the separator. */
  lemma {:induction false} SplitPiecesFree(s: string, sep: string)
    requires |sep| > 0
    ensures forall k :: 0 <= k < |Split(s, sep)| ==> !Includes(Split(s, sep)[k], sep)
    decreases |s|
  {
    IndexOfLeast(s, sep);
    match IndexOf(s, sep)
    case None =>
    case Some(j) =>
      var rest := s[j + |sep|..];
      SplitPiecesFree(rest, sep);
      forall i: nat | OccursAt(s[..j], sep, i)
        ensures OccursAt(s, sep, i) && i < j
      {
        assert s[..j][i..i + |sep|] == s[i..i + |sep|];
      }
  }

  /** A string splits into two or more pieces exactly when it includes the separator. */
  lemma SplitCount(s: string, sep: string)
    requires |sep| > 0
    ensures |Split(s, sep)| >= 2 <==> Includes(s, sep)
  {
  }

  /** A string that does not include the separator splits into itself alone. */
  lemma SplitFree(s: string, sep: string)
    requires |sep| > 0 && !Includes(s, sep)
    ensures Split(s, sep) == [s]
  {
  }

  /** The first piece of a split is a prefix of the string. */
  lemma SplitFirstIsPrefix(s: string, sep: string)
    requires |sep| > 0
    ensures |Split(s, sep)[0]| <= |s| && Split(s, sep)[0] == s[..|Split(s, sep)[0]|]
  {
  }

  /**
   * Prefixing a string with characters none of which starts the separator
   * cannot create an occurrence of it.
   */
  lemma {:induction false} NotIncludedConcat(x: string, sep: string, y: string)
    requires |sep| > 0
    requires forall i :: 0 <= i < |x| ==> x[i] != sep[0]
    requires !Includes(y, sep)
    ensures !Includes(x + y, sep)
  {
    var s := x + y;
    IndexOfLeast(y, sep);
    forall j: nat
      ensures !OccursAt(s, sep, j)
    {
      if j < |x| {
        if j + |sep| <= |s| {
          assert s[j..j + |sep|][0] == x[j];
        }
      } else if j + |sep| <= |s| {
        assert s[j..j + |sep|] == y[j - |x|..j - |x| + |sep|];
        assert !OccursAt(y, sep, j - |x|);
      }
    }
  }

  /** No proper suffix of `sep` is also a prefix of it. */
  predicate Unbordered(sep: string) {
    forall k :: 0 < k < |sep| ==> sep[k..] != sep[..|sep| - k]
  }

  /**
   * For an unbordered separator, the first occurrence in `x + sep + y` is the
   * one written there, when `x` does not include `sep`.
   */
  lemma {:induction false} IndexOfAfterFree(x: string, sep: string, y: string)
    requires |sep| > 0 && Unbordered(sep) && !Includes(x, sep)
    ensures IndexOf(x + sep + y, sep) == Some(|x|)
  {
    var s := x + sep + y;
    assert s[|x|..|x| + |sep|] == sep;
    assert OccursAt(s, sep, |x|);
    IndexOfLeast(s, sep);
    IndexOfLeast(x, sep);
    forall j: nat | j < |x|
      ensures !OccursAt(s, sep, j)
    {
      if j + |sep| <= |x| {
        assert x[j..j + |sep|] == s[j..j + |sep|];
        assert !OccursAt(x, sep, j);
      } else {
        var k := |x| - j;
        var w := s[j..j + |sep|];
        assert w[k..] == s[|x|..j + |sep|];
        assert s[|x|..j + |sep|] == sep[..|sep| - k];
        assert sep[k..] != sep[..|sep| - k];
        assert w[k..] != sep[k..];
        assert w != sep;
      }
    }
  }

  /** Splitting `x + sep + y`, with `x` free of an unbordered `sep`, peels off `x`. */
  lemma SplitAfterFree(x: string, sep: string, y: string)
    requires |sep| > 0 && Unbordered(sep) && !Includes(x, sep)
    ensures Split(x + sep + y, sep) == [x] + Split(y, sep)
  {
    var s := x + sep + y;
    IndexOfAfterFree(x, sep, y);
    assert s[..|x|] == x;
    assert s[|x| + |sep|..] == y;
  }

  /** `x + sep + y` with neither part containing `sep` splits into exactly `[x, y]`. */
  lemma SplitTwo(s: string, x: string, sep: string, y: string)
    requires |sep| > 0 && Unbordered(sep) && !Includes(x, sep) && !Includes(y, sep)
    requires s == x + sep + y
    ensures Includes(s, sep)
    ensures Split(s, sep) == [x, y]
  {
    SplitAfterFree(x, sep, y);
    SplitFree(y, sep);
    IndexOfAfterFree(x, sep, y);
  }

  /** With `x` and `y` free of `sep`, the first two pieces of `x + sep + y + sep + z` are `x` and `y`. */
  lemma SplitFirstTwo(x: string, sep: string, y: string, z: string)
    requires |sep| > 0 && Unbordered(sep) && !Includes(x, sep) && !Includes(y, sep)
    ensures Includes(x + sep + (y + sep + z), sep)
    ensures |Split(x + sep + (y + sep + z), sep)| >= 2
    ensures Split(x + sep + (y + sep + z), sep)[0] == x
    ensures Split(x + sep + (y + sep + z), sep)[1] == y
  {
    SplitAfterFree(x, sep, y + sep + z);
    SplitAfterFree(y, sep, z);
    IndexOfAfterFree(x, sep, y + sep + z);
  }

  /** A separator-free `x` followed by nothing or by the separator is the first piece. */
  lemma FirstPiece(x: string, sep: string, tail: string)
    requires |sep| > 0 && Unbordered(sep) && !Includes(x, sep)
    requires |tail| == 0 || (|tail| >= |sep| && tail[..|sep|] == sep)
    ensures Split(x + tail, sep)[0] == x
  {
    if |tail| == 0 {
      assert x + tail == x;
      SplitFree(x, sep);
    } else {
      assert x + tail == x + sep + tail[|sep|..];
      SplitAfterFree(x, sep, tail[|sep|..]);
    }
  }

  /** The two separators the core splits on are unbordered. */
  lemma SeparatorsUnbordered()
    ensures Unbordered("to") && Unbordered(" ")
  {
    assert "to"[1..] == "o" && "to"[..1] == "t";
  }

  /** JavaScript white space and line terminators, as `trim` and `parseInt` skip them. */
  predicate IsWhitespace(c: char) {
    || c == '\t' || c == '\n' || c == '\U{000B}' || c == '\U{000C}' || c == '\r'
    || c == ' ' || c == '\U{00A0}' || c == '\U{1680}'
    || ('\U{2000}' <= c <= '\U{200A}')
    || c == '\U{2028}' || c == '\U{2029}' || c == '\U{202F}' || c == '\U{205F}'
    || c == '\U{3000}' || c == '\U{FEFF}'
  }

  predicate AllWhitespace(w: string) {
    forall i :: 0 <= i < |w| ==> IsWhitespace(w[i])
  }

  /**
   * `s.trimStart()`: the suffix of `s` left after dropping its leading white
   * space; it is empty or begins with a non-white-space character.
   */
  function TrimStart(s: string): (t: string)
    ensures |t| <= |s| && t == s[|s| - |t|..]
    ensures AllWhitespace(s[..|s| - |t|])
    ensures |t| > 0 ==> !IsWhitespace(t[0])
    decreases |s|
  {
    if |s| > 0 && IsWhitespace(s[0]) then
      var t := TrimStart(s[1..]);
      assert s[1..][|s[1..]| - |t|..] == s[|s| - |t|..];
      assert s[..|s| - |t|] == [s[0]] + s[1..][..|s[1..]| - |t|];
      WhitespaceCons(s[0], s[1..][..|s[1..]| - |t|]);
      t
    else s
  }

  lemma WhitespaceCons(c: char, w: string)
    requires IsWhitespace(c) && AllWhitespace(w)
    ensures AllWhitespace([c] + w)
  {
    assert forall i :: 0 < i <= |w| ==> ([c] + w)[i] == w[i - 1];
  }

  lemma WhitespaceSnoc(w: string, c: char)
    requires AllWhitespace(w) && IsWhitespace(c)
    ensures AllWhitespace(w + [c])
  {
    assert forall i :: 0 <= i < |w| ==> (w + [c])[i] == w[i];
  }

  /**
   * `s.trimEnd()`: the prefix of `s` left after dropping its trailing white
   * space; it is empty or ends with a non-white-space character.
   */
  function TrimEnd(s: string): (t: string)
    ensures |t| <= |s| && t == s[..|t|]
    ensures AllWhitespace(s[|t|..])
    ensures |t| > 0 ==> !IsWhitespace(t[|t| - 1])
    decreases |s|
  {
    if |s| > 0 && IsWhitespace(s[|s| - 1]) then
      var t := TrimEnd(s[..|s| - 1]);
      assert s[..|s| - 1][..|t|] == s[..|t|];
      assert s[|t|..] == s[..|s| - 1][|t|..] + [s[|s| - 1]];
      WhitespaceSnoc(s[..|s| - 1][|t|..], s[|s| - 1]);
      t
    else s
  }

  /**
   * `s.trim()`: a slice of `s` with only white space around it, which is
   * empty or begins and ends with a non-white-space character.
   */
  function Trim(s: string): (t: string)
    ensures |t| <= |s|
    ensures exists i :: TrimmedAt(s, t, i)
    ensures |t| > 0 ==> !IsWhitespace(t[0]) && !IsWhitespace(t[|t| - 1])
  {
    var u := TrimStart(s);
    var t := TrimEnd(u);
    SliceOfSlice(s, u, t);
    assert |t| > 0 ==> t[0] == u[0];
    t
  }

  /** `t` is the slice of `s` starting at `i`, with only white space before and after it. */
  predicate TrimmedAt(s: string, t: string, i: int) {
    0 <= i <= |s| - |t| && t == s[i..i + |t|] && AllWhitespace(s[..i]) && AllWhitespace(s[i + |t|..])
  }

  /** A prefix `t` of a suffix `u` of `s`, each cut off by white space, is a slice of `s` with white space around it. */
  lemma SliceOfSlice(s: string, u: string, t: string)
    requires |u| <= |s| && u == s[|s| - |u|..] && AllWhitespace(s[..|s| - |u|])
    requires |t| <= |u| && t == u[..|t|] && AllWhitespace(u[|t|..])
    ensures TrimmedAt(s, t, |s| - |u|)
  {
    var i := |s| - |u|;
    assert s[i + |t|..] == u[|t|..];
  }

  /** Trimming a trimmed string changes nothing. */
  lemma TrimIdempotent(s: string)
    ensures Trim(Trim(s)) == Trim(s)
  {
    var t := Trim(s);
    if |t| > 0 {
      TrimFixesClean(t);
    }
  }

  /** A string that neither begins nor ends with white space is its own trim. */
  lemma TrimFixesClean(t: string)
    requires |t| > 0 && !IsWhitespace(t[0]) && !IsWhitespace(t[|t| - 1])
    ensures TrimStart(t) == t && TrimEnd(t) == t && Trim(t) == t
  {
  }

  /** Trimming strips exactly white space around a clean core. */
  lemma {:induction false} TrimAround(w1: string, t: string, w2: string)
    requires AllWhitespace(w1) && AllWhitespace(w2)
    requires |t| > 0 && !IsWhitespace(t[0]) && !IsWhitespace(t[|t| - 1])
    ensures Trim(w1 + t + w2) == t
  {
    TrimStartDropsWhitespace(w1, t + w2);
    assert w1 + t + w2 == w1 + (t + w2);
    TrimEndDropsWhitespace(t, w2);
  }

  lemma {:induction false} TrimStartDropsWhitespace(w: string, u: string)
    requires AllWhitespace(w)
    requires |u| == 0 || !IsWhitespace(u[0])
    ensures TrimStart(w + u) == u
    decreases |w|
  {
    if |w| > 0 {
      assert (w + u)[1..] == w[1..] + u;
      TrimStartDropsWhitespace(w[1..], u);
    }
  }

  lemma {:induction false} TrimEndDropsWhitespace(u: string, w: string)
    requires AllWhitespace(w)
    requires |u| == 0 || !IsWhitespace(u[|u| - 1])
    ensures TrimEnd(u + w) == u
    decreases |w|
  {
    if |w| > 0 {
      assert (u + w)[..|u + w| - 1] == u + w[..|w| - 1];
      TrimEndDropsWhitespace(u, w[..|w| - 1]);
    }
  }
}
