/** The few operations on Rust `str` that the generator relies on, over
    `string` (a sequence of Unicode scalar values). */
module Strings {

  import opened Results

  /** `char::is_whitespace`: the Unicode White_Space property. */
  predicate IsWhitespace(c: char)
  {
    var n := c as int;
    (0x09 <= n <= 0x0D) || n == 0x20 || n == 0x85 || n == 0xA0 || n == 0x1680
    || (0x2000 <= n <= 0x200A) || n == 0x2028 || n == 0x2029 || n == 0x202F
    || n == 0x205F || n == 0x3000
  }

  predicate AllWhitespace(s: string)
  {
    forall i :: 0 <= i < |s| ==> IsWhitespace(s[i])
  }

  /** `str::trim_start`. */
  function TrimStart(s: string): string
  {
    if s != [] && IsWhitespace(s[0]) then TrimStart(s[1..]) else s
  }

  /** `TrimStart` removes exactly the longest whitespace prefix. */
  lemma {:induction false} TrimStartSpec(s: string)
    ensures var r := TrimStart(s);
            |r| <= |s| && r == s[|s| - |r|..] && AllWhitespace(s[..|s| - |r|]) &&
            (r == [] || !IsWhitespace(r[0]))
  {
    if s != [] && IsWhitespace(s[0]) {
      TrimStartSpec(s[1..]);
      var r := TrimStart(s);
      assert s[..|s| - |r|] == [s[0]] + s[1..][..|s| - 1 - |r|];
    }
  }

  /** `str::trim_end`. */
  function TrimEnd(s: string): string
  {
    if s != [] && IsWhitespace(s[|s| - 1]) then TrimEnd(s[..|s| - 1]) else s
  }

  /** `TrimEnd` removes exactly the longest whitespace suffix. */
  lemma {:induction false} TrimEndSpec(s: string)
    ensures var r := TrimEnd(s);
            r <= s && AllWhitespace(s[|r|..]) && (r == [] || !IsWhitespace(r[|r| - 1]))
  {
    if s != [] && IsWhitespace(s[|s| - 1]) {
      TrimEndSpec(s[..|s| - 1]);
      var r := TrimEnd(s);
      assert s[|r|..] == s[..|s| - 1][|r|..] + [s[|s| - 1]];
    }
  }

  /** `str::trim`: `TrimStartSpec` and `TrimEndSpec` together say what it keeps. */
  function Trim(s: string): string
  {
    TrimEnd(TrimStart(s))
  }

  /** Trimming the end of `x + y` never reaches into `x` when `x` ends with a
      non-whitespace character. */
  lemma {:induction false} TrimEndAfter(x: string, y: string)
    requires x != [] && !IsWhitespace(x[|x| - 1])
    ensures TrimEnd(x + y) == x + TrimEnd(y)
    decreases |y|
  {
    if y != [] && IsWhitespace(y[|y| - 1]) {
      assert (x + y)[..|x + y| - 1] == x + y[..|y| - 1];
      TrimEndAfter(x, y[..|y| - 1]);
    } else if y == [] {
      assert x + y == x;
    }
  }

  /** A string that starts and ends with non-whitespace is its own trim. */
  lemma TrimClean(s: string)
    requires s != [] && !IsWhitespace(s[0]) && !IsWhitespace(s[|s| - 1])
    ensures Trim(s) == s
  {
  }

  /** `Trim(x + y)` for a non-empty `x` that starts and ends with non-whitespace. */
  lemma TrimAfter(x: string, y: string)
    requires x != [] && !IsWhitespace(x[0]) && !IsWhitespace(x[|x| - 1])
    ensures Trim(x + y) == x + TrimEnd(y)
  {
    assert (x + y)[0] == x[0];
    TrimEndAfter(x, y);
  }

  predicate EndsWith(s: string, suffix: string)
  {
    |suffix| <= |s| && s[|s| - |suffix|..] == suffix
  }

  /** `suffixes.iter().any(|e| s.ends_with(e))`. */
  predicate EndsWithAny(s: string, suffixes: seq<string>)
  {
    suffixes != [] && (EndsWith(s, suffixes[0]) || EndsWithAny(s, suffixes[1..]))
  }

  lemma {:induction false} EndsWithAnyIn(s: string, suffixes: seq<string>)
    ensures EndsWithAny(s, suffixes) <==> exists e :: e in suffixes && EndsWith(s, e)
  {
    if suffixes != [] {
      EndsWithAnyIn(s, suffixes[1..]);
      assert suffixes == [suffixes[0]] + suffixes[1..];
    }
  }

  /** `char::to_ascii_lowercase`. */
  function AsciiLower(c: char): char
  {
    if 'A' <= c <= 'Z' then (c as int + 32) as char else c
  }

  /** Lower-casing, restricted to the ASCII letters. */
  function ToLower(s: string): (r: string)
    ensures |r| == |s|
  {
    seq(|s|, i requires 0 <= i < |s| => AsciiLower(s[i]))
  }

  lemma ToLowerIdempotent(s: string)
    ensures ToLower(ToLower(s)) == ToLower(s)
  {
  }

  /** Lower-casing distributes over appending an already lower-case suffix. */
  lemma ToLowerAppend(s: string, suffix: string)
    requires ToLower(suffix) == suffix
    ensures ToLower(s + suffix) == ToLower(s) + suffix
  {
    assert forall i :: 0 <= i < |s + suffix| ==> ToLower(s + suffix)[i] == (ToLower(s) + suffix)[i];
  }

  /** Index of the first occurrence of `c` in `s`. */
  function Find(s: string, c: char): (r: Option<nat>)
    ensures r.None? <==> c !in s
    ensures r.Some? ==> r.value < |s| && s[r.value] == c && c !in s[..r.value]
  {
    if s == [] then None
    else if s[0] == c then Some(0)
    else
      match Find(s[1..], c)
      case None => None
      case Some(i) =>
        assert s[1..][..i] == s[1..i + 1];
        Some(i + 1)
  }

  /** Index of the last occurrence of `c` in `s`. */
  function FindLast(s: string, c: char): (r: Option<nat>)
    ensures r.None? <==> c !in s
    ensures r.Some? ==> r.value < |s| && s[r.value] == c && c !in s[r.value + 1..]
  {
    if s == [] then None
    else if s[|s| - 1] == c then Some(|s| - 1)
    else
      match FindLast(s[..|s| - 1], c)
      case None => None
      case Some(i) =>
        assert s[i + 1..] == s[..|s| - 1][i + 1..] + [s[|s| - 1]];
        Some(i)
  }

  /** `str::split_once(c)`: split at the first `c`. */
  function SplitOnce(s: string, c: char): Option<(string, string)>
  {
    match Find(s, c)
    case None => None
    case Some(i) => Some((s[..i], s[i + 1..]))
  }

  /** `SplitOnce` fails exactly when there is no `c`; otherwise it cuts `s`
      around its first `c`. */
  lemma SplitOnceSpec(s: string, c: char)
    ensures var r := SplitOnce(s, c);
            (r.None? <==> c !in s) &&
            (r.Some? ==> s == r.value.0 + [c] + r.value.1 && c !in r.value.0)
  {
    if Find(s, c).Some? {
      var i := Find(s, c).value;
      assert s == s[..i] + [c] + s[i + 1..];
    }
  }

  /** `str::rsplit_once(c)`: split at the last `c`. */
  function RSplitOnce(s: string, c: char): Option<(string, string)>
  {
    match FindLast(s, c)
    case None => None
    case Some(i) => Some((s[..i], s[i + 1..]))
  }

  /** `RSplitOnce` fails exactly when there is no `c`; otherwise it cuts `s`
      around its last `c`. */
  lemma RSplitOnceSpec(s: string, c: char)
    ensures var r := RSplitOnce(s, c);
            (r.None? <==> c !in s) &&
            (r.Some? ==> s == r.value.0 + [c] + r.value.1 && c !in r.value.1)
  {
    if FindLast(s, c).Some? {
      var i := FindLast(s, c).value;
      assert s == s[..i] + [c] + s[i + 1..];
    }
  }

  /** Splitting a string at a `c` that no earlier character equals is what `SplitOnce` does. */
  lemma SplitOnceAt(a: string, c: char, b: string)
    requires c !in a
    ensures SplitOnce(a + [c] + b, c) == Some((a, b))
  {
    var s := a + [c] + b;
    var i := Find(s, c).value;
    assert s[|a|] == c;
    assert i <= |a|;
    assert forall k :: 0 <= k < |a| ==> s[k] == a[k];
    assert s[..i] == a;
    assert s[i + 1..] == b;
  }

  /** Splitting a string at a `c` that no later character equals is what `RSplitOnce` does. */
  lemma RSplitOnceAt(a: string, c: char, b: string)
    requires c !in b
    ensures RSplitOnce(a + [c] + b, c) == Some((a, b))
  {
    var s := a + [c] + b;
    var i := FindLast(s, c).value;
    assert s[|a|] == c;
    assert i >= |a|;
    assert forall k :: |a| < k < |s| ==> s[k] == b[k - |a| - 1];
    assert s[..i] == a;
    assert s[i + 1..] == b;
  }

  /** `[T]::join(sep)`. */
  function Join(xs: seq<string>, sep: string): string
  {
    if |xs| == 0 then []
    else if |xs| == 1 then xs[0]
    else xs[0] + sep + Join(xs[1..], sep)
  }

  lemma JoinPair(a: string, b: string, sep: string)
    ensures Join([a, b], sep) == a + sep + b
  {
    assert [a, b][1..] == [b];
  }

  /** `str::split(c)` collected: the pieces between the occurrences of `c`. */
  function Split(s: string, c: char): (r: seq<string>)
    ensures |r| >= 1
    ensures forall i :: 0 <= i < |r| ==> c !in r[i]
    ensures Join(r, [c]) == s
    decreases |s|
  {
    SplitOnceSpec(s, c);
    match SplitOnce(s, c)
    case None => [s]
    case Some((a, b)) => [a] + Split(b, c)
  }

  /** `Split` undoes `Join` when no piece contains the separator. */
  lemma {:induction false} SplitJoin(xs: seq<string>, c: char)
    requires xs != []
    requires forall i :: 0 <= i < |xs| ==> c !in xs[i]
    ensures Split(Join(xs, [c]), c) == xs
  {
    if |xs| == 1 {
    } else {
      SplitOnceAt(xs[0], c, Join(xs[1..], [c]));
      assert xs[0] + [c] + Join(xs[1..], [c]) == Join(xs, [c]);
      SplitJoin(xs[1..], c);
    }
  }

  /** The last character of a non-empty join is the last character of its last piece. */
  lemma {:induction false} JoinLast(xs: seq<string>, sep: string)
    requires xs != [] && xs[|xs| - 1] != []
    ensures var j := Join(xs, sep); j != [] && j[|j| - 1] == xs[|xs| - 1][|xs[|xs| - 1]| - 1]
  {
    if |xs| > 1 {
      JoinLast(xs[1..], sep);
    }
  }

  /** Every character of a join comes from a piece or from the separator. */
  lemma {:induction false} JoinChars(xs: seq<string>, sep: string, c: char)
    requires c !in sep
    requires forall i :: 0 <= i < |xs| ==> c !in xs[i]
    ensures c !in Join(xs, sep)
  {
    if |xs| > 1 {
      JoinChars(xs[1..], sep, c);
    }
  }
}
