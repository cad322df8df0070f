/** The JavaScript string operations the signer and the proxy are built from:
    `split`, `join`, `indexOf`, `startsWith` and `replace(/\s/g, "")`. */
module JsText {
  import opened Wrappers

  /** True when no character of `s` is one of `chars`. */
  predicate Free(s: string, chars: set<char>)
  {
    forall i :: 0 <= i < |s| ==> s[i] !in chars
  }

  /** `s.startsWith(prefix)`. */
  predicate StartsWith(s: string, prefix: string)
  {
    |prefix| <= |s| && s[..|prefix|] == prefix
  }

  /** `marker` occurs in `s` at index `k`. */
  predicate MarkerAt(s: string, marker: string, k: nat)
  {
    k + |marker| <= |s| && s[k..k + |marker|] == marker
  }

  /** `s.indexOf(marker, from)`, with `None` for -1: the first occurrence at or after `from`. */
  function IndexOf(s: string, marker: string, from: nat): (r: Option<nat>)
    ensures r.Some? ==> from <= r.value && MarkerAt(s, marker, r.value)
    ensures r.Some? ==> forall k :: from <= k < r.value ==> !MarkerAt(s, marker, k)
    ensures r.None? ==> forall k :: from <= k ==> !MarkerAt(s, marker, k)
    decreases |s| - from
  {
    if from + |marker| > |s| then None
    else if MarkerAt(s, marker, from) then Some(from)
    else IndexOf(s, marker, from + 1)
  }

  /** `s.split(sep)` where the separator is one character, or a one-character
      class such as `/[/?]/`: the maximal runs between separators, in order.
      As in JavaScript, the empty string splits into one empty piece, and
      `s.split(sep, n)` is the first `n` of these pieces. */
  function Split(s: string, seps: set<char>): (pieces: seq<string>)
    ensures |pieces| >= 1
    ensures forall i :: 0 <= i < |pieces| ==> Free(pieces[i], seps)
    decreases |s|
  {
    if s == [] then [""]
    else
      var rest := Split(s[1..], seps);
      if s[0] in seps then [""] + rest
      else
        assert Free(rest[0], seps);
        [[s[0]] + rest[0]] + rest[1..]
  }

  /** `parts.join(sep)`. */
  function Join(parts: seq<string>, sep: string): string
    decreases |parts|
  {
    if |parts| == 0 then ""
    else if |parts| == 1 then parts[0]
    else parts[0] + sep + Join(parts[1..], sep)
  }

  /** A string without separators is a single piece. */
  lemma {:induction false} SplitFree(s: string, seps: set<char>)
    requires Free(s, seps)
    ensures Split(s, seps) == [s]
    decreases |s|
  {
    if s != [] {
      SplitFree(s[1..], seps);
      assert [s[0]] + s[1..] == s;
    }
  }

  /** The first piece is the text before the first separator: a prefix of `s`
      followed by a separator, or all of `s`. */
  lemma {:induction false} SplitFirst(s: string, seps: set<char>)
    ensures StartsWith(s, Split(s, seps)[0])
    ensures |Split(s, seps)[0]| < |s| ==> s[|Split(s, seps)[0]|] in seps
    decreases |s|
  {
    if s != [] && s[0] !in seps {
      SplitFirst(s[1..], seps);
    }
  }

  /** Splitting stops at the first separator. */
  lemma {:induction false} SplitAtSeparator(x: string, c: char, y: string, seps: set<char>)
    requires Free(x, seps) && c in seps
    ensures Split(x + [c] + y, seps) == [x] + Split(y, seps)
    decreases |x|
  {
    if x == [] {
      assert x + [c] + y == [c] + y;
      assert ([c] + y)[1..] == y;
    } else {
      SplitAtSeparator(x[1..], c, y, seps);
      assert (x + [c] + y)[1..] == x[1..] + [c] + y;
      assert [x[0]] + x[1..] == x;
    }
  }

  /** `split` undoes `join` when no part holds the separator. */
  lemma {:induction false} SplitJoin(parts: seq<string>, c: char, seps: set<char>)
    requires |parts| >= 1 && c in seps
    requires forall i :: 0 <= i < |parts| ==> Free(parts[i], seps)
    ensures Split(Join(parts, [c]), seps) == parts
    decreases |parts|
  {
    if |parts| == 1 {
      SplitFree(parts[0], seps);
    } else {
      SplitJoin(parts[1..], c, seps);
      SplitAtSeparator(parts[0], c, Join(parts[1..], [c]), seps);
      assert [parts[0]] + parts[1..] == parts;
    }
  }

  /** Joining a concatenation puts one separator between the two joins. */
  lemma {:induction false} JoinAppend(a: seq<string>, b: seq<string>, sep: string)
    requires |a| >= 1 && |b| >= 1
    ensures Join(a + b, sep) == Join(a, sep) + sep + Join(b, sep)
    decreases |a|
  {
    if |a| == 1 {
      assert (a + b)[1..] == b;
    } else {
      JoinAppend(a[1..], b, sep);
      assert (a + b)[1..] == a[1..] + b;
    }
  }

  /** Joining strings that avoid some characters, with a separator that avoids them too,
      gives a string that avoids them. */
  lemma {:induction false} JoinFree(parts: seq<string>, sep: string, chars: set<char>)
    requires Free(sep, chars)
    requires forall i :: 0 <= i < |parts| ==> Free(parts[i], chars)
    ensures Free(Join(parts, sep), chars)
    decreases |parts|
  {
    if |parts| >= 2 {
      JoinFree(parts[1..], sep, chars);
      var tail := Join(parts[1..], sep);
      assert Join(parts, sep) == parts[0] + sep + tail;
      forall i | 0 <= i < |Join(parts, sep)|
        ensures Join(parts, sep)[i] !in chars
      {
        if i < |parts[0]| {
          assert Join(parts, sep)[i] == parts[0][i];
        } else if i < |parts[0]| + |sep| {
          assert Join(parts, sep)[i] == sep[i - |parts[0]|];
        } else {
          assert Join(parts, sep)[i] == tail[i - |parts[0]| - |sep|];
        }
      }
    }
  }

  /** The characters JavaScript's `\s` matches: the WhiteSpace and LineTerminator
      code points of ECMAScript (tab, line tabulation, form feed, space, no-break
      space, byte order mark, the Unicode space separators, LF, CR, LS and PS). */
  predicate IsWhitespace(c: char)
  {
    var n := c as int;
    n == 0x09 || n == 0x0A || n == 0x0B || n == 0x0C || n == 0x0D || n == 0x20
    || n == 0xA0 || n == 0x1680 || (0x2000 <= n <= 0x200A) || n == 0x2028
    || n == 0x2029 || n == 0x202F || n == 0x205F || n == 0x3000 || n == 0xFEFF
  }

  /** `s.replace(/\s/g, "")`. */
  function StripWhitespace(s: string): (r: string)
    ensures forall i :: 0 <= i < |r| ==> !IsWhitespace(r[i])
    ensures |r| <= |s|
    decreases |s|
  {
    if s == [] then ""
    else if IsWhitespace(s[0]) then StripWhitespace(s[1..])
    else [s[0]] + StripWhitespace(s[1..])
  }

  /** Removing whitespace works piecewise. */
  lemma {:induction false} StripConcat(a: string, b: string)
    ensures StripWhitespace(a + b) == StripWhitespace(a) + StripWhitespace(b)
    decreases |a|
  {
    if a == [] {
      assert a + b == b;
    } else {
      StripConcat(a[1..], b);
      assert (a + b)[1..] == a[1..] + b;
    }
  }

  /** A run of whitespace disappears entirely. */
  lemma {:induction false} StripAllWhitespace(w: string)
    requires forall i :: 0 <= i < |w| ==> IsWhitespace(w[i])
    ensures StripWhitespace(w) == ""
    decreases |w|
  {
    if w != [] {
      StripAllWhitespace(w[1..]);
    }
  }

  /** Text without whitespace is left as it is. */
  lemma {:induction false} StripNoWhitespace(s: string)
    requires forall i :: 0 <= i < |s| ==> !IsWhitespace(s[i])
    ensures StripWhitespace(s) == s
    decreases |s|
  {
    if s != [] {
      StripNoWhitespace(s[1..]);
      assert [s[0]] + s[1..] == s;
    }
  }

  /** The length of the leading run of whitespace of `s`: what `\s*` consumes. */
  function LeadingWhitespace(s: string): (n: nat)
    ensures n <= |s|
    ensures forall i :: 0 <= i < n ==> IsWhitespace(s[i])
    ensures n < |s| ==> !IsWhitespace(s[n])
    decreases |s|
  {
    if s != [] && IsWhitespace(s[0]) then 1 + LeadingWhitespace(s[1..]) else 0
  }
}
