/**
 * Python's `str.strip()`, trimming by any character class, and
 * `str.split(sep)` for a single-character separator, on strings as
 * sequences of Unicode code points.
 */
module PyText {

  /** Python's `str.isspace()` for one character: the ASCII whitespace
      characters, the separators U+001C to U+001F and the Unicode spaces. */
  predicate IsSpace(c: char)
  {
    || c == ' '
    || '\t' <= c <= '\r'
    || '\U{1C}' <= c <= '\U{1F}'
    || c == '\U{85}'
    || c == '\U{A0}'
    || c == '\U{1680}'
    || '\U{2000}' <= c <= '\U{200A}'
    || c == '\U{2028}'
    || c == '\U{2029}'
    || c == '\U{202F}'
    || c == '\U{205F}'
    || c == '\U{3000}'
  }

  /** `s` without its leading characters of the class `space`: `s.lstrip()`
      when the class is `IsSpace`. */
  function TrimLeft(s: string, space: char -> bool): string
  {
    if s != [] && space(s[0]) then TrimLeft(s[1..], space) else s
  }

  /** `s` without its trailing characters of the class `space`: `s.rstrip()`
      when the class is `IsSpace`. */
  function TrimRight(s: string, space: char -> bool): string
  {
    if s != [] && space(s[|s| - 1]) then TrimRight(s[..|s| - 1], space) else s
  }

  /** `TrimLeft` keeps a suffix of `s` that does not start with a character
      of the class, and what it cuts off belongs to the class. */
  lemma {:induction false} TrimLeftSpec(s: string, space: char -> bool)
    ensures |TrimLeft(s, space)| <= |s| && TrimLeft(s, space) == s[|s| - |TrimLeft(s, space)|..]
    ensures TrimLeft(s, space) == [] || !space(TrimLeft(s, space)[0])
    ensures forall i :: 0 <= i < |s| - |TrimLeft(s, space)| ==> space(s[i])
    decreases |s|
  {
    if s != [] && space(s[0]) {
      TrimLeftSpec(s[1..], space);
      forall i | 1 <= i < |s| - |TrimLeft(s, space)| ensures space(s[i]) {
        assert s[i] == s[1..][i - 1];
      }
    }
  }

  /** `TrimRight` keeps a prefix of `s` that does not end in a character of
      the class, and what it cuts off belongs to the class. */
  lemma {:induction false} TrimRightSpec(s: string, space: char -> bool)
    ensures |TrimRight(s, space)| <= |s| && TrimRight(s, space) == s[..|TrimRight(s, space)|]
    ensures TrimRight(s, space) == [] || !space(TrimRight(s, space)[|TrimRight(s, space)| - 1])
    ensures forall i :: |TrimRight(s, space)| <= i < |s| ==> space(s[i])
    decreases |s|
  {
    if s != [] && space(s[|s| - 1]) {
      var init := s[..|s| - 1];
      TrimRightSpec(init, space);
      assert TrimRight(s, space) == init[..|TrimRight(s, space)|];
      forall i | |TrimRight(s, space)| <= i < |s| - 1 ensures space(s[i]) {
        assert s[i] == init[i];
      }
    }
  }

  /** `s` without the characters of the class `space` at either end. */
  function Trim(s: string, space: char -> bool): string
  {
    TrimRight(TrimLeft(s, space), space)
  }

  /** `s.strip()`: `s` without the `isspace()` characters at either end. */
  function Strip(s: string): string
  {
    Trim(s, IsSpace)
  }

  /** What `Trim(s, space)` is: a slice of `s` starting where `TrimLeft`
      starts, and whatever was cut off on either side belongs to the class. */
  lemma TrimIsSlice(s: string, space: char -> bool)
    ensures var r, lo := Trim(s, space), |s| - |TrimLeft(s, space)|;
      && 0 <= lo && lo + |r| <= |s| && r == s[lo..lo + |r|]
      && (forall i :: 0 <= i < lo ==> space(s[i]))
      && (forall i :: lo + |r| <= i < |s| ==> space(s[i]))
  {
    var l := TrimLeft(s, space);
    var r := TrimRight(l, space);
    var lo := |s| - |l|;
    TrimLeftSpec(s, space);
    TrimRightSpec(l, space);
    assert l == s[lo..];
    assert r == l[..|r|];
    forall i | lo + |r| <= i < |s| ensures space(s[i]) {
      assert s[i] == l[i - lo];
    }
  }

  /** The ends of `Trim`'s result are not in the class. */
  lemma TrimEnds(s: string, space: char -> bool)
    ensures Trim(s, space) == [] || (!space(Trim(s, space)[0]) && !space(Trim(s, space)[|Trim(s, space)| - 1]))
  {
    var l := TrimLeft(s, space);
    var r := TrimRight(l, space);
    TrimLeftSpec(s, space);
    TrimRightSpec(l, space);
    if r != [] {
      assert r[0] == l[0];
    }
  }

  /** A string with no character of the class at either end is left alone. */
  lemma TrimNoSpaceEnds(s: string, space: char -> bool)
    requires s == [] || (!space(s[0]) && !space(s[|s| - 1]))
    ensures Trim(s, space) == s
  {
    assert TrimLeft(s, space) == s;
  }

  /** Trimming is idempotent. */
  lemma TrimIdempotent(s: string, space: char -> bool)
    ensures Trim(Trim(s, space), space) == Trim(s, space)
  {
    TrimEnds(s, space);
    TrimNoSpaceEnds(Trim(s, space), space);
  }

  /** Trimming only removes characters, so it adds no character. */
  lemma TrimKeepsOut(s: string, space: char -> bool, c: char)
    requires c !in s
    ensures c !in Trim(s, space)
  {
    TrimIsSlice(s, space);
  }

  /** `Join(parts, sep)` is `sep.join(parts)`. */
  function Join(parts: seq<string>, sep: char): string
    requires |parts| >= 1
  {
    if |parts| == 1 then parts[0] else parts[0] + [sep] + Join(parts[1..], sep)
  }

  /** `s.split(sep)` for a one-character separator: no quoting, no escaping,
      empty pieces kept; `"".split(",")` is `[""]`. The result has one piece
      more than `s` has separators, no piece holds the separator, and joining
      the pieces gives `s` back. */
  function Split(s: string, sep: char): (r: seq<string>)
    ensures |r| == Count(s, sep) + 1
    ensures forall i :: 0 <= i < |r| ==> sep !in r[i]
    ensures Join(r, sep) == s
  {
    if s == [] then [[]]
    else
      var rest := Split(s[1..], sep);
      if s[0] == sep then
        [[]] + rest
      else
        assert rest == [rest[0]] + rest[1..];
        [[s[0]] + rest[0]] + rest[1..]
  }

  /** The number of occurrences of `c` in `s`. */
  function Count(s: string, c: char): nat
  {
    if s == [] then 0 else (if s[0] == c then 1 else 0) + Count(s[1..], c)
  }

  /** Splitting a piece without separators followed by a separator. */
  lemma {:induction false} SplitAfterPiece(p: string, sep: char, rest: string)
    requires sep !in p
    ensures Split(p + [sep] + rest, sep) == [p] + Split(rest, sep)
    decreases |p|
  {
    if p == [] {
      assert p + [sep] + rest == [sep] + rest;
    } else {
      var s := p + [sep] + rest;
      assert s[1..] == p[1..] + [sep] + rest;
      SplitAfterPiece(p[1..], sep, rest);
      assert [p[0]] + p[1..] == p;
    }
  }

  /** `split` undoes `join` when no piece holds the separator. */
  lemma {:induction false} SplitJoin(parts: seq<string>, sep: char)
    requires |parts| >= 1
    requires forall i :: 0 <= i < |parts| ==> sep !in parts[i]
    ensures Split(Join(parts, sep), sep) == parts
    decreases |parts|
  {
    if |parts| == 1 {
      SplitNoSeparator(parts[0], sep);
    } else {
      SplitJoin(parts[1..], sep);
      SplitAfterPiece(parts[0], sep, Join(parts[1..], sep));
    }
  }

  /** A string without the separator splits into itself. */
  lemma {:induction false} SplitNoSeparator(s: string, sep: char)
    requires sep !in s
    ensures Split(s, sep) == [s]
    decreases |s|
  {
    if s != [] {
      SplitNoSeparator(s[1..], sep);
      assert [s[0]] + s[1..] == s;
    }
  }

  /** The index of the first occurrence of `c` in `s`, or `|s|` if there is none. */
  function IndexOf(s: string, c: char): (i: nat)
    ensures i <= |s|
    ensures c !in s[..i]
    ensures i < |s| ==> s[i] == c
  {
    if s == [] then 0
    else if s[0] == c then 0
    else
      var j := IndexOf(s[1..], c);
      assert s[..j + 1] == [s[0]] + s[1..][..j];
      1 + j
  }
}
