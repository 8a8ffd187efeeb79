/** Characters and strings as Python's `str`, `re` and `str` methods see them. */
module Text {

  import opened Wrappers

  /** Python's whitespace set: what `str.isspace`, `str.strip` and the regex class `\s` accept. */
  predicate IsSpace(c: char) {
    || c == ' '
    || '\t' <= c <= '\r'
    || '\U{1C}' <= c <= '\U{1F}'
    || c == '\U{85}' || c == '\U{A0}' || c == '\U{1680}'
    || '\U{2000}' <= c <= '\U{200A}'
    || c == '\U{2028}' || c == '\U{2029}' || c == '\U{202F}' || c == '\U{205F}' || c == '\U{3000}'
  }

  predicate IsAsciiLetter(c: char) {
    'A' <= c <= 'Z' || 'a' <= c <= 'z'
  }

  /** The regex class `\d`, restricted to ASCII digits. */
  predicate IsDigit(c: char) {
    '0' <= c <= '9'
  }

  /** The regex class `[A-Za-z0-9]`. */
  predicate IsAlnum(c: char) {
    IsAsciiLetter(c) || IsDigit(c)
  }

  /** The regex class `\w`, restricted to ASCII: letters, digits and underscore. */
  predicate IsWordChar(c: char) {
    IsAlnum(c) || c == '_'
  }

  /** The regex `.`: any character except a line feed. */
  predicate NotNewline(c: char) {
    c != '\n'
  }

  /** Case folding used by `re.IGNORECASE`, on ASCII letters. */
  function Lower(c: char): (r: char)
    ensures IsAsciiLetter(c) <==> IsAsciiLetter(r)
    ensures !('A' <= r <= 'Z')
  {
    if 'A' <= c <= 'Z' then (c as int + 32) as char else c
  }

  /** `str.upper` on one character, on ASCII letters. */
  function Upper(c: char): (r: char)
    ensures !('a' <= r <= 'z')
    ensures Lower(r) == Lower(c)
  {
    if 'a' <= c <= 'z' then (c as int - 32) as char else c
  }

  /** `str.upper` on a string: changes only the case of letters. */
  function UpperStr(s: string): (r: string)
    ensures |r| == |s|
    ensures forall k :: 0 <= k < |s| ==> r[k] == Upper(s[k])
  {
    seq(|s|, k requires 0 <= k < |s| => Upper(s[k]))
  }

  /** The keyword `w` occurs at position `i` of `s`, ignoring ASCII case. */
  predicate CiAt(s: string, i: nat, w: string) {
    i + |w| <= |s| && forall t :: 0 <= t < |w| ==> Lower(s[i + t]) == Lower(w[t])
  }

  /** `needle` occurs somewhere in `hay`, ignoring ASCII case. */
  ghost predicate ContainsCi(hay: string, needle: string) {
    exists k: nat :: CiAt(hay, k, needle)
  }

  /** The first position at or after `from` where `needle` occurs in `hay`, ignoring case. */
  function IndexOfCi(hay: string, needle: string, from: nat): (r: Option<nat>)
    decreases |hay| - from
    ensures r.Some? ==> from <= r.value && CiAt(hay, r.value, needle)
    ensures r.None? ==> forall k: nat :: from <= k ==> !CiAt(hay, k, needle)
  {
    if from + |needle| > |hay| then None
    else if CiAt(hay, from, needle) then Some(from)
    else IndexOfCi(hay, needle, from + 1)
  }

  /** Executable form of `ContainsCi`. */
  function HasSubstringCi(hay: string, needle: string): (b: bool)
    ensures b <==> ContainsCi(hay, needle)
  {
    IndexOfCi(hay, needle, 0).Some?
  }

  predicate AllSpace(s: string) {
    forall k :: 0 <= k < |s| ==> IsSpace(s[k])
  }

  /** No whitespace at either end. */
  predicate IsTrimmed(s: string) {
    |s| == 0 || (!IsSpace(s[0]) && !IsSpace(s[|s| - 1]))
  }

  function TrimStart(s: string): (r: string)
    ensures |r| <= |s| && r == s[|s| - |r|..]
    ensures AllSpace(s[..|s| - |r|])
    ensures |r| == 0 || !IsSpace(r[0])
  {
    if |s| > 0 && IsSpace(s[0]) then TrimStart(s[1..]) else s
  }

  function TrimEnd(s: string): (r: string)
    ensures |r| <= |s| && r == s[..|r|]
    ensures AllSpace(s[|r|..])
    ensures |r| == 0 || !IsSpace(r[|r| - 1])
  {
    if |s| > 0 && IsSpace(s[|s| - 1]) then
      var p := s[..|s| - 1];
      var r := TrimEnd(p);
      assert s[..|r|] == p[..|r|];
      assert s[|r|..] == p[|r|..] + [s[|s| - 1]];
      r
    else s
  }

  /** `str.strip()`: drops the whitespace at both ends. */
  function Trim(s: string): (r: string)
    ensures IsTrimmed(r)
  {
    TrimEnd(TrimStart(s))
  }

  /** What `strip` keeps is the middle of the text, between two runs of whitespace. */
  lemma TrimKeepsMiddle(s: string)
    ensures exists a: nat :: a + |Trim(s)| <= |s| && Trim(s) == s[a..a + |Trim(s)|]
                             && AllSpace(s[..a]) && AllSpace(s[a + |Trim(s)|..])
  {
    TrimParts(s, TrimStart(s), Trim(s));
  }

  lemma TrimParts(s: string, t: string, r: string)
    requires |t| <= |s| && t == s[|s| - |t|..] && AllSpace(s[..|s| - |t|])
    requires |r| <= |t| && r == t[..|r|] && AllSpace(t[|r|..])
    ensures exists a: nat :: a + |r| <= |s| && r == s[a..a + |r|]
                             && AllSpace(s[..a]) && AllSpace(s[a + |r|..])
  {
    var a := |s| - |t|;
    assert s[a + |r|..] == t[|r|..];
    assert r == s[a..a + |r|] && AllSpace(s[..a]) && AllSpace(s[a + |r|..]);
  }

  lemma {:induction false} TrimStartKeepsLastChar(x: string)
    requires |x| > 0 && !IsSpace(x[|x| - 1])
    ensures |TrimStart(x)| > 0 && TrimStart(x)[|TrimStart(x)| - 1] == x[|x| - 1]
  {
    if IsSpace(x[0]) {
      TrimStartKeepsLastChar(x[1..]);
    }
  }

  /** Text that ends in a non-space character keeps at least that character when stripped. */
  lemma TrimKeepsLastChar(x: string)
    requires |x| > 0 && !IsSpace(x[|x| - 1])
    ensures Trim(x) != ""
  {
    TrimStartKeepsLastChar(x);
  }

  /** `sep.join(xs)`. */
  function Join(xs: seq<string>, sep: string): string {
    if |xs| == 0 then ""
    else if |xs| == 1 then xs[0]
    else xs[0] + sep + Join(xs[1..], sep)
  }

  /** A character that is in neither the pieces nor the separator is not in the joined string. */
  lemma {:induction false} JoinAvoids(xs: seq<string>, sep: string, c: char)
    requires c !in sep
    requires forall k :: 0 <= k < |xs| ==> c !in xs[k]
    ensures c !in Join(xs, sep)
    decreases |xs|
  {
    if |xs| > 1 {
      JoinAvoids(xs[1..], sep, c);
    }
  }

  lemma {:induction false} JoinStartsWithFirst(xs: seq<string>, sep: string)
    requires |xs| > 0
    ensures |Join(xs, sep)| >= |xs[0]|
  {
  }

  /** Whether a keyword occurs at a position does not depend on the keyword's case. */
  lemma CiAtIgnoresCase(s: string, i: nat, w1: string, w2: string)
    requires |w1| == |w2|
    requires forall k :: 0 <= k < |w1| ==> Lower(w1[k]) == Lower(w2[k])
    ensures CiAt(s, i, w1) <==> CiAt(s, i, w2)
  {
  }

  /** `s.split(c)` for a one-character separator: the pieces between the separators. */
  function Split(s: string, c: char): (r: seq<string>)
    ensures |r| > 0
  {
    if |s| == 0 then [""]
    else if s[0] == c then [""] + Split(s[1..], c)
    else
      var rest := Split(s[1..], c);
      [[s[0]] + rest[0]] + rest[1..]
  }

  lemma {:induction false} SplitPiece(x: string, c: char, tail: string)
    requires c !in x
    ensures Split(x + tail, c) == [x + Split(tail, c)[0]] + Split(tail, c)[1..]
    decreases |x|
  {
    if |x| > 0 {
      assert (x + tail)[0] == x[0];
      assert (x + tail)[1..] == x[1..] + tail;
      SplitPiece(x[1..], c, tail);
      assert [x[0]] + (x[1..] + Split(tail, c)[0]) == x + Split(tail, c)[0];
    } else {
      var r := Split(tail, c);
      assert x + tail == tail;
      assert x + r[0] == r[0];
      assert r == [r[0]] + r[1..];
    }
  }

  /** Splitting a joined sequence of lines gives the lines back, when no line holds the separator. */
  lemma {:induction false} SplitJoin(xs: seq<string>, c: char)
    requires |xs| > 0
    requires forall k :: 0 <= k < |xs| ==> c !in xs[k]
    ensures Split(Join(xs, [c]), c) == xs
    decreases |xs|
  {
    if |xs| == 1 {
      SplitPiece(xs[0], c, "");
      assert xs[0] + "" == xs[0];
      assert Split("", c) == [""];
      assert xs == [xs[0]];
    } else {
      var rest := Join(xs[1..], [c]);
      SplitJoin(xs[1..], c);
      assert Join(xs, [c]) == xs[0] + ([c] + rest);
      SplitPiece(xs[0], c, [c] + rest);
      assert ([c] + rest)[0] == c;
      assert ([c] + rest)[1..] == rest;
      assert Split([c] + rest, c) == [""] + Split(rest, c);
      assert xs[0] + "" == xs[0];
      assert xs == [xs[0]] + xs[1..];
    }
  }

  /** Python's `<=` on strings: lexicographic by code point. */
  predicate LexLe(a: string, b: string)
    decreases |a|
  {
    |a| == 0 || (|b| > 0 && (a[0] < b[0] || (a[0] == b[0] && LexLe(a[1..], b[1..]))))
  }

  lemma {:induction false} LexLeTotal(a: string, b: string)
    ensures LexLe(a, b) || LexLe(b, a)
    decreases |a|
  {
    if |a| > 0 && |b| > 0 && a[0] == b[0] {
      LexLeTotal(a[1..], b[1..]);
    }
  }

  lemma {:induction false} LexLeTransitive(a: string, b: string, c: string)
    requires LexLe(a, b) && LexLe(b, c)
    ensures LexLe(a, c)
    decreases |a|
  {
    if |a| > 0 && a[0] == b[0] && b[0] == c[0] {
      LexLeTransitive(a[1..], b[1..], c[1..]);
    }
  }

  lemma {:induction false} LexLeAntisymmetric(a: string, b: string)
    requires LexLe(a, b) && LexLe(b, a)
    ensures a == b
    decreases |a|
  {
    if |a| > 0 {
      LexLeAntisymmetric(a[1..], b[1..]);
      assert a == [a[0]] + a[1..];
      assert b == [b[0]] + b[1..];
    }
  }
}
