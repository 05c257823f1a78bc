/**
 * The Python `str` operations the scripts use, on `seq<char>`:
 * `isspace`, `strip()`, `split()`, `find`, `split(sep)`, `sep.join(...)`,
 * `replace(old, new)`, `startswith`, `endswith` and `str(n)` for an `int` n >= 0.
 */
module PyStr {

  /**
   * The code points for which `str.isspace()` holds, as inclusive ranges: tab to carriage
   * return, the four separators U+1C..U+1F and the space, NEL, no-break space, the Ogham
   * space mark, U+2000..U+200A, the line and paragraph separators, U+202F, U+205F and U+3000.
   */
  const BlankRanges: seq<(int, int)> :=
    [(0x09, 0x0D), (0x1C, 0x20), (0x85, 0x85), (0xA0, 0xA0), (0x1680, 0x1680),
     (0x2000, 0x200A), (0x2028, 0x2029), (0x202F, 0x202F), (0x205F, 0x205F), (0x3000, 0x3000)]

  /** Whether code point `n` lies in one of the ranges of `BlankRanges` from index `k` on. */
  predicate BlankFrom(n: int, k: nat)
    decreases |BlankRanges| - k
  {
    k < |BlankRanges| && ((BlankRanges[k].0 <= n <= BlankRanges[k].1) || BlankFrom(n, k + 1))
  }

  /** `c.isspace()`: the characters `strip()` and `split()` treat as blanks. */
  predicate IsSpace(c: char) {
    BlankFrom(c as int, 0)
  }

  predicate AllSpace(s: string) {
    forall i :: 0 <= i < |s| ==> IsSpace(s[i])
  }

  predicate NoSpace(s: string) {
    forall i :: 0 <= i < |s| ==> !IsSpace(s[i])
  }

  predicate StartsWith(s: string, prefix: string) {
    |prefix| <= |s| && s[..|prefix|] == prefix
  }

  predicate EndsWith(s: string, suffix: string) {
    |suffix| <= |s| && s[|s| - |suffix|..] == suffix
  }

  /** `s.lstrip()`: the suffix of `s` left after its leading blanks. */
  function TrimStart(s: string): (r: string)
    ensures |r| <= |s| && r == s[|s| - |r|..]
    ensures forall i :: 0 <= i < |s| - |r| ==> IsSpace(s[i])
    ensures r != [] ==> !IsSpace(r[0])
    decreases |s|
  {
    if s != [] && IsSpace(s[0]) then TrimStart(s[1..]) else s
  }

  /** `s.rstrip()`: the prefix of `s` left before its trailing blanks. */
  function TrimEnd(s: string): (r: string)
    ensures |r| <= |s| && r == s[..|r|]
    ensures forall i :: |r| <= i < |s| ==> IsSpace(s[i])
    ensures r != [] ==> !IsSpace(r[|r| - 1])
    decreases |s|
  {
    if s != [] && IsSpace(s[|s| - 1]) then TrimEnd(s[..|s| - 1]) else s
  }

  /** `s.strip()`: the infix of `s` between its leading and its trailing blanks. */
  function Strip(s: string): (r: string)
    ensures r == [] || (!IsSpace(r[0]) && !IsSpace(r[|r| - 1]))
  {
    TrimEnd(TrimStart(s))
  }

  /** What `strip()` removes is blank: `s` is blanks, then the stripped text, then blanks. */
  lemma StripInfix(s: string)
    ensures var r := Strip(s); var k := |s| - |TrimStart(s)|;
      k + |r| <= |s| && r == s[k..k + |r|]
      && (forall i :: 0 <= i < k ==> IsSpace(s[i]))
      && (forall i :: k + |r| <= i < |s| ==> IsSpace(s[i]))
  {
    var t := TrimStart(s);
    var r := TrimEnd(t);
    var k := |s| - |t|;
    assert t == s[k..];
    forall i | k + |r| <= i < |s| ensures IsSpace(s[i]) {
      assert s[i] == t[i - k];
    }
  }

  /** The leading run of non-blank characters of `s`. */
  function Word(s: string): (w: string)
    ensures |w| <= |s| && w == s[..|w|] && NoSpace(w)
    ensures |w| < |s| ==> IsSpace(s[|w|])
    ensures s != [] && !IsSpace(s[0]) ==> w != []
  {
    if s != [] && !IsSpace(s[0]) then [s[0]] + Word(s[1..]) else []
  }

  /** `s.split()`: the maximal runs of non-blank characters, left to right. */
  function SplitWs(s: string): (tokens: seq<string>)
    ensures forall k :: 0 <= k < |tokens| ==> tokens[k] != [] && NoSpace(tokens[k])
    decreases |s|
  {
    var t := TrimStart(s);
    if t == [] then [] else
      var w := Word(t);
      var rest := SplitWs(t[|w|..]);
      TokensCons(w, rest);
      [w] + rest
  }

  lemma TokensCons(w: string, rest: seq<string>)
    requires w != [] && NoSpace(w)
    requires forall k :: 0 <= k < |rest| ==> rest[k] != [] && NoSpace(rest[k])
    ensures forall k :: 0 <= k < |[w] + rest| ==> ([w] + rest)[k] != [] && NoSpace(([w] + rest)[k])
  {
    forall k | 0 <= k < |[w] + rest|
      ensures ([w] + rest)[k] != [] && NoSpace(([w] + rest)[k])
    {
      if k > 0 {
        assert ([w] + rest)[k] == rest[k - 1];
      }
    }
  }

  /** The non-blank characters of `s`, in order. */
  function NonBlanks(s: string): string {
    if s == [] then [] else (if IsSpace(s[0]) then [] else [s[0]]) + NonBlanks(s[1..])
  }

  function Concat(ss: seq<string>): string {
    if ss == [] then [] else ss[0] + Concat(ss[1..])
  }

  lemma {:induction false} NonBlanksAppend(a: string, b: string)
    ensures NonBlanks(a + b) == NonBlanks(a) + NonBlanks(b)
    decreases |a|
  {
    if a == [] {
      assert a + b == b;
    } else {
      assert (a + b)[0] == a[0];
      assert (a + b)[1..] == a[1..] + b;
      NonBlanksAppend(a[1..], b);
    }
  }

  lemma {:induction false} NonBlanksOfBlanks(s: string)
    requires AllSpace(s)
    ensures NonBlanks(s) == []
    decreases |s|
  {
    if s != [] {
      NonBlanksOfBlanks(s[1..]);
    }
  }

  lemma {:induction false} NonBlanksOfWord(s: string)
    requires NoSpace(s)
    ensures NonBlanks(s) == s
    decreases |s|
  {
    if s != [] {
      NonBlanksOfWord(s[1..]);
    }
  }

  /** Leading blanks are not among the non-blanks. */
  lemma {:induction false} NonBlanksOfTrimStart(s: string)
    ensures NonBlanks(TrimStart(s)) == NonBlanks(s)
    decreases |s|
  {
    if s != [] && IsSpace(s[0]) {
      NonBlanksOfTrimStart(s[1..]);
    }
  }

  /** The non-blanks of a text that opens with a non-blank: its first word, then the non-blanks after it. */
  lemma {:induction false} NonBlanksOfWordStart(t: string)
    ensures NonBlanks(t) == Word(t) + NonBlanks(t[|Word(t)|..])
    decreases |t|
  {
    if t != [] && !IsSpace(t[0]) {
      NonBlanksOfWordStart(t[1..]);
      assert t[1..][|Word(t[1..])|..] == t[|Word(t)|..];
    }
  }

  /** `split()` loses no character other than blanks: its tokens, run together, are the non-blanks of `s`. */
  lemma {:induction false} SplitWsKeepsNonBlanks(s: string)
    ensures Concat(SplitWs(s)) == NonBlanks(s)
    decreases |s|
  {
    var t := TrimStart(s);
    NonBlanksOfTrimStart(s);
    if t != [] {
      var w := Word(t);
      var rest := t[|w|..];
      NonBlanksOfWordStart(t);
      SplitWsKeepsNonBlanks(rest);
      var tokens := SplitWs(rest);
      assert SplitWs(s) == [w] + tokens;
      assert ([w] + tokens)[1..] == tokens;
    }
  }

  lemma TrimStartOfBlanks(s: string)
    requires AllSpace(s)
    ensures TrimStart(s) == []
  {
  }

  lemma {:induction false} TrimStartAppend(a: string, b: string)
    requires TrimStart(a) != []
    ensures TrimStart(a + b) == TrimStart(a) + b
    decreases |a|
  {
    assert (a + b)[0] == a[0];
    if IsSpace(a[0]) {
      assert (a + b)[1..] == a[1..] + b;
      assert TrimStart(a) == TrimStart(a[1..]);
      TrimStartAppend(a[1..], b);
    } else {
      assert TrimStart(a) == a;
    }
  }

  lemma {:induction false} WordAppend(a: string, b: string)
    requires |Word(a)| < |a| || b == [] || IsSpace(b[0])
    ensures Word(a + b) == Word(a)
    decreases |a|
  {
    if a != [] && !IsSpace(a[0]) {
      assert (a + b)[1..] == a[1..] + b;
      WordAppend(a[1..], b);
    }
  }

  lemma SliceOfAppend(a: string, b: string, k: nat)
    requires k <= |a|
    ensures (a + b)[k..] == a[k..] + b
  {
  }

  /** Appending keeps a prefix; the appended text is a suffix. */
  lemma PrefixOfAppend(a: string, b: string, c: string)
    requires StartsWith(a, c)
    ensures StartsWith(a + b, c)
  {
    assert (a + b)[..|c|] == a[..|c|];
  }

  lemma SuffixOfAppend(a: string, b: string)
    ensures EndsWith(a + b, b)
  {
    assert (a + b)[|a|..] == b;
  }

  /** Trailing blanks never change the result of `split()`. */
  lemma {:induction false} SplitWsTrailing(x: string, tail: string)
    requires AllSpace(tail)
    ensures SplitWs(x + tail) == SplitWs(x)
    decreases |x|
  {
    var t := TrimStart(x);
    if t == [] {
      assert AllSpace(x + tail) by {
        assert forall i :: 0 <= i < |x| ==> IsSpace(x[i]);
        assert forall i :: 0 <= i < |x| ==> (x + tail)[i] == x[i];
        assert forall i :: |x| <= i < |x + tail| ==> (x + tail)[i] == tail[i - |x|];
      }
      TrimStartOfBlanks(x + tail);
      assert SplitWs(x + tail) == [];
    } else {
      TrimStartAppend(x, tail);
      var w := Word(t);
      assert tail != [] ==> IsSpace(tail[0]);
      WordAppend(t, tail);
      assert w != [];
      SliceOfAppend(t, tail, |w|);
      SplitWsTrailing(t[|w|..], tail);
      assert SplitWs(x + tail) == [w] + SplitWs(t[|w|..] + tail);
    }
  }

  /** Stripping a line before splitting it does not change its tokens. */
  lemma SplitWsOfStrip(s: string)
    ensures SplitWs(Strip(s)) == SplitWs(s)
  {
    var t := TrimStart(s);
    var r := TrimEnd(t);
    assert t == r + t[|r|..];
    SplitWsTrailing(r, t[|r|..]);
    assert TrimStart(t) == t;
  }

  /** Leading blanks are skipped by `lstrip()`. */
  lemma {:induction false} TrimStartLeading(b: string, s: string)
    requires AllSpace(b)
    ensures TrimStart(b + s) == TrimStart(s)
    decreases |b|
  {
    if b != [] {
      assert (b + s)[0] == b[0];
      assert (b + s)[1..] == b[1..] + s;
      TrimStartLeading(b[1..], s);
    } else {
      assert b + s == s;
    }
  }

  /** A run without blanks is one whole word. */
  lemma {:induction false} WordOfRun(w: string)
    requires NoSpace(w)
    ensures Word(w) == w
    decreases |w|
  {
    if w != [] {
      WordOfRun(w[1..]);
      assert w == [w[0]] + w[1..];
    }
  }

  /** Leading blanks never change the result of `split()`. */
  lemma SplitWsLeading(b: string, s: string)
    requires AllSpace(b)
    ensures SplitWs(b + s) == SplitWs(s)
  {
    TrimStartLeading(b, s);
  }

  /** A non-empty run without blanks splits into exactly itself. */
  lemma SplitWsOfRun(w: string)
    requires w != [] && NoSpace(w)
    ensures SplitWs(w) == [w]
  {
    assert TrimStart(w) == w;
    WordOfRun(w);
    assert w[|w|..] == [];
  }

  /**
   * Tokens are maximal: a run without blanks followed by at least one
   * blank is the first token, and `split()` resumes after the blanks.
   */
  lemma SplitWsCons(w: string, b: string, rest: string)
    requires w != [] && NoSpace(w)
    requires b != [] && AllSpace(b)
    ensures SplitWs(w + b + rest) == [w] + SplitWs(rest)
  {
    var tail := b + rest;
    assert w + b + rest == w + tail;
    FirstWord(w, tail);
    assert (w + tail)[|w|..] == tail;
    SplitWsLeading(b, rest);
  }

  /** A run without blanks at the head of a text, ended by a blank or the end, is its first word. */
  lemma FirstWord(w: string, tail: string)
    requires w != [] && NoSpace(w)
    requires tail == [] || IsSpace(tail[0])
    ensures TrimStart(w + tail) == w + tail
    ensures Word(w + tail) == w
  {
    assert (w + tail)[0] == w[0];
    WordOfRun(w);
    WordAppend(w, tail);
  }

  /** `pat` occurs in `s` at index `i`. */
  predicate OccursAt(s: string, pat: string, i: nat) {
    i + |pat| <= |s| && s[i..i + |pat|] == pat
  }

  /** `s.find(pat, start)`: the first index from `start` on where `pat` occurs, or -1. */
  function FindFrom(s: string, pat: string, start: nat): (r: int)
    ensures r == -1 || (start <= r && OccursAt(s, pat, r))
    ensures forall i: nat :: start <= i && (r == -1 || i < r) ==> !OccursAt(s, pat, i)
    decreases |s| - start
  {
    if start + |pat| > |s| then -1
    else if OccursAt(s, pat, start) then start
    else FindFrom(s, pat, start + 1)
  }

  /** `s.find(pat)`. */
  function Find(s: string, pat: string): (r: int)
    ensures r == -1 || (0 <= r && OccursAt(s, pat, r))
    ensures forall i: nat :: (r == -1 || i < r) ==> !OccursAt(s, pat, i)
  {
    FindFrom(s, pat, 0)
  }

  lemma CharOccurs(s: string, c: char, i: nat)
    requires i < |s|
    ensures OccursAt(s, [c], i) <==> s[i] == c
  {
    assert s[i..i + 1] == [s[i]];
  }

  /** For a one-character pattern, `find` fails exactly when the character is absent. */
  lemma FindChar(s: string, c: char)
    ensures Find(s, [c]) == -1 <==> c !in s
  {
    if c in s {
      var i :| 0 <= i < |s| && s[i] == c;
      CharOccurs(s, c, i);
    }
    var r := Find(s, [c]);
    if r != -1 {
      CharOccurs(s, c, r);
      assert s[r] in s;
    }
  }

  /** The text before the first occurrence of `pat` holds no occurrence of it. */
  lemma BeforeFirst(s: string, pat: string)
    requires pat != [] && Find(s, pat) >= 0
    ensures Find(s[..Find(s, pat)], pat) == -1
  {
    var i := Find(s, pat);
    var j := Find(s[..i], pat);
    if j >= 0 {
      assert s[..i][j..j + |pat|] == s[j..j + |pat|];
      assert OccursAt(s, pat, j);
    }
  }

  /** `s.split(sep)` for a non-empty `sep`: the pieces between successive non-overlapping occurrences of `sep`. */
  function SplitOn(s: string, sep: string): (pieces: seq<string>)
    requires sep != []
    ensures |pieces| >= 1
    ensures forall k :: 0 <= k < |pieces| ==> Find(pieces[k], sep) == -1
    decreases |s|
  {
    var i := Find(s, sep);
    if i < 0 then [s] else
      BeforeFirst(s, sep);
      [s[..i]] + SplitOn(s[i + |sep|..], sep)
  }

  /** `sep.join(pieces)`. */
  function JoinWith(pieces: seq<string>, sep: string): string {
    if |pieces| == 0 then []
    else if |pieces| == 1 then pieces[0]
    else pieces[0] + sep + JoinWith(pieces[1..], sep)
  }

  function Last(pieces: seq<string>): string
    requires pieces != []
  {
    pieces[|pieces| - 1]
  }

  /** Splitting on `sep` and joining back with `sep` gives the original text. */
  lemma {:induction false} JoinSplit(s: string, sep: string)
    requires sep != []
    ensures JoinWith(SplitOn(s, sep), sep) == s
    decreases |s|
  {
    var i := Find(s, sep);
    if i >= 0 {
      var rest := s[i + |sep|..];
      var ps := SplitOn(rest, sep);
      JoinSplit(rest, sep);
      assert SplitOn(s, sep) == [s[..i]] + ps;
      assert ([s[..i]] + ps)[1..] == ps;
      assert JoinWith([s[..i]] + ps, sep) == s[..i] + sep + JoinWith(ps, sep);
      assert s[i..i + |sep|] == sep;
      assert s == s[..i] + s[i..i + |sep|] + rest;
    }
  }

  /** `s.split(c)[-1]`: the text after the last `c`, or all of `s` when it has no `c`. */
  lemma {:induction false} LastPieceIsTail(s: string, c: char)
    ensures var r := Last(SplitOn(s, [c]));
      |r| <= |s| && r == s[|s| - |r|..] && c !in r && (|r| < |s| ==> s[|s| - |r| - 1] == c)
    decreases |s|
  {
    var r := Last(SplitOn(s, [c]));
    FindChar(r, c);
    var i := Find(s, [c]);
    if i >= 0 {
      var rest := s[i + 1..];
      LastPieceIsTail(rest, c);
      assert SplitOn(s, [c]) == [s[..i]] + SplitOn(rest, [c]);
      assert r == Last(SplitOn(rest, [c]));
      CharOccurs(s, c, i);
    }
  }

  lemma SuffixAt(s: string, r: string, p: int)
    ensures |r| <= |s| && r == s[|s| - |r|..] && |s| - |r| <= p < |s| ==> r[p - (|s| - |r|)] == s[p]
  {
  }

  /** A name `pre + c + tail` whose `tail` has no `c` splits on `c` with `tail` last. */
  lemma LastPieceAfter(pre: string, c: char, tail: string)
    requires c !in tail
    ensures Last(SplitOn(pre + [c] + tail, [c])) == tail
  {
    var s := pre + [c] + tail;
    var r := Last(SplitOn(s, [c]));
    LastPieceIsTail(s, c);
    var p := |s| - |tail| - 1;
    assert s[p] == c;
    assert tail == s[|s| - |tail|..];
    SuffixAt(s, r, p);
    SuffixAt(s, tail, |s| - |r| - 1);
    assert |r| == |tail|;
    assert r == s[|s| - |tail|..] == tail;
  }

  /** `s.replace(pat, with)` for a non-empty `pat`: every non-overlapping occurrence, left to right, replaced. */
  function Replace(s: string, pat: string, with: string): string
    requires pat != []
    decreases |s|
  {
    var i := Find(s, pat);
    if i < 0 then s else s[..i] + with + Replace(s[i + |pat|..], pat, with)
  }

  /** `replace` is `with.join(s.split(pat))`. */
  lemma {:induction false} ReplaceIsJoinSplit(s: string, pat: string, with: string)
    requires pat != []
    ensures Replace(s, pat, with) == JoinWith(SplitOn(s, pat), with)
    decreases |s|
  {
    var i := Find(s, pat);
    if i >= 0 {
      var rest := s[i + |pat|..];
      ReplaceIsJoinSplit(rest, pat, with);
      assert SplitOn(s, pat) == [s[..i]] + SplitOn(rest, pat);
    }
  }

  /** Every character of the result comes from `s` or from `with`. */
  lemma {:induction false} ReplaceChars(s: string, pat: string, with: string, x: char)
    requires pat != []
    ensures x in Replace(s, pat, with) ==> x in s || x in with
    decreases |s|
  {
    var i := Find(s, pat);
    if i >= 0 {
      var rest := s[i + |pat|..];
      ReplaceChars(rest, pat, with, x);
      if x in s[..i] || x in rest {
        assert x in s;
      }
    }
  }

  /** `s` with every `c` turned into `d`, position by position. */
  function MapChar(s: string, c: char, d: char): (r: string)
    ensures |r| == |s|
  {
    seq(|s|, i requires 0 <= i < |s| => if s[i] == c then d else s[i])
  }

  /** Replacing one character by one character acts position by position. */
  lemma {:induction false} ReplaceCharIsMapChar(s: string, c: char, d: char)
    ensures Replace(s, [c], [d]) == MapChar(s, c, d)
    decreases |s|
  {
    var i := Find(s, [c]);
    if i < 0 {
      FindChar(s, c);
      assert MapChar(s, c, d) == s;
    } else {
      var rest := s[i + 1..];
      ReplaceCharIsMapChar(rest, c, d);
      CharOccurs(s, c, i);
      var r := s[..i] + [d] + MapChar(rest, c, d);
      assert Replace(s, [c], [d]) == r;
      forall j | 0 <= j < |s| ensures r[j] == MapChar(s, c, d)[j] {
        if j < i {
          CharOccurs(s, c, j);
        } else if j > i {
          assert r[j] == MapChar(rest, c, d)[j - i - 1];
        }
      }
      assert r == MapChar(s, c, d);
    }
  }

  /**
   * `(e + tag).replace(tag, "")` gives back `e` when the character at `tag[k]` occurs
   * once in `tag` and never in `e`: no occurrence of `tag` can start inside `e`.
   */
  lemma RemoveTrailingTag(e: string, tag: string, k: nat)
    requires k < |tag|
    requires tag[k] !in e
    requires forall j :: 0 <= j < |tag| && j != k ==> tag[j] != tag[k]
    ensures Replace(e + tag, tag, []) == e
  {
    var s := e + tag;
    assert OccursAt(s, tag, |e|) by {
      assert s[|e|..|e| + |tag|] == tag;
    }
    var i := Find(s, tag);
    assert i == |e|;
    assert s[..i] == e;
    assert s[i + |tag|..] == [];
  }

  function DigitChar(d: nat): (c: char)
    requires d < 10
    ensures '0' <= c <= '9'
  {
    (48 + d) as char
  }

  predicate IsDigits(s: string) {
    forall i :: 0 <= i < |s| ==> '0' <= s[i] <= '9'
  }

  /** `str(n)` for an `int` n >= 0: its decimal digits, most significant first. */
  function Decimal(n: nat): (s: string)
    ensures s != [] && IsDigits(s)
    decreases n
  {
    if n < 10 then [DigitChar(n)] else Decimal(n / 10) + [DigitChar(n % 10)]
  }

  /** `int(s)` for a string of decimal digits. */
  function DecimalValue(s: string): nat
    requires IsDigits(s)
  {
    if s == [] then 0 else DecimalValue(s[..|s| - 1]) * 10 + (s[|s| - 1] as int - 48)
  }

  /** Reading the decimal text of `n` gives back `n`. */
  lemma {:induction false} DecimalRoundTrip(n: nat)
    ensures DecimalValue(Decimal(n)) == n
    decreases n
  {
    if n >= 10 {
      var s := Decimal(n);
      assert s[..|s| - 1] == Decimal(n / 10);
      DecimalRoundTrip(n / 10);
    }
  }

  /** Distinct numbers have distinct decimal texts. */
  lemma DecimalInjective(a: nat, b: nat)
    requires Decimal(a) == Decimal(b)
    ensures a == b
  {
    DecimalRoundTrip(a);
    DecimalRoundTrip(b);
  }
}
