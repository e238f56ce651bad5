/** The Python string operations that parse_json relies on: `strip`, `startswith`,
    `find`, `rfind`, `splitlines` and `"\n".join`. */
module Text {

  /** Python's `str.isspace` for one code point: the characters `str.strip()` removes. */
  predicate IsWhitespace(c: char) {
    || c == ' ' || c == '\t' || c == '\n' || c == '\r'
    || c == '\U{0B}' || c == '\U{0C}'
    || ('\U{1C}' <= c <= '\U{1F}')
    || c == '\U{85}' || c == '\U{A0}' || c == '\U{1680}'
    || ('\U{2000}' <= c <= '\U{200A}')
    || c == '\U{2028}' || c == '\U{2029}' || c == '\U{202F}' || c == '\U{205F}'
    || c == '\U{3000}'
  }

  predicate AllWhitespace(s: string) {
    forall i :: 0 <= i < |s| ==> IsWhitespace(s[i])
  }

  /** Neither end of `s` is whitespace: `s` is what `strip` leaves alone. */
  predicate Trimmed(s: string) {
    s == [] || (!IsWhitespace(s[0]) && !IsWhitespace(s[|s| - 1]))
  }

  /** The index of the first non-whitespace character of `s` at or after `i`, or
      `|s|` when there is none. */
  function ContentStart(s: string, i: nat): (r: nat)
    requires i <= |s|
    ensures i <= r <= |s|
    ensures forall j :: i <= j < r ==> IsWhitespace(s[j])
    ensures r == |s| || !IsWhitespace(s[r])
    decreases |s| - i
  {
    if i < |s| && IsWhitespace(s[i]) then ContentStart(s, i + 1) else i
  }

  /** The index just past the last non-whitespace character of `s` in `[lo, e)`, or
      `lo` when there is none. */
  function ContentEnd(s: string, lo: nat, e: nat): (r: nat)
    requires lo <= e <= |s|
    ensures lo <= r <= e
    ensures forall j :: r <= j < e ==> IsWhitespace(s[j])
    ensures r == lo || !IsWhitespace(s[r - 1])
    decreases e
  {
    if e > lo && IsWhitespace(s[e - 1]) then ContentEnd(s, lo, e - 1) else e
  }

  /** `s.strip()`: the infix of `s` left once whitespace is removed from both ends. */
  function Strip(s: string): (r: string)
    ensures Trimmed(r)
    ensures r == [] <==> AllWhitespace(s)
    ensures var k := ContentStart(s, 0);
      && k + |r| <= |s| && s[k..k + |r|] == r
      && (forall j :: 0 <= j < k ==> IsWhitespace(s[j]))
      && (forall j :: k + |r| <= j < |s| ==> IsWhitespace(s[j]))
  {
    var a := ContentStart(s, 0);
    var b := ContentEnd(s, a, |s|);
    s[a..b]
  }

  lemma TrimmedIsFixedPoint(s: string)
    requires Trimmed(s)
    ensures Strip(s) == s
  {
  }

  /** `strip` is idempotent. */
  lemma StripIdempotent(s: string)
    ensures Strip(Strip(s)) == Strip(s)
  {
    TrimmedIsFixedPoint(Strip(s));
  }

  /** `s.startswith(p)`. */
  predicate StartsWith(s: string, p: string) {
    |p| <= |s| && s[..|p|] == p
  }

  /** The index of the first `c` in `s` at or after `i`, or -1 when there is none. */
  function FindFrom(s: string, c: char, i: nat): (r: int)
    requires i <= |s|
    ensures r == -1 || i <= r < |s|
    ensures r == -1 ==> forall j :: i <= j < |s| ==> s[j] != c
    ensures r >= 0 ==> s[r] == c && forall j :: i <= j < r ==> s[j] != c
    decreases |s| - i
  {
    if i == |s| then -1
    else if s[i] == c then i
    else FindFrom(s, c, i + 1)
  }

  /** `s.find(c)`: the index of the first `c`, or -1 when `c` does not occur. */
  function Find(s: string, c: char): (r: int)
    ensures -1 <= r < |s|
    ensures r == -1 <==> c !in s
    ensures r >= 0 ==> s[r] == c && forall j :: 0 <= j < r ==> s[j] != c
  {
    FindFrom(s, c, 0)
  }

  /** The index of the last `c` in `s` before index `e`, or -1 when there is none. */
  function RFindBefore(s: string, c: char, e: nat): (r: int)
    requires e <= |s|
    ensures -1 <= r < e
    ensures forall j :: r < j < e ==> s[j] != c
    ensures r >= 0 ==> s[r] == c
    decreases e
  {
    if e == 0 then -1
    else if s[e - 1] == c then e - 1
    else RFindBefore(s, c, e - 1)
  }

  /** `s.rfind(c)`: the index of the last `c`, or -1 when `c` does not occur. */
  function RFind(s: string, c: char): (r: int)
    ensures -1 <= r < |s|
    ensures r == -1 <==> c !in s
    ensures r >= 0 ==> s[r] == c && forall j :: r < j < |s| ==> s[j] != c
  {
    RFindBefore(s, c, |s|)
  }

  /** `"\n".join(lines)`. */
  function Join(lines: seq<string>): string {
    if |lines| == 0 then ""
    else if |lines| == 1 then lines[0]
    else lines[0] + "\n" + Join(lines[1..])
  }

  /** The first line comes first in the join, and the join holds a line break exactly
      when there are two or more single lines to join. */
  lemma JoinShape(lines: seq<string>)
    requires lines != []
    ensures |lines[0]| <= |Join(lines)| && Join(lines)[..|lines[0]|] == lines[0]
    ensures SingleLines(lines) ==> ('\n' in Join(lines) <==> |lines| >= 2)
  {
    if |lines| >= 2 {
      assert Join(lines)[|lines[0]|] == '\n';
    }
  }

  /** No line holds a line break. */
  predicate SingleLines(lines: seq<string>) {
    forall i :: 0 <= i < |lines| ==> '\n' !in lines[i]
  }

  /** `s.split("\n")`: the pieces between line breaks, always at least one. */
  function Split(s: string): (lines: seq<string>)
    ensures |lines| >= 1
  {
    if s == [] then [""]
    else
      var rest := Split(s[1..]);
      if s[0] == '\n' then [""] + rest
      else [[s[0]] + rest[0]] + rest[1..]
  }

  /** `s.splitlines()` with `\n` as the only line boundary: like `split("\n")`,
      except that the empty string has no lines and a final line break does not
      start a new line. */
  function SplitLines(s: string): (lines: seq<string>)
    ensures lines == [] <==> s == []
    ensures SingleLines(lines)
    ensures lines != [] ==> Join(lines) + (if s[|s| - 1] == '\n' then "\n" else "") == s
  {
    if s == [] then []
    else if s[|s| - 1] == '\n' then
      var body := s[..|s| - 1];
      JoinSplit(body);
      SplitSingleLines(body);
      assert s == body + "\n";
      Split(body)
    else
      JoinSplit(s);
      SplitSingleLines(s);
      Split(s)
  }

  lemma SplitUnfold(s: string)
    requires s != []
    ensures s[0] == '\n' ==> Split(s) == [""] + Split(s[1..])
    ensures s[0] != '\n' ==> Split(s) == [[s[0]] + Split(s[1..])[0]] + Split(s[1..])[1..]
  {
  }

  /** The pieces of a split hold no line break. */
  lemma {:induction false} SplitSingleLines(s: string)
    ensures SingleLines(Split(s))
  {
    if s != [] {
      SplitSingleLines(s[1..]);
      SplitUnfold(s);
      var rest := Split(s[1..]);
      if s[0] != '\n' {
        assert '\n' !in rest[0];
        assert '\n' !in [s[0]] + rest[0];
      }
    }
  }

  lemma JoinUnfold(lines: seq<string>)
    requires |lines| >= 2
    ensures Join(lines) == lines[0] + "\n" + Join(lines[1..])
  {
  }

  lemma ConcatAssoc(x: string, y: string, z: string)
    ensures (x + y) + z == x + (y + z)
  {
  }

  lemma LinesAssoc(x: seq<string>, y: seq<string>, z: seq<string>)
    ensures (x + y) + z == x + (y + z)
  {
  }

  lemma JoinCons(line: string, lines: seq<string>)
    requires |lines| >= 1
    ensures Join([line] + lines) == line + "\n" + Join(lines)
  {
    assert ([line] + lines)[1..] == lines;
  }

  /** Prepending text to the first line prepends it to the joined text. */
  lemma JoinExtendFirst(x: string, lines: seq<string>)
    requires |lines| >= 1
    ensures Join([x + lines[0]] + lines[1..]) == x + Join(lines)
  {
    var first, tail := lines[0], lines[1..];
    var extended := [x + first] + tail;
    assert extended[0] == x + first && extended[1..] == tail;
    if tail != [] {
      JoinUnfold(extended);
      JoinUnfold(lines);
      ConcatAssoc(x, first, "\n" + Join(tail));
      ConcatAssoc(x + first, "\n", Join(tail));
      ConcatAssoc(first, "\n", Join(tail));
    }
  }

  /** Joining the pieces of a split gives the text back. */
  lemma {:induction false} JoinSplit(s: string)
    ensures Join(Split(s)) == s
  {
    if s != [] {
      var rest := Split(s[1..]);
      JoinSplit(s[1..]);
      SplitUnfold(s);
      if s[0] == '\n' {
        JoinCons("", rest);
      } else {
        JoinExtendFirst([s[0]], rest);
      }
      assert s == [s[0]] + s[1..];
    }
  }

  /** A text without line breaks is a single line. */
  lemma {:induction false} SplitSingleLine(s: string)
    requires '\n' !in s
    ensures Split(s) == [s]
  {
    if s != [] {
      SplitSingleLine(s[1..]);
      SplitUnfold(s);
      assert s == [s[0]] + s[1..];
    }
  }

  /** A line break splits a text into the lines before it and the lines after it. */
  lemma {:induction false} SplitAround(a: string, b: string)
    ensures Split(a + "\n" + b) == Split(a) + Split(b)
  {
    if a == [] {
      var s := a + "\n" + b;
      assert s != [] && s[0] == '\n' && s[1..] == b;
      SplitUnfold(s);
    } else {
      SplitAround(a[1..], b);
      SplitAroundStep(a, b);
    }
  }

  /** One step of `SplitAround`: the claim for `a` follows from the claim for `a[1..]`. */
  lemma SplitAroundStep(a: string, b: string)
    requires a != []
    requires Split(a[1..] + "\n" + b) == Split(a[1..]) + Split(b)
    ensures Split(a + "\n" + b) == Split(a) + Split(b)
  {
    var s := a + "\n" + b;
    assert s != [] && s[0] == a[0] && s[1..] == a[1..] + "\n" + b;
    SplitUnfold(s);
    SplitUnfold(a);
    if a[0] != '\n' {
      ExtendFirstLine(a[0], Split(a[1..]), Split(b));
    } else {
      LinesAssoc([""], Split(a[1..]), Split(b));
    }
  }

  lemma ExtendFirstLine(c: char, lower: seq<string>, upper: seq<string>)
    requires |lower| >= 1
    ensures [[c] + (lower + upper)[0]] + (lower + upper)[1..] == ([[c] + lower[0]] + lower[1..]) + upper
  {
    var both := lower + upper;
    assert both[0] == lower[0];
    assert both[1..] == lower[1..] + upper;
    LinesAssoc([[c] + lower[0]], lower[1..], upper);
  }

  /** Splitting joined single lines gives the lines back. */
  lemma {:induction false} SplitJoin(lines: seq<string>)
    requires |lines| >= 1
    requires SingleLines(lines)
    ensures Split(Join(lines)) == lines
  {
    SplitSingleLine(lines[0]);
    if |lines| > 1 {
      JoinUnfold(lines);
      SplitAround(lines[0], Join(lines[1..]));
      SplitJoin(lines[1..]);
      assert lines == [lines[0]] + lines[1..];
    }
  }

  /** `Join` distributes over concatenation of two non-empty line lists. */
  lemma {:induction false} JoinAppend(xs: seq<string>, ys: seq<string>)
    requires |xs| >= 1 && |ys| >= 1
    ensures Join(xs + ys) == Join(xs) + "\n" + Join(ys)
    decreases |xs|
  {
    if |xs| == 1 {
      JoinCons(xs[0], ys);
      assert xs + ys == [xs[0]] + ys;
    } else {
      var rest := xs[1..];
      assert xs + ys == [xs[0]] + (rest + ys);
      JoinCons(xs[0], rest + ys);
      JoinAppend(rest, ys);
      JoinUnfold(xs);
      ConcatAssoc(xs[0] + "\n", Join(rest), "\n" + Join(ys));
    }
  }

  lemma SeqFrame<T>(xs: seq<T>)
    requires |xs| >= 2
    ensures xs == [xs[0]] + (xs[1..|xs| - 1] + [xs[|xs| - 1]])
  {
  }

  /** Three or more lines are the first line, the middle lines and the last line. */
  lemma JoinFrame(lines: seq<string>)
    requires |lines| >= 3
    ensures Join(lines) == lines[0] + "\n" + Join(lines[1..|lines| - 1]) + "\n" + lines[|lines| - 1]
  {
    var first, mid, last := lines[0], lines[1..|lines| - 1], lines[|lines| - 1];
    var rest := mid + [last];
    SeqFrame(lines);
    JoinCons(first, rest);
    JoinAppend(mid, [last]);
    assert Join([last]) == last;
    var m := Join(mid);
    ConcatAssoc(first + "\n", m + "\n", last);
    ConcatAssoc(first + "\n", m, "\n");
    ConcatAssoc(first, "\n", m + "\n" + last);
  }

  /** `Find` answers `i` exactly when `c` is at `i` and nowhere before it. */
  lemma FindIsFirst(s: string, c: char, i: nat)
    requires i < |s| && s[i] == c
    requires forall j :: 0 <= j < i ==> s[j] != c
    ensures Find(s, c) == i
  {
  }

  /** `RFind` answers `i` exactly when `c` is at `i` and nowhere after it. */
  lemma RFindIsLast(s: string, c: char, i: nat)
    requires i < |s| && s[i] == c
    requires forall j :: i < j < |s| ==> s[j] != c
    ensures RFind(s, c) == i
  {
  }
}
