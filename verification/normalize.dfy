/** parse_json (analyze.py:32-48): turns the model's raw output into the text handed
    to the JSON parser, then parses it with a parser supplied by the caller. */
module Normalize {
  import opened Wrappers
  import opened Json
  import opened Text
  import opened Errors

  /** The Markdown code-fence marker. */
  const Fence := "```"

  /** `x` occurs as a contiguous piece of `y`. */
  ghost predicate IsInfix(x: string, y: string) {
    exists k :: IsInfixAt(x, y, k)
  }

  /** `x` occurs in `y` starting at index `k`. */
  predicate IsInfixAt(x: string, y: string, k: int) {
    0 <= k && k + |x| <= |y| && y[k..k + |x|] == x
  }

  lemma InfixAt(x: string, y: string, k: nat)
    requires k + |x| <= |y| && y[k..k + |x|] == x
    ensures IsInfix(x, y)
  {
    assert IsInfixAt(x, y, k);
  }

  lemma InfixTransitive(x: string, y: string, z: string)
    requires IsInfix(x, y) && IsInfix(y, z)
    ensures IsInfix(x, z)
  {
    var i :| IsInfixAt(x, y, i);
    var j :| IsInfixAt(y, z, j);
    assert y[i..i + |x|] == x && z[j..j + |y|] == y;
    assert forall n :: 0 <= n < |x| ==> z[j + i + n] == y[i + n] == x[n];
    assert z[j + i..j + i + |x|] == x;
    InfixAt(x, z, j + i);
  }

  lemma StripIsInfix(s: string)
    ensures IsInfix(Strip(s), s)
  {
    InfixAt(Strip(s), s, ContentStart(s, 0));
  }

  /** Text whose first character is not a backtick does not start with a fence. */
  lemma NoFenceMarker(s: string)
    requires s != [] && s[0] != '`'
    ensures !StartsWith(s, Fence)
  {
    if |s| >= |Fence| {
      assert s[..|Fence|][0] == s[0];
    }
  }

  /** A line that opens or closes a fence: it starts with the marker and is one line. */
  predicate IsFenceLine(line: string) {
    StartsWith(line, Fence) && '\n' !in line
  }

  /** Step 2 (analyze.py:36-39) on the trimmed text `t`: when `t` starts with a fence
      marker and its first and last of at least three lines are fence lines, the
      middle lines are re-joined and trimmed; otherwise `t` is kept. The result is
      always a piece of `t`. */
  function StripFence(t: string): (r: string)
    ensures !StartsWith(t, Fence) ==> r == t
    ensures |SplitLines(t)| < 3 ==> r == t
    ensures IsInfix(r, t)
  {
    if StartsWith(t, Fence) then
      var lines := SplitLines(t);
      if |lines| >= 3 && StartsWith(lines[0], Fence) && StartsWith(lines[|lines| - 1], Fence) then
        var mid := Join(lines[1..|lines| - 1]);
        JoinFrame(lines);
        var j := Join(lines);
        assert t[..|j|] == j;
        assert j[|lines[0]| + 1..|lines[0]| + 1 + |mid|] == mid;
        InfixAt(mid, t, |lines[0]| + 1);
        StripIsInfix(mid);
        InfixTransitive(Strip(mid), mid, t);
        Strip(mid)
      else
        InfixAt(t, t, 0);
        t
    else
      InfixAt(t, t, 0);
      t
  }

  /** Without a closing fence line the text is kept, whatever it starts with. */
  lemma UnclosedFenceIsKept(t: string)
    requires SplitLines(t) != [] && !StartsWith(SplitLines(t)[|SplitLines(t)| - 1], Fence)
    ensures StripFence(t) == t
  {
  }

  /** `t` holds a `{` somewhere before a `}`. */
  predicate HasBracePair(t: string) {
    exists i, j :: 0 <= i < j < |t| && t[i] == '{' && t[j] == '}'
  }

  /** Step 3 (analyze.py:40-44): text that does not start with `{` is cut down to the
      span from its first `{` to its last `}` when that span is non-trivial. */
  function SliceBraces(t: string): (r: string)
    ensures StartsWith(t, "{") ==> r == t
    ensures r != t ==>
      var s := Find(t, '{');
      && 0 <= s && s + |r| <= |t| && t[s..s + |r|] == r
      && |r| >= 2 && r[0] == '{' && r[|r| - 1] == '}'
  {
    if StartsWith(t, "{") then t
    else
      var start := Find(t, '{');
      var end := RFind(t, '}');
      if start != -1 && end != -1 && end > start then
        TrimmedIsFixedPoint(t[start..end + 1]);
        Strip(t[start..end + 1])
      else
        t
  }

  /** When the span exists, the slice is exactly the characters from the first `{`
      through the last `}`: the trailing strip removes nothing. */
  lemma SliceOfSpan(t: string)
    requires !StartsWith(t, "{")
    requires -1 < Find(t, '{') < RFind(t, '}')
    ensures SliceBraces(t) == t[Find(t, '{')..RFind(t, '}') + 1]
  {
    TrimmedIsFixedPoint(t[Find(t, '{')..RFind(t, '}') + 1]);
  }

  lemma SliceIsInfix(t: string)
    ensures IsInfix(SliceBraces(t), t)
  {
    if SliceBraces(t) != t {
      InfixAt(SliceBraces(t), t, Find(t, '{'));
    } else {
      InfixAt(t, t, 0);
    }
  }

  /** Slicing changes the text exactly when it does not start with `{` and some `{`
      comes before some `}`. */
  lemma SliceChangesIffBracePair(t: string)
    ensures SliceBraces(t) != t <==> !StartsWith(t, "{") && HasBracePair(t)
  {
    var start := Find(t, '{');
    var end := RFind(t, '}');
    if !StartsWith(t, "{") && HasBracePair(t) {
      var i, j :| 0 <= i < j < |t| && t[i] == '{' && t[j] == '}';
      assert t[i] in t[..start] || start <= i;
      assert |SliceBraces(t)| < |t|;
    }
  }

  /** The slice is the outermost brace span: from the first `{` to the last `}`. */
  lemma SliceIsOutermostSpan(t: string, i: nat, j: nat)
    requires !StartsWith(t, "{")
    requires i < j < |t| && t[i] == '{' && t[j] == '}'
    requires forall k :: 0 <= k < i ==> t[k] != '{'
    requires forall k :: j < k < |t| ==> t[k] != '}'
    ensures SliceBraces(t) == t[i..j + 1]
  {
    FindIsFirst(t, '{', i);
    RFindIsLast(t, '}', j);
    SliceOfSpan(t);
  }

  /** The string `(payload or "")` whose `strip()` starts parse_json, or the
      AttributeError a truthy non-string raises. */
  function RawText(payload: Json): (r: Result<string, Error>)
    ensures r.Failure? <==> Truthy(payload) && !payload.JStr?
    ensures r.Success? && r.value != [] ==> payload == JStr(r.value)
    ensures payload.JStr? ==> r == Success(payload.s)
    ensures !Truthy(payload) ==> r == Success("")
  {
    if !Truthy(payload) then Success("")
    else if payload.JStr? then Success(payload.s)
    else Failure(NotText)
  }

  /** analyze.py:33-44: the text parse_json hands to `json.loads`. The emptiness check
      happens once, on the trimmed input, before any fence or brace step; what comes
      out is always a contiguous piece of the model's output. */
  function NormalizedText(payload: Json): (r: Result<string, Error>)
    ensures r == Failure(EmptyOutput) <==>
      !Truthy(payload) || (payload.JStr? && AllWhitespace(payload.s))
    ensures r == Failure(NotText) <==> Truthy(payload) && !payload.JStr?
    ensures r.Failure? ==> r.error == EmptyOutput || r.error == NotText
    ensures r.Success? ==> payload.JStr? && IsInfix(r.value, payload.s)
  {
    var raw :- RawText(payload);
    var text := Strip(raw);
    if text == [] then Failure(EmptyOutput)
    else
      var unfenced := StripFence(text);
      var sliced := SliceBraces(unfenced);
      StripIsInfix(raw);
      SliceIsInfix(unfenced);
      InfixTransitive(sliced, unfenced, text);
      InfixTransitive(sliced, text, raw);
      Success(sliced)
  }

  /** parse_json: the normalised text parsed by `parse`, which stands for `json.loads`
      and answers `None` where it would raise JSONDecodeError. */
  function ParseJson(payload: Json, parse: string -> Option<Json>): (r: Result<Json, Error>)
    ensures r.Success? <==> NormalizedText(payload).Success? && parse(NormalizedText(payload).value).Some?
    ensures r.Success? ==> parse(NormalizedText(payload).value) == Some(r.value)
    ensures r == Failure(InvalidJson) <==>
      NormalizedText(payload).Success? && parse(NormalizedText(payload).value).None?
    ensures r.Failure? && r.error != InvalidJson ==> NormalizedText(payload) == Failure(r.error)
  {
    var text :- NormalizedText(payload);
    match parse(text)
    case Some(v) => Success(v)
    case None => Failure(InvalidJson)
  }

  /** The text `open`, `body` and `close` make as three parts of a fenced block. */
  function Fenced(open: string, body: string, close: string): string {
    open + "\n" + body + "\n" + close
  }

  /** The lines of a fenced block are its opening line, the lines of its body and
      its closing line. */
  lemma FencedLines(open: string, body: string, close: string)
    requires IsFenceLine(open) && IsFenceLine(close)
    ensures SplitLines(Fenced(open, body, close)) == [open] + Split(body) + [close]
  {
    var t := Fenced(open, body, close);
    assert t[|t| - 1] == close[|close| - 1];
    assert t == open + "\n" + (body + "\n" + close);
    SplitAround(open, body + "\n" + close);
    SplitAround(body, close);
    SplitSingleLine(open);
    SplitSingleLine(close);
    LinesAssoc([open], Split(body), [close]);
  }

  /** A fenced block loses exactly its fence lines and the whitespace around its body. */
  lemma UnwrapFence(open: string, body: string, close: string)
    requires IsFenceLine(open) && IsFenceLine(close)
    ensures StripFence(Fenced(open, body, close)) == Strip(body)
  {
    var t := Fenced(open, body, close);
    FencedLines(open, body, close);
    var lines := SplitLines(t);
    assert lines[1..|lines| - 1] == Split(body);
    JoinSplit(body);
    assert t[..|Fence|] == open[..|Fence|];
  }

  /** Conversely, trimmed text that fence stripping changes is a fenced block, and
      what remains is its trimmed body. */
  lemma FenceShape(t: string)
    requires Trimmed(t)
    ensures StripFence(t) != t ==>
      var lines := SplitLines(t);
      var body := Join(lines[1..|lines| - 1]);
      && |lines| >= 3
      && IsFenceLine(lines[0]) && IsFenceLine(lines[|lines| - 1])
      && t == Fenced(lines[0], body, lines[|lines| - 1])
      && StripFence(t) == Strip(body)
  {
    if StripFence(t) != t {
      var lines := SplitLines(t);
      assert t[|t| - 1] != '\n';
      JoinFrame(lines);
    }
  }

  /** Non-empty text with nothing to trim goes straight to the fence and brace steps. */
  lemma NormalizeTrimmed(s: string)
    requires Trimmed(s) && s != []
    ensures NormalizedText(JStr(s)) == Success(SliceBraces(StripFence(s)))
  {
    assert RawText(JStr(s)) == Success(s);
    TrimmedIsFixedPoint(s);
  }

  /** The emptiness check runs once, before fence stripping: a fenced block whose body
      is blank reaches the parser as the empty string instead of failing as empty output. */
  lemma BlankFencedBodyReachesParser(open: string, body: string, close: string, parse: string -> Option<Json>)
    requires IsFenceLine(open) && IsFenceLine(close) && Trimmed(close)
    requires AllWhitespace(body)
    ensures NormalizedText(JStr(Fenced(open, body, close))) == Success("")
    ensures ParseJson(JStr(Fenced(open, body, close)), parse)
         == if parse("").Some? then Success(parse("").value) else Failure(InvalidJson)
  {
    var t := Fenced(open, body, close);
    assert t[0] == open[0] && t[|t| - 1] == close[|close| - 1];
    NormalizeTrimmed(t);
    UnwrapFence(open, body, close);
  }

  /** A JSON text wrapped in a fence with a language tag normalises to the same text
      as the bare JSON. */
  lemma FencedTextNormalizesAlike(tag: string, json: string)
    requires '\n' !in tag
    requires Trimmed(json) && json != [] && !StartsWith(json, Fence)
    ensures NormalizedText(JStr(Fenced(Fence + tag, json, Fence))) == NormalizedText(JStr(json))
  {
    var open := Fence + tag;
    var t := Fenced(open, json, Fence);
    assert StripFence(t) == json by {
      assert open[..|Fence|] == Fence;
      UnwrapFence(open, json, Fence);
      TrimmedIsFixedPoint(json);
    }
    assert Trimmed(t) by {
      assert t[0] == open[0] && t[|t| - 1] == '`';
    }
    NormalizeTrimmed(t);
    assert StripFence(json) == json;
    NormalizeTrimmed(json);
  }

  /** Brace slicing of text made of a lead-in, an object and a sign-off keeps the object. */
  lemma SliceProse(pre: string, obj: string, post: string)
    requires pre != [] && pre[0] != '{'
    requires '{' !in pre && '}' !in post
    requires |obj| >= 2 && obj[0] == '{' && obj[|obj| - 1] == '}'
    ensures SliceBraces(pre + obj + post) == obj
  {
    var t := pre + obj + post;
    var i, j := |pre|, |pre| + |obj| - 1;
    assert Find(t, '{') == i by {
      assert forall k :: 0 <= k < i ==> t[k] == pre[k];
      assert t[i] == '{';
      FindIsFirst(t, '{', i);
    }
    assert RFind(t, '}') == j by {
      assert forall k :: j < k < |t| ==> t[k] == post[k - j - 1];
      assert t[j] == '}';
      RFindIsLast(t, '}', j);
    }
    assert !StartsWith(t, "{") by {
      assert t[0] == pre[0];
    }
    SliceOfSpan(t);
    assert t[i..j + 1] == obj;
  }

  /** Prose before and after a JSON object is cut away: the text with a lead-in and a
      sign-off normalises to the object alone, as the bare object does. */
  lemma ProseAroundObjectIsCut(pre: string, obj: string, post: string)
    requires pre != [] && !IsWhitespace(pre[0]) && pre[0] != '`'
    requires '{' !in pre && '}' !in post
    requires post == [] || !IsWhitespace(post[|post| - 1])
    requires |obj| >= 2 && obj[0] == '{' && obj[|obj| - 1] == '}'
    ensures NormalizedText(JStr(pre + obj + post)) == Success(obj)
    ensures NormalizedText(JStr(obj)) == Success(obj)
  {
    ProseIsTrimmed(pre, obj, post);
    TrimmedProseNormalizes(pre, obj, post);
    BareObjectNormalizes(obj);
  }

  lemma ProseIsTrimmed(pre: string, obj: string, post: string)
    requires pre != [] && !IsWhitespace(pre[0])
    requires post == [] || !IsWhitespace(post[|post| - 1])
    requires |obj| >= 2 && obj[|obj| - 1] == '}'
    ensures Trimmed(pre + obj + post)
  {
    var t := pre + obj + post;
    assert t[0] == pre[0];
    assert t[|t| - 1] == if post == [] then obj[|obj| - 1] else post[|post| - 1];
  }

  lemma TrimmedProseNormalizes(pre: string, obj: string, post: string)
    requires pre != [] && pre[0] != '`' && pre[0] != '{'
    requires '{' !in pre && '}' !in post
    requires |obj| >= 2 && obj[0] == '{' && obj[|obj| - 1] == '}'
    requires Trimmed(pre + obj + post)
    ensures NormalizedText(JStr(pre + obj + post)) == Success(obj)
  {
    var t := pre + obj + post;
    assert t[0] == pre[0];
    assert StripFence(t) == t by {
      NoFenceMarker(t);
    }
    assert SliceBraces(t) == obj by {
      SliceProse(pre, obj, post);
    }
    NormalizeTrimmed(t);
  }

  /** Text that starts with an object is never sliced, so a sign-off after the object
      reaches the parser along with it. */
  lemma ObjectThenProseIsKept(obj: string, post: string)
    requires |obj| >= 2 && obj[0] == '{' && obj[|obj| - 1] == '}'
    requires post == [] || !IsWhitespace(post[|post| - 1])
    ensures NormalizedText(JStr(obj + post)) == Success(obj + post)
  {
    var t := obj + post;
    assert Trimmed(t) by {
      assert t[0] == '{' && !IsWhitespace('{') && !IsWhitespace('}');
      assert t[|t| - 1] == if post == [] then obj[|obj| - 1] else post[|post| - 1];
    }
    assert StripFence(t) == t by {
      assert t[0] == '{';
      NoFenceMarker(t);
    }
    assert SliceBraces(t) == t by {
      assert t[..1] == "{";
    }
    NormalizeTrimmed(t);
  }

  /** A bare object normalises to itself. */
  lemma BareObjectNormalizes(obj: string)
    requires |obj| >= 2 && obj[0] == '{' && obj[|obj| - 1] == '}'
    ensures NormalizedText(JStr(obj)) == Success(obj)
  {
    assert Trimmed(obj) by {
      assert !IsWhitespace('{') && !IsWhitespace('}');
    }
    assert StripFence(obj) == obj by {
      NoFenceMarker(obj);
    }
    assert SliceBraces(obj) == obj by {
      assert obj[..1] == "{";
    }
    NormalizeTrimmed(obj);
  }
}
