/** app/postprocess.py: removing the markdown code fence that a language
    model tends to wrap its answer in. */
module Postprocess {
  import opened Text

  /** The tag class `[a-zA-Z0-9_+-]` of the opening fence. */
  predicate IsTagChar(c: char)
  {
    ('a' <= c <= 'z') || ('A' <= c <= 'Z') || ('0' <= c <= '9') || c == '_' || c == '+' || c == '-'
  }

  predicate AllTag(t: string)
  {
    forall i :: 0 <= i < |t| ==> IsTagChar(t[i])
  }

  /** The opening part `^```[a-zA-Z0-9_+-]*\n` of the pattern: the index just
      past its newline, if `s` starts with it. The greedy tag run cannot be
      shortened to reach a newline, since every shorter run is followed by a
      tag character; so the match exists exactly when the maximal run is
      followed by a newline. */
  function OpenFenceEnd(s: string): (r: Option<nat>)
    ensures r.Some? <==> "```" <= s && exists k :: 3 <= k < |s| && s[k] == '\n' && AllTag(s[3..k])
    ensures r.Some? ==> 4 <= r.value <= |s| && s[r.value - 1] == '\n' && AllTag(s[3..r.value - 1])
  {
    if |s| >= 3 && s[..3] == "```" then
      var k := 3 + LeadCount(s[3..], IsTagChar);
      if k < |s| && s[k] == '\n' then
        assert AllTag(s[3..k]) by {
          assert forall i :: 0 <= i < k - 3 ==> s[3..k][i] == s[3..][i];
        }
        Some(k + 1)
      else
        assert !exists k' :: 3 <= k' < |s| && s[k'] == '\n' && AllTag(s[3..k']) by {
          forall k' | 3 <= k' < |s| && s[k'] == '\n'
            ensures !AllTag(s[3..k'])
          {
            assert s[3..][k' - 3] == '\n';
            if k < k' {
              assert s[3..k'][k - 3] == s[k];
            }
          }
        }
        None
    else
      None
  }

  /** What may follow the body, `(\n```)?\s*$`: optional closing fence, then
      only whitespace to the end. */
  predicate IsClosingTail(x: string)
  {
    AllSpace(x) || ("\n```" <= x && AllSpace(x[4..]))
  }

  /** The lazy `(?P<body>.*?)`: the least end index `e >= q` of the body for
      which the rest of `s` is a closing tail. The end of `s` always
      qualifies. */
  function LazyBodyEnd(s: string, q: nat): (e: nat)
    requires q <= |s|
    ensures q <= e <= |s| && IsClosingTail(s[e..])
    ensures forall k :: q <= k < e ==> !IsClosingTail(s[k..])
    decreases |s| - q
  {
    if IsClosingTail(s[q..]) then q else LazyBodyEnd(s, q + 1)
  }

  /** The named group `body` of the fence pattern matched against `s`, or
      `None` when the pattern does not match. */
  function FenceBody(s: string): (r: Option<string>)
    ensures r.Some? ==> IsSlice(r.value, s)
  {
    match OpenFenceEnd(s)
    case None => None
    case Some(p) =>
      var e := LazyBodyEnd(s, p);
      assert IsSlice(s[p..e], s);
      Some(s[p..e])
  }

  /** On a string without trailing whitespace the only closing tails are the
      empty one and a final "\n```", so the lazy body runs to the end of the
      string, less a closing fence that ends it. */
  lemma LazyBodyEndStripped(s: string, q: nat)
    requires q <= |s| && (|s| > 0 ==> !IsSpace(s[|s| - 1]))
    ensures LazyBodyEnd(s, q) == if |s| - q >= 4 && s[|s| - 4..] == "\n```" then |s| - 4 else |s|
  {
    var e := LazyBodyEnd(s, q);
    if |s| - q >= 4 && s[|s| - 4..] == "\n```" {
      assert s[|s| - 4..][4..] == [];
      assert IsClosingTail(s[|s| - 4..]);
    }
    if e < |s| {
      var x := s[e..];
      assert x[|x| - 1] == s[|s| - 1];
      assert !AllSpace(x);
      assert "\n```" <= x;
      assert |x| == 4;
      assert s[|s| - 4..] == x;
    }
  }

  /** `clean_code_markers`: strip, unwrap a leading code fence, then strip
      stray backticks and whitespace. */
  function CleanCodeMarkers(text: string): (r: string)
    ensures IsStripped(r)
  {
    var s := Strip(text);
    var unwrapped := match FenceBody(s)
      case Some(body) => Strip(body)
      case None => s;
    Strip(StripBackticks(unwrapped))
  }

  /** The result is a contiguous piece of the input. */
  lemma CleanIsSliceOfInput(text: string)
    ensures IsSlice(CleanCodeMarkers(text), text)
  {
    var s := Strip(text);
    var unwrapped := match FenceBody(s)
      case Some(body) => Strip(body)
      case None => s;
    if FenceBody(s).Some? {
      var body := FenceBody(s).value;
      SliceTransitive(body, s, text);
      SliceTransitive(unwrapped, body, text);
    }
    var ticks := StripBackticks(unwrapped);
    SliceTransitive(ticks, unwrapped, text);
    SliceTransitive(CleanCodeMarkers(text), ticks, text);
  }

  /** Surrounding whitespace never matters: the input is stripped first. */
  lemma CleanOfStripped(text: string)
    ensures CleanCodeMarkers(text) == CleanCodeMarkers(Strip(text))
  {
    StripIdempotent(text);
  }

  /** When the stripped input matches the fence pattern, the result is the
      body with whitespace and outer backticks trimmed. */
  lemma CleanUnwraps(text: string, body: string)
    requires FenceBody(Strip(text)) == Some(body)
    ensures CleanCodeMarkers(text) == Strip(StripBackticks(Strip(body)))
  {
  }

  /** A fenced answer "```tag\nBODY\n```", with any whitespace around it,
      gives BODY with whitespace and stray backticks trimmed. */
  lemma CleanClosedFence(pre: string, tag: string, body: string, post: string)
    requires AllSpace(pre) && AllSpace(post) && AllTag(tag)
    ensures CleanCodeMarkers(pre + ("```" + tag + "\n" + body + "\n```") + post) == Strip(StripBackticks(Strip(body)))
  {
    var s := "```" + tag + "\n" + body + "\n```";
    var p := 3 + |tag| + 1;
    assert s[..p] == "```" + tag + "\n";
    assert s[|s| - 4..] == "\n```";
    assert s[p..|s| - 4] == body;
    assert IsStripped(s);
    StripPadded(pre, s, post);
    OpenFenceTag(s, tag);
    LazyBodyEndStripped(s, p);
    CleanUnwraps(pre + s + post, body);
  }

  /** A fence with no closing "\n```" is still unwrapped: the body is all
      that follows the opening line, whatever whitespace surrounds the
      answer (say a final newline, as in "```py\ncode\n"). */
  lemma CleanOpenFence(pre: string, tag: string, rest: string, post: string)
    requires AllSpace(pre) && AllSpace(post) && AllTag(tag)
    requires |rest| > 0 && !IsSpace(rest[|rest| - 1])
    requires !(|rest| >= 4 && rest[|rest| - 4..] == "\n```")
    ensures CleanCodeMarkers(pre + ("```" + tag + "\n" + rest) + post) == Strip(StripBackticks(Strip(rest)))
  {
    var s := "```" + tag + "\n" + rest;
    var p := 3 + |tag| + 1;
    assert s[..p] == "```" + tag + "\n";
    assert s[p..|s|] == rest;
    assert s[|s| - 1] == rest[|rest| - 1];
    assert |rest| >= 4 ==> s[|s| - 4..] == rest[|rest| - 4..];
    assert IsStripped(s);
    StripPadded(pre, s, post);
    OpenFenceTag(s, tag);
    LazyBodyEndStripped(s, p);
    assert LazyBodyEnd(s, p) == |s|;
    CleanUnwraps(pre + s + post, rest);
  }

  /** The opening fence of "```tag\n..." ends just after that newline. */
  lemma OpenFenceTag(s: string, tag: string)
    requires AllTag(tag) && 3 + |tag| < |s|
    requires s[..3 + |tag| + 1] == "```" + tag + "\n"
    ensures OpenFenceEnd(s) == Some(3 + |tag| + 1)
  {
    var k := 3 + |tag|;
    assert s[..3] == "```";
    assert s[k] == '\n';
    assert forall i :: 0 <= i < |tag| ==> s[3..][i] == tag[i];
    LeadCountIs(s[3..], IsTagChar, |tag|);
  }

  /** Without an opening fence the only changes are trimming whitespace and
      outer backticks. */
  lemma CleanWithoutFence(text: string)
    requires OpenFenceEnd(Strip(text)).None?
    ensures CleanCodeMarkers(text) == Strip(StripBackticks(Strip(text)))
  {
  }

  predicate NoBackticks(s: string)
  {
    forall i :: 0 <= i < |s| ==> s[i] != '`'
  }

  /** Text without backticks only loses its surrounding whitespace. */
  lemma CleanWithoutBackticks(text: string)
    requires NoBackticks(text)
    ensures CleanCodeMarkers(text) == Strip(text)
  {
    var s := Strip(text);
    var i, j :| 0 <= i <= j <= |text| && s == text[i..j];
    assert NoBackticks(s) by {
      assert forall k :: 0 <= k < |s| ==> s[k] == text[i + k];
    }
    assert OpenFenceEnd(s).None? by {
      assert |s| > 0 ==> s[0] != '`';
    }
    StripByStripped(s, IsBacktick);
    StripIdempotent(text);
  }
}
