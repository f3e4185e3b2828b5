/**
 * The image-directive scanner of `generateQuestions`: the global regular
 * expression `\[KW:\s*([^\]]+)\]` (KW is IMAGE or GAMBAR) run with `exec`
 * from a `lastIndex` cursor, splitting the completion into text stretches
 * and directives.
 */
module Directives {
  import opened Types
  import opened JsText

  /** The literal that opens a directive: `[IMAGE:` or `[GAMBAR:`. */
  function Opener(english: bool): (r: string)
    ensures |r| >= 7 && r[0] == '[' && r[|r| - 1] == ':'
    ensures english <==> r == "[IMAGE:"
    ensures !english ==> r == "[GAMBAR:"
  {
    if english then "[IMAGE:" else "[GAMBAR:"
  }

  /** The directive opener `open` is spelled out in `t` from `p` on. */
  predicate OpensAt(t: string, open: string, p: nat)
  {
    p + |open| <= |t| && forall k :: 0 <= k < |open| ==> t[p + k] == open[k]
  }

  /**
   * `t[p..e]` is what the regular expression matches at `p`: the opener,
   * at least one character that is not `]`, and the first `]` after the
   * opener. (`\s*` followed by `[^\]]+` accepts exactly the non-empty runs
   * of non-`]` characters, since whitespace is not `]`.)
   */
  ghost predicate IsMatchSpan(t: string, open: string, p: nat, e: nat)
  {
    && p + |open| + 1 < e <= |t|
    && OpensAt(t, open, p)
    && t[e - 1] == ']'
    && forall k :: p + |open| <= k < e - 1 ==> t[k] != ']'
  }

  /** Index of the first `]` at or after `i`. */
  function FindClose(t: string, i: nat): (r: Option<nat>)
    requires i <= |t|
    ensures r.Some? ==> i <= r.value < |t| && t[r.value] == ']'
    ensures r.Some? ==> forall k :: i <= k < r.value ==> t[k] != ']'
    ensures r.None? ==> forall k :: i <= k < |t| ==> t[k] != ']'
    decreases |t| - i
  {
    if i == |t| then None
    else if t[i] == ']' then Some(i)
    else FindClose(t, i + 1)
  }

  /** The end of the match that starts at `p`, if one starts there. */
  function MatchAt(t: string, open: string, p: nat): (r: Option<nat>)
    requires p <= |t|
    ensures r.Some? ==> p + |open| + 1 < r.value <= |t|
  {
    if OpensAt(t, open, p) then
      match FindClose(t, p + |open|)
      case Some(q) => if q > p + |open| then Some(q + 1) else None
      case None => None
    else None
  }

  /** `MatchAt` finds the match of the regular expression at `p`, and only it. */
  lemma MatchAtIsSpan(t: string, open: string, p: nat)
    requires p <= |t|
    ensures MatchAt(t, open, p).Some? ==> IsMatchSpan(t, open, p, MatchAt(t, open, p).value)
    ensures MatchAt(t, open, p).None? ==> forall e: nat :: !IsMatchSpan(t, open, p, e)
  {
    if OpensAt(t, open, p) {
      match FindClose(t, p + |open|)
      case Some(q) =>
        if q <= p + |open| {
          assert forall e: nat :: IsMatchSpan(t, open, p, e) ==> q < e - 1;
        }
      case None =>
        assert forall e: nat :: IsMatchSpan(t, open, p, e) ==> p + |open| <= e - 1 < |t|;
    }
  }

  /** A match as `exec` reports it: `index` and `index + match[0].length`. */
  datatype Match = Match(index: nat, end: nat)

  /**
   * `exec` from cursor `from`: the first position at or after `from` where
   * a match starts (that it is the leftmost is NextMatchIsLeftmost).
   */
  function NextMatch(t: string, open: string, from: nat): (r: Option<Match>)
    requires from <= |t|
    ensures r.Some? ==> from <= r.value.index < r.value.end <= |t|
    ensures r.Some? ==> MatchAt(t, open, r.value.index) == Some(r.value.end)
    decreases |t| - from
  {
    match MatchAt(t, open, from)
    case Some(e) => Some(Match(from, e))
    case None => if from == |t| then None else NextMatch(t, open, from + 1)
  }

  /** No match starts before the one `exec` reports, and none at all when it reports none. */
  lemma {:induction false} NextMatchIsLeftmost(t: string, open: string, from: nat)
    requires from <= |t|
    ensures NextMatch(t, open, from).Some? ==>
      forall q :: from <= q < NextMatch(t, open, from).value.index ==> MatchAt(t, open, q).None?
    ensures NextMatch(t, open, from).None? ==>
      forall q :: from <= q <= |t| ==> MatchAt(t, open, q).None?
    decreases |t| - from
  {
    if MatchAt(t, open, from).None? && from < |t| {
      NextMatchIsLeftmost(t, open, from + 1);
    }
  }

  /**
   * Group 1 of the match, given the text between the opener and `]`. The
   * greedy `\s*` takes the leading whitespace, but `[^\]]+` must still
   * match at least one character, so a whitespace character is dropped
   * only while another character follows it.
   */
  function Capture(content: string): string
    requires content != []
  {
    if |content| > 1 && IsJsWhitespace(content[0]) then Capture(content[1..]) else content
  }

  /**
   * Group 1 is a non-empty tail of the content; what it leaves out is
   * whitespace, and it leaves out all the leading whitespace unless the
   * content is nothing but whitespace, when it keeps the last character.
   */
  lemma {:induction false} CaptureIsGroupOne(content: string)
    requires content != []
    ensures var r := Capture(content);
      && r != [] && EndsWith(content, r)
      && IsBlank(content[..|content| - |r|])
      && (!IsBlank(content) ==> !IsJsWhitespace(r[0]))
      && (IsBlank(content) ==> |r| == 1)
  {
    if |content| > 1 && IsJsWhitespace(content[0]) {
      var tail := content[1..];
      CaptureIsGroupOne(tail);
      var r := Capture(tail);
      assert content[|content| - |r|..] == tail[|tail| - |r|..];
      assert content[..|content| - |r|] == [content[0]] + tail[..|tail| - |r|];
      assert IsBlank(content) <==> IsBlank(tail) by {
        assert forall k :: 1 <= k < |content| ==> content[k] == tail[k - 1];
      }
    }
  }

  /** A stretch of the completion, or one directive with `match[0]` and `match[1]`. */
  datatype Token = Text(text: string) | Directive(raw: string, desc: string)

  function Raw(tok: Token): string
  {
    match tok
    case Text(s) => s
    case Directive(raw, _) => raw
  }

  /** The tokens put back together, directives written out as they were matched. */
  function Join(toks: seq<Token>): string
  {
    if toks == [] then [] else Raw(toks[0]) + Join(toks[1..])
  }

  /** The text between the cursor and a match, when there is any. */
  function TextBefore(t: string, from: nat, index: nat): seq<Token>
    requires from <= index <= |t|
  {
    if index > from then [Text(t[from..index])] else []
  }

  /** The directive token for a match: `match[0]` and `match[1]`. */
  function DirectiveOf(t: string, open: string, m: Match): Token
    requires m.index + |open| + 1 < m.end <= |t|
  {
    Directive(t[m.index..m.end], Capture(t[m.index + |open|..m.end - 1]))
  }

  /**
   * The split the scan produces from cursor `from`: text up to the leftmost
   * match (when non-empty), the directive, and the rest from the match end;
   * the trailing remainder when no match is left.
   */
  function Tokens(t: string, open: string, from: nat): seq<Token>
    requires from <= |t|
    decreases |t| - from
  {
    var next := NextMatch(t, open, from);
    if next.None? then
      if from < |t| then [Text(t[from..])] else []
    else
      var m := next.value;
      TextBefore(t, from, m.index) + [DirectiveOf(t, open, m)] + Tokens(t, open, m.end)
  }

  /** `Tokens` from a cursor where `exec` finds a match. */
  lemma TokensAtMatch(t: string, open: string, from: nat, m: Match)
    requires from <= |t| && NextMatch(t, open, from) == Some(m)
    ensures Tokens(t, open, from)
      == TextBefore(t, from, m.index) + [DirectiveOf(t, open, m)] + Tokens(t, open, m.end)
  {
  }

  /** One turn of the scan loop keeps `parts + Tokens(t, open, cursor)` fixed. */
  lemma ScanStep(done: seq<Token>, t: string, open: string, from: nat, m: Match)
    requires from <= |t| && NextMatch(t, open, from) == Some(m)
    ensures done + Tokens(t, open, from)
      == (done + TextBefore(t, from, m.index) + [DirectiveOf(t, open, m)]) + Tokens(t, open, m.end)
  {
    TokensAtMatch(t, open, from, m);
    var step, rest := TextBefore(t, from, m.index) + [DirectiveOf(t, open, m)], Tokens(t, open, m.end);
    assert done + (step + rest) == (done + step) + rest;
  }

  /**
   * The loop of `generateQuestions`: `exec` from `lastIndex`, push the text
   * before the match when it is non-empty, push the directive, move the
   * cursor past the match; afterwards push the remainder when non-empty.
   */
  method Scan(t: string, open: string) returns (parts: seq<Token>)
    ensures parts == Tokens(t, open, 0)
  {
    parts := [];
    var lastIndex: nat := 0;
    var m := NextMatch(t, open, lastIndex);
    while m.Some?
      invariant lastIndex <= |t|
      invariant m == NextMatch(t, open, lastIndex)
      invariant parts + Tokens(t, open, lastIndex) == Tokens(t, open, 0)
      decreases |t| - lastIndex
    {
      var found := m.value;
      ghost var done := parts;
      ScanStep(parts, t, open, lastIndex, found);
      if found.index > lastIndex {
        parts := parts + [Text(t[lastIndex..found.index])];
      }
      parts := parts + [DirectiveOf(t, open, found)];
      assert parts == done + TextBefore(t, lastIndex, found.index) + [DirectiveOf(t, open, found)];
      lastIndex := found.end;
      m := NextMatch(t, open, lastIndex);
    }
    if lastIndex < |t| {
      parts := parts + [Text(t[lastIndex..])];
    }
  }

  /** `Join` distributes over concatenation. */
  lemma {:induction false} JoinAppend(a: seq<Token>, b: seq<Token>)
    ensures Join(a + b) == Join(a) + Join(b)
  {
    if a == [] {
      assert a + b == b;
    } else {
      assert (a + b)[1..] == a[1..] + b;
      JoinAppend(a[1..], b);
    }
  }

  lemma SplitAt(t: string, a: nat, b: nat)
    requires a <= b <= |t|
    ensures t[a..b] + t[b..] == t[a..]
  {
  }

  lemma JoinSingle(tok: Token)
    ensures Join([tok]) == Raw(tok)
  {
    assert [tok][1..] == [];
  }

  /** The text before a match and the match itself cover `t[from..end]`. */
  lemma JoinStep(t: string, from: nat, index: nat, end: nat, desc: string)
    requires from <= index <= end <= |t|
    ensures Join(TextBefore(t, from, index) + [Directive(t[index..end], desc)]) == t[from..end]
  {
    var before, d := TextBefore(t, from, index), Directive(t[index..end], desc);
    JoinAppend(before, [d]);
    JoinSingle(d);
    if index > from {
      JoinSingle(Text(t[from..index]));
    }
    assert t[from..end] == t[from..index] + t[index..end];
  }

  /**
   * Round trip: writing the text stretches and the matched directives back
   * in order gives the scanned text from the cursor on, character for
   * character.
   */
  lemma {:induction false} TokensRoundTrip(t: string, open: string, from: nat)
    requires from <= |t|
    ensures Join(Tokens(t, open, from)) == t[from..]
    decreases |t| - from
  {
    var next := NextMatch(t, open, from);
    if next.Some? {
      var m := next.value;
      var step, rest := TextBefore(t, from, m.index) + [DirectiveOf(t, open, m)], Tokens(t, open, m.end);
      calc {
        Join(Tokens(t, open, from));
        { TokensAtMatch(t, open, from, m); }
        Join(step + rest);
        { JoinAppend(step, rest); }
        Join(step) + Join(rest);
        { JoinStep(t, from, m.index, m.end, DirectiveOf(t, open, m).desc);
          TokensRoundTrip(t, open, m.end); }
        t[from..m.end] + t[m.end..];
        { SplitAt(t, from, m.end); }
        t[from..];
      }
    }
  }

  /** `s` holds no complete directive anywhere. */
  ghost predicate NoDirectiveIn(s: string, open: string)
  {
    forall q :: 0 <= q <= |s| ==> MatchAt(s, open, q).None?
  }

  /** A match inside a slice is a match of the whole text, shifted. */
  lemma MatchInSlice(t: string, open: string, a: nat, b: nat, q: nat, e: nat)
    requires a <= b <= |t|
    ensures IsMatchSpan(t[a..b], open, q, e) ==> IsMatchSpan(t, open, a + q, a + e)
  {
    if IsMatchSpan(t[a..b], open, q, e) {
      var s := t[a..b];
      assert forall k :: 0 <= k < |open| ==> open[k] == s[q + k] == t[a + q + k];
      assert forall k :: a + q + |open| <= k < a + e - 1 ==> t[k] == s[k - a];
    }
  }

  /** A stretch of `t` where no match starts holds no complete directive. */
  lemma SliceHasNoDirective(t: string, open: string, a: nat, b: nat)
    requires a <= b <= |t|
    requires forall q :: a <= q < b ==> MatchAt(t, open, q).None?
    ensures NoDirectiveIn(t[a..b], open)
  {
    var s := t[a..b];
    forall q | 0 <= q <= |s|
      ensures MatchAt(s, open, q).None?
    {
      MatchAtIsSpan(s, open, q);
      if q < |s| {
        assert MatchAt(t, open, a + q).None?;
        MatchAtIsSpan(t, open, a + q);
        forall e: nat
          ensures !IsMatchSpan(s, open, q, e)
        {
          MatchInSlice(t, open, a, b, q, e);
        }
      }
    }
  }

  /** `s` has no `]`. */
  predicate NoClose(s: string)
  {
    forall k :: 0 <= k < |s| ==> s[k] != ']'
  }

  /** A match, cut out on its own, is a match of the whole cut. */
  lemma MatchCutOut(t: string, open: string, p: nat, e: nat)
    requires IsMatchSpan(t, open, p, e)
    ensures IsMatchSpan(t[p..e], open, 0, e - p)
    ensures t[p..e][|open|..e - p - 1] == t[p + |open|..e - 1]
    ensures NoClose(t[p + |open|..e - 1])
  {
    var raw := t[p..e];
    assert forall k :: 0 <= k < |open| ==> raw[k] == t[p + k];
    assert forall k :: |open| <= k < e - p - 1 ==> raw[k] == t[p + k];
  }

  /**
   * What each token is: a text stretch is non-empty and holds no complete
   * directive; a directive is, on its own, one complete match whose
   * description is its group 1, non-empty and free of `]`.
   */
  ghost predicate WellFormedToken(tok: Token, open: string)
  {
    match tok
    case Text(s) => s != [] && NoDirectiveIn(s, open)
    case Directive(raw, d) =>
      && IsMatchSpan(raw, open, 0, |raw|)
      && d == Capture(raw[|open|..|raw| - 1])
      && d != []
      && NoClose(d)
  }

  /** Group 1 keeps the property "free of `]`" of the text it is cut from. */
  lemma CaptureHasNoClose(content: string)
    requires content != []
    requires NoClose(content)
    ensures Capture(content) != [] && NoClose(Capture(content))
  {
    var d := Capture(content);
    CaptureIsGroupOne(content);
    assert forall k :: 0 <= k < |d| ==> d[k] == content[|content| - |d| + k];
  }

  /** The directive token of a match is well formed. */
  lemma DirectiveWellFormed(t: string, open: string, m: Match)
    requires IsMatchSpan(t, open, m.index, m.end)
    ensures WellFormedToken(DirectiveOf(t, open, m), open)
  {
    MatchCutOut(t, open, m.index, m.end);
    var raw, content := t[m.index..m.end], t[m.index + |open|..m.end - 1];
    CaptureHasNoClose(content);
    assert DirectiveOf(t, open, m) == Directive(raw, Capture(content));
  }

  /** Every token of the scan is well formed. */
  lemma {:induction false} TokensWellFormed(t: string, open: string, from: nat)
    requires from <= |t|
    ensures forall tok :: tok in Tokens(t, open, from) ==> WellFormedToken(tok, open)
    decreases |t| - from
  {
    NextMatchIsLeftmost(t, open, from);
    var next := NextMatch(t, open, from);
    if next.None? {
      SliceHasNoDirective(t, open, from, |t|);
      assert t[from..|t|] == t[from..];
    } else {
      var m := next.value;
      TokensAtMatch(t, open, from, m);
      SliceHasNoDirective(t, open, from, m.index);
      MatchAtIsSpan(t, open, m.index);
      DirectiveWellFormed(t, open, m);
      TokensWellFormed(t, open, m.end);
    }
  }

  /** No match starts in `[a, b)`, checked position by position. */
  ghost predicate NoMatchIn(t: string, open: string, a: nat, b: nat)
    requires a <= b <= |t|
    decreases b - a
  {
    a == b || (MatchAt(t, open, a).None? && NoMatchIn(t, open, a + 1, b))
  }

  lemma {:induction false} NoMatchInIff(t: string, open: string, a: nat, b: nat)
    requires a <= b <= |t|
    ensures NoMatchIn(t, open, a, b) <==> forall q :: a <= q < b ==> MatchAt(t, open, q).None?
    decreases b - a
  {
    if a < b {
      NoMatchInIff(t, open, a + 1, b);
    }
  }

  /**
   * `tok` is a token the leftmost scan produces at cursor `from`: a
   * non-empty stretch of text in which no match starts and which runs up to
   * the next match start or to the end of `t`, or the match that starts
   * exactly at `from`, with its group 1.
   */
  ghost predicate TokenFits(t: string, open: string, from: nat, tok: Token)
    requires from <= |t|
  {
    var e := from + |Raw(tok)|;
    && e <= |t|
    && if tok.Text? then
         && from < e && tok == Text(t[from..e])
         && NoMatchIn(t, open, from, e)
         && (e == |t| || MatchAt(t, open, e).Some?)
       else
         MatchAt(t, open, from) == Some(e) && tok == DirectiveOf(t, open, Match(from, e))
  }

  /** The leftmost scan described token by token, independently of the loop. */
  ghost predicate IsScanOf(t: string, open: string, from: nat, toks: seq<Token>)
    requires from <= |t|
    decreases |toks|
  {
    if toks == [] then from == |t|
    else
      && TokenFits(t, open, from, toks[0])
      && from + |Raw(toks[0])| <= |t|
      && IsScanOf(t, open, from + |Raw(toks[0])|, toks[1..])
  }

  /** A token that fits, followed by a scan from its end `e`, is a scan. */
  lemma ScanCons(t: string, open: string, from: nat, e: nat, tok: Token, rest: seq<Token>)
    requires from <= |t| && TokenFits(t, open, from, tok)
    requires e == from + |Raw(tok)| && e <= |t| && IsScanOf(t, open, e, rest)
    ensures IsScanOf(t, open, from, [tok] + rest)
  {
    var toks := [tok] + rest;
    assert toks[0] == tok && toks[1..] == rest;
    ScanOfParts(t, open, from, e, toks);
  }

  /** The unfolding of `IsScanOf` for a non-empty sequence, read backwards. */
  lemma ScanOfParts(t: string, open: string, from: nat, e: nat, toks: seq<Token>)
    requires from <= |t| && toks != [] && TokenFits(t, open, from, toks[0])
    requires e == from + |Raw(toks[0])| && e <= |t| && IsScanOf(t, open, e, toks[1..])
    ensures IsScanOf(t, open, from, toks)
  {
  }

  /** The match at a cursor fits there as a directive token. */
  lemma DirectiveFits(t: string, open: string, m: Match)
    requires m.index <= |t| && MatchAt(t, open, m.index) == Some(m.end)
    ensures TokenFits(t, open, m.index, DirectiveOf(t, open, m))
    ensures m.index + |Raw(DirectiveOf(t, open, m))| == m.end
  {
  }

  /** A match-free stretch that ends at a match or at the end fits as a text token. */
  lemma TextFits(t: string, open: string, from: nat, e: nat)
    requires from < e <= |t|
    requires forall q :: from <= q < e ==> MatchAt(t, open, q).None?
    requires e == |t| || MatchAt(t, open, e).Some?
    ensures TokenFits(t, open, from, Text(t[from..e]))
  {
    NoMatchInIff(t, open, from, e);
  }

  /** A scan is a scan of whatever equals it. */
  lemma ScanOfEqual(t: string, open: string, from: nat, a: seq<Token>, b: seq<Token>)
    requires from <= |t| && IsScanOf(t, open, from, a) && a == b
    ensures IsScanOf(t, open, from, b)
  {
  }

  /** No match is left after the cursor: the rest of `t` is a scan. */
  lemma TailIsScan(t: string, open: string, from: nat)
    requires from <= |t| && NextMatch(t, open, from).None?
    ensures IsScanOf(t, open, from, Tokens(t, open, from))
  {
    NextMatchIsLeftmost(t, open, from);
    if from < |t| {
      TextFits(t, open, from, |t|);
      ScanCons(t, open, from, |t|, Text(t[from..|t|]), []);
      assert t[from..|t|] == t[from..];
      assert [Text(t[from..|t|])] + [] == [Text(t[from..])];
      ScanOfEqual(t, open, from, [Text(t[from..|t|])] + [], Tokens(t, open, from));
    }
  }

  /** The text before a match, the match, and a scan after it make a scan. */
  lemma ScanBeforeMatch(t: string, open: string, from: nat, m: Match, rest: seq<Token>)
    requires from <= m.index <= |t| && MatchAt(t, open, m.index) == Some(m.end)
    requires forall q :: from <= q < m.index ==> MatchAt(t, open, q).None?
    requires IsScanOf(t, open, m.end, rest)
    ensures IsScanOf(t, open, from, TextBefore(t, from, m.index) + [DirectiveOf(t, open, m)] + rest)
  {
    var d := DirectiveOf(t, open, m);
    DirectiveFits(t, open, m);
    ScanCons(t, open, m.index, m.end, d, rest);
    if m.index > from {
      TextFits(t, open, from, m.index);
      ScanCons(t, open, from, m.index, Text(t[from..m.index]), [d] + rest);
      var toks := [Text(t[from..m.index])] + ([d] + rest);
      assert toks == TextBefore(t, from, m.index) + [d] + rest;
      ScanOfEqual(t, open, from, toks, TextBefore(t, from, m.index) + [d] + rest);
    } else {
      assert [d] + rest == TextBefore(t, from, m.index) + [d] + rest;
      ScanOfEqual(t, open, from, [d] + rest, TextBefore(t, from, m.index) + [d] + rest);
    }
  }

  /** The text before the next match, the match, and a scan after it make a scan. */
  lemma ScanThroughMatch(t: string, open: string, from: nat, m: Match)
    requires from <= |t| && NextMatch(t, open, from) == Some(m)
    requires IsScanOf(t, open, m.end, Tokens(t, open, m.end))
    ensures IsScanOf(t, open, from, Tokens(t, open, from))
  {
    NextMatchIsLeftmost(t, open, from);
    TokensAtMatch(t, open, from, m);
    ScanBeforeMatch(t, open, from, m, Tokens(t, open, m.end));
  }

  /** The scan loop's tokens are the leftmost scan of `t` from `from`. */
  lemma {:induction false} TokensAreScan(t: string, open: string, from: nat)
    requires from <= |t|
    ensures IsScanOf(t, open, from, Tokens(t, open, from))
    decreases |t| - from
  {
    var next := NextMatch(t, open, from);
    if next.None? {
      TailIsScan(t, open, from);
    } else {
      TokensAreScan(t, open, next.value.end);
      ScanThroughMatch(t, open, from, next.value);
    }
  }

  /** When a match starts at the cursor, `exec` reports that match. */
  lemma NextMatchAtMatch(t: string, open: string, p: nat, e: nat)
    requires p <= |t| && MatchAt(t, open, p) == Some(e)
    ensures NextMatch(t, open, p) == Some(Match(p, e))
  {
  }

  /** Text with no match in it, followed by a match start or the end, is one text token. */
  lemma {:induction false} TokensSkipText(t: string, open: string, from: nat, e: nat)
    requires from < e <= |t|
    requires forall q :: from <= q < e ==> MatchAt(t, open, q).None?
    requires e == |t| || MatchAt(t, open, e).Some?
    ensures Tokens(t, open, from) == [Text(t[from..e])] + Tokens(t, open, e)
  {
    NextMatchIsLeftmost(t, open, from);
    var next := NextMatch(t, open, from);
    if next.None? {
      assert e == |t| && NextMatch(t, open, e).None?;
      assert Tokens(t, open, e) == [] && t[from..e] == t[from..];
    } else {
      var m := next.value;
      assert m.index == e;
      NextMatchAtMatch(t, open, e, m.end);
      TokensAtMatch(t, open, from, m);
      TokensAtMatch(t, open, e, m);
    }
  }

  /** A match at the cursor is the first token. */
  lemma TokensAtDirective(t: string, open: string, from: nat, e: nat)
    requires from <= |t| && MatchAt(t, open, from) == Some(e)
    ensures Tokens(t, open, from) == [DirectiveOf(t, open, Match(from, e))] + Tokens(t, open, e)
  {
    NextMatchAtMatch(t, open, from, e);
    TokensAtMatch(t, open, from, Match(from, e));
  }

  /** A token that fits at the cursor is the first token `Tokens` produces there. */
  lemma {:induction false} TokenFitsIsTokensStep(t: string, open: string, from: nat, tok: Token)
    requires from <= |t| && TokenFits(t, open, from, tok)
    ensures from + |Raw(tok)| <= |t|
    ensures Tokens(t, open, from) == [tok] + Tokens(t, open, from + |Raw(tok)|)
  {
    var e := from + |Raw(tok)|;
    if tok.Text? {
      assert tok == Text(t[from..e]);
      NoMatchInIff(t, open, from, e);
      TokensSkipText(t, open, from, e);
    } else {
      assert tok == DirectiveOf(t, open, Match(from, e));
      TokensAtDirective(t, open, from, e);
    }
  }

  /** A sequence is determined by its head and its tail. */
  lemma HeadAndTail<T>(s: seq<T>, x: T, rest: seq<T>, whole: seq<T>)
    requires s != [] && s[0] == x && s[1..] == rest && whole == [x] + rest
    ensures s == whole
  {
    assert s == [s[0]] + s[1..];
  }

  /** The unfolding of `IsScanOf` for a non-empty sequence. */
  lemma ScanOfHead(t: string, open: string, from: nat, toks: seq<Token>)
    requires from <= |t| && toks != [] && IsScanOf(t, open, from, toks)
    ensures TokenFits(t, open, from, toks[0])
    ensures from + |Raw(toks[0])| <= |t| && IsScanOf(t, open, from + |Raw(toks[0])|, toks[1..])
  {
  }

  /**
   * The leftmost scan is unique: every token sequence that satisfies
   * `IsScanOf` is the one `Tokens` computes.
   */
  lemma {:induction false} ScanIsTokens(t: string, open: string, from: nat, toks: seq<Token>)
    requires from <= |t| && IsScanOf(t, open, from, toks)
    ensures toks == Tokens(t, open, from)
    decreases |toks|
  {
    if toks == [] {
      assert NextMatch(t, open, |t|).None?;
    } else {
      var e := from + |Raw(toks[0])|;
      ScanOfHead(t, open, from, toks);
      TokenFitsIsTokensStep(t, open, from, toks[0]);
      ScanIsTokens(t, open, e, toks[1..]);
      HeadAndTail(toks, toks[0], Tokens(t, open, e), Tokens(t, open, from));
    }
  }

  /** Any two scans of the same text from the same cursor are equal. */
  lemma ScanIsUnique(t: string, open: string, from: nat, a: seq<Token>, b: seq<Token>)
    requires from <= |t| && IsScanOf(t, open, from, a) && IsScanOf(t, open, from, b)
    ensures a == b
  {
    ScanIsTokens(t, open, from, a);
    ScanIsTokens(t, open, from, b);
  }
}
