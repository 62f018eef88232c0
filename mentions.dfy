/**
 * Chat mentions: the server's parsing of a posted message into the lower-cased users
 * it names (server.js:616-640), the browser's highlighting of the same tokens
 * (public/app.js:567-572) and the browser's search for the `@token` around the caret
 * (public/app.js:675-694).
 */
module Mentions {
  import opened Wrappers
  import opened Text
  import opened Seqs
  import opened Html

  /**
   * A message cut the way `/@(\S+)/g` cuts it: a mention is `@` and the maximal run of
   * non-whitespace after it; every other character stands for itself.
   */
  datatype Segment = Plain(c: char) | Mention(token: string)

  predicate NoSpace(t: string) {
    forall i :: 0 <= i < |t| ==> !IsSpace(t[i])
  }

  /** The matches of `/@(\S+)/g`, scanning left to right and resuming after each match. */
  function Segments(s: string): (r: seq<Segment>)
    ensures forall k :: 0 <= k < |r| && r[k].Mention? ==> r[k].token != [] && NoSpace(r[k].token)
    decreases |s|
  {
    if s == [] then []
    else if s[0] == '@' && |s| > 1 && !IsSpace(s[1]) then
      var n := NonSpaceRun(s[1..]);
      [Mention(s[1..1 + n])] + Segments(s[1 + n..])
    else [Plain(s[0])] + Segments(s[1..])
  }

  function SegmentText(g: Segment): string {
    match g
    case Plain(c) => [c]
    case Mention(t) => "@" + t
  }

  function Unsegment(gs: seq<Segment>): string {
    if gs == [] then [] else SegmentText(gs[0]) + Unsegment(gs[1..])
  }

  /** The segments put back together are the message: nothing is lost or reordered. */
  lemma {:induction false} SegmentsRoundTrip(s: string)
    ensures Unsegment(Segments(s)) == s
    decreases |s|
  {
    if s != [] {
      if s[0] == '@' && |s| > 1 && !IsSpace(s[1]) {
        var n := NonSpaceRun(s[1..]);
        var t, rest := s[1..1 + n], s[1 + n..];
        SegmentsRoundTrip(rest);
        UnsegmentCons(Mention(t), Segments(rest));
        assert s == "@" + t + rest;
      } else {
        SegmentsRoundTrip(s[1..]);
        UnsegmentCons(Plain(s[0]), Segments(s[1..]));
        assert s == [s[0]] + s[1..];
      }
    }
  }

  lemma UnsegmentCons(g: Segment, gs: seq<Segment>)
    ensures Unsegment([g] + gs) == SegmentText(g) + Unsegment(gs)
  {
    assert ([g] + gs)[1..] == gs;
  }

  /** A mention is maximal: the segment after it, if any, is a whitespace character. */
  lemma {:induction false} MentionsAreMaximal(s: string, k: nat)
    requires k + 1 < |Segments(s)| && Segments(s)[k].Mention?
    ensures Segments(s)[k + 1].Plain? && IsSpace(Segments(s)[k + 1].c)
    decreases |s|
  {
    if s[0] == '@' && |s| > 1 && !IsSpace(s[1]) {
      var n := NonSpaceRun(s[1..]);
      if k > 0 {
        MentionsAreMaximal(s[1 + n..], k - 1);
      } else {
        assert Segments(s)[1] == Segments(s[1 + n..])[0];
      }
    } else {
      MentionsAreMaximal(s[1..], k - 1);
    }
  }

  /** The captured tokens, in order (`m[1]` of every match). */
  function Tokens(gs: seq<Segment>): (ts: seq<string>)
    ensures forall j :: 0 <= j < |ts| ==> exists k :: 0 <= k < |gs| && gs[k] == Mention(ts[j])
  {
    if gs == [] then []
    else
      var rest := Tokens(gs[1..]);
      assert forall j :: 0 <= j < |rest| ==> exists k :: 0 <= k < |gs| && gs[k] == Mention(rest[j]) by {
        forall j | 0 <= j < |rest| ensures exists k :: 0 <= k < |gs| && gs[k] == Mention(rest[j]) {
          var k :| 0 <= k < |gs[1..]| && gs[1..][k] == Mention(rest[j]);
          assert gs[k + 1] == Mention(rest[j]);
        }
      }
      if gs[0].Mention? then [gs[0].token] + rest else rest
  }

  /** The raw tokens of a message: non-empty and free of whitespace. */
  lemma RawTokensAreWords(s: string)
    ensures forall j :: 0 <= j < |Tokens(Segments(s))| ==>
      Tokens(Segments(s))[j] != [] && NoSpace(Tokens(Segments(s))[j])
  {
    var gs := Segments(s);
    var ts := Tokens(gs);
    forall j | 0 <= j < |ts| ensures ts[j] != [] && NoSpace(ts[j]) {
      var k :| 0 <= k < |gs| && gs[k] == Mention(ts[j]);
    }
  }

  /** The characters `/[),.;:!?]+$/` strips from the end of a token. */
  predicate IsTrailing(c: char) {
    c == ')' || c == ',' || c == '.' || c == ';' || c == ':' || c == '!' || c == '?'
  }

  /** `t.replace(/[),.;:!?]+$/, '')`: the token without its trailing punctuation run. */
  function StripTrailing(t: string): (r: string)
    ensures |r| <= |t| && r == t[..|r|]
    ensures r == [] || !IsTrailing(r[|r| - 1])
    ensures forall i :: |r| <= i < |t| ==> IsTrailing(t[i])
  {
    if t != [] && IsTrailing(t[|t| - 1]) then StripTrailing(t[..|t| - 1]) else t
  }

  /** One raw token as the server records it: stripped, then lower-cased. */
  function Clean(t: string): string {
    LowerStr(StripTrailing(t))
  }

  /** The `mentions` stored with a chat message: cleaned tokens, empties dropped, first occurrence kept. */
  function ChatMentions(cleaned: string): seq<string> {
    var ts := Tokens(Segments(cleaned));
    Dedupe(Filter(seq(|ts|, j requires 0 <= j < |ts| => Clean(ts[j])), NonEmpty))
  }

  /** A cleaned token is lower-case, has no whitespace and does not end in trailing punctuation. */
  lemma CleanFacts(t: string)
    requires NoSpace(t)
    ensures var m := Clean(t);
      IsLowerStr(m) && NoSpace(m) && (m == [] || !IsTrailing(m[|m| - 1]))
  {
    var r := StripTrailing(t);
    var m := Clean(t);
    LowerStrIsLower(r);
    forall i | 0 <= i < |m| ensures !IsSpace(m[i]) {
      assert r[i] == t[i];
      LowerKeepsSpace(r[i]);
    }
  }

  /**
   * The stored mentions are exactly the non-empty cleaned tokens, each once, each
   * lower-case and free of whitespace and of trailing punctuation.
   */
  lemma ChatMentionsSpec(cleaned: string)
    ensures var ms := ChatMentions(cleaned);
      var ts := Tokens(Segments(cleaned));
      && Distinct(ms)
      && (forall j :: 0 <= j < |ts| && Clean(ts[j]) != "" ==> Clean(ts[j]) in ms)
      && (forall m :: m in ms ==> exists j :: 0 <= j < |ts| && Clean(ts[j]) == m)
      && (forall m :: m in ms ==> m != "" && IsLowerStr(m) && NoSpace(m) && !IsTrailing(m[|m| - 1]))
  {
    var ts := Tokens(Segments(cleaned));
    var cs := seq(|ts|, j requires 0 <= j < |ts| => Clean(ts[j]));
    var fs := Filter(cs, NonEmpty);
    var ms := Dedupe(fs);
    assert ms == ChatMentions(cleaned);
    forall j | 0 <= j < |ts| && Clean(ts[j]) != "" ensures Clean(ts[j]) in ms {
      assert cs[j] == Clean(ts[j]) && NonEmpty(cs[j]);
      var a :| 0 <= a < |fs| && fs[a] == cs[j];
    }
    RawTokensAreWords(cleaned);
    forall m | m in ms
      ensures (exists j :: 0 <= j < |ts| && Clean(ts[j]) == m)
        && m != "" && IsLowerStr(m) && NoSpace(m) && !IsTrailing(m[|m| - 1])
    {
      var a :| 0 <= a < |ms| && ms[a] == m;
      var b :| 0 <= b < |fs| && fs[b] == m;
      assert NonEmpty(m);
      var j :| 0 <= j < |cs| && cs[j] == m;
      CleanFacts(ts[j]);
    }
  }

  /** What `POST /api/approvals/:uniqueNumber/chat` does with a message. */
  datatype ChatReply = EmptyMessage | Posted(text: string, mentions: seq<string>, recipients: seq<string>)

  /**
   * The handler (server.js:616-640): a message that is blank once trimmed is refused;
   * otherwise the trimmed text is stored with its mentions, and when the approval
   * exists every mention other than the author's own username is mailed.
   */
  function PostChat(text: string, username: string, approvalExists: bool): (r: ChatReply)
    ensures r.EmptyMessage? <==> Trim(text) == ""
    ensures r.Posted? ==> r.text == Trim(text) && r.mentions == ChatMentions(Trim(text))
    ensures r.Posted? ==> forall m :: m in r.recipients <==> approvalExists && m in r.mentions && m != username
  {
    var cleaned := Trim(text);
    if cleaned == "" then EmptyMessage
    else
      var ms := ChatMentions(cleaned);
      Posted(cleaned, ms, if approvalExists then Filter(ms, m => m != "" && m != username) else [])
  }

  /* ---------------- browser ---------------- */

  /** The HTML a token becomes in the browser: the stripped user inside a mention span. */
  function MentionSpan(t: string): string {
    "<span class=\"chat-mention\">@" + StripTrailing(t) + "</span>"
  }

  function Render(gs: seq<Segment>): string {
    if gs == [] then []
    else (match gs[0] case Plain(c) => [c] case Mention(t) => MentionSpan(t)) + Render(gs[1..])
  }

  /**
   * `highlightMentions` (public/app.js:567-572): the text is escaped first and the
   * mentions of the escaped text are wrapped; the punctuation stripped from a token
   * is not rendered.
   */
  function HighlightMentions(text: string): string {
    Render(Segments(EscapeHtmlClient(text)))
  }

  /** A message with no `@` is only escaped. */
  lemma {:induction false} RenderPlain(s: string)
    requires '@' !in s
    ensures Render(Segments(s)) == s
    decreases |s|
  {
    if s != [] {
      RenderPlain(s[1..]);
      assert Segments(s)[1..] == Segments(s[1..]);
      assert s == [s[0]] + s[1..];
    }
  }

  /**
   * On a message free of HTML-special characters the browser wraps exactly the raw
   * tokens the server cleans, each stripped the same way (but not lower-cased).
   */
  lemma HighlightSeesServerTokens(text: string)
    requires forall i :: 0 <= i < |text| ==> !IsSpecial(text[i])
    ensures HighlightMentions(text) == Render(Segments(text))
  {
    EscapePlain(text, ClientApos);
  }

  /* ---------------- caret token ---------------- */

  /** The characters that end a mention token in the browser: `[\s,;:!?.]`. */
  predicate IsTokenStop(c: char) {
    IsSpace(c) || c == ',' || c == ';' || c == ':' || c == '!' || c == '?' || c == '.'
  }

  /**
   * `getMentionTokenRange` (public/app.js:675-694) on the text and caret position:
   * back from the caret to the start of its word; no token unless the word starts
   * with `@`; otherwise forward from after the `@` to the first stop character.
   */
  method MentionTokenRange(text: string, pos: nat) returns (start: nat, end: nat, token: Option<string>)
    requires pos <= |text|
    ensures token.None? <==> !(WordStart(text, pos) < |text| && text[WordStart(text, pos)] == '@')
    ensures token.None? ==> start == pos && end == pos
    ensures token.Some? ==>
      && start == WordStart(text, pos) && start < end <= |text|
      && (forall k :: start < k < end ==> !IsTokenStop(text[k]))
      && (end == |text| || IsTokenStop(text[end]))
      && token.value == text[start + 1..end]
  {
    var i: int := pos - 1;
    while i >= 0 && !IsSpace(text[i])
      invariant -1 <= i < pos
      invariant forall k :: i < k < pos ==> !IsSpace(text[k])
      invariant WordStart(text, pos) == WordStart(text, i + 1)
      decreases i
    {
      i := i - 1;
    }
    var tokenStart := i + 1;
    if tokenStart >= |text| || text[tokenStart] != '@' {
      return pos, pos, None;
    }
    var j := tokenStart + 1;
    while j < |text| && !IsTokenStop(text[j])
      invariant tokenStart < j <= |text|
      invariant forall k :: tokenStart < k < j ==> !IsTokenStop(text[k])
    {
      j := j + 1;
    }
    return tokenStart, j, Some(text[tokenStart + 1..j]);
  }

  /** Where the word holding the caret starts: after the last whitespace before it. */
  function WordStart(text: string, pos: nat): (r: nat)
    requires pos <= |text|
    ensures r <= pos && (r == 0 || IsSpace(text[r - 1]))
    ensures forall k :: r <= k < pos ==> !IsSpace(text[k])
  {
    if pos == 0 || IsSpace(text[pos - 1]) then pos else WordStart(text, pos - 1)
  }
}
