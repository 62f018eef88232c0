/**
 * `escapeHtml` as the server (server.js) and the browser scripts define it. The two
 * differ only in the entity for the apostrophe: `&#39;` on the server, `&#039;` in
 * the browser.
 */
module Html {
  import opened Text

  const ServerApos := "&#39;"
  const ClientApos := "&#039;"

  predicate IsSpecial(c: char) {
    c == '&' || c == '<' || c == '>' || c == '"' || c == '\''
  }

  function EscapeChar(c: char, apos: string): string {
    if c == '&' then "&amp;"
    else if c == '<' then "&lt;"
    else if c == '>' then "&gt;"
    else if c == '"' then "&quot;"
    else if c == '\'' then apos
    else [c]
  }

  /** `s.replace(/[&<>"']/g, c => entity(c))`. */
  function Escape(s: string, apos: string): (r: string)
    requires apos == ServerApos || apos == ClientApos
    ensures |r| >= |s|
    ensures forall i :: 0 <= i < |r| ==> r[i] != '<' && r[i] != '>' && r[i] != '"' && r[i] != '\''
  {
    if s == [] then [] else EscapeChar(s[0], apos) + Escape(s[1..], apos)
  }

  /** server.js `escapeHtml`. */
  function EscapeHtml(s: string): string {
    Escape(s, ServerApos)
  }

  /** public/app.js, dash.js, masterDashboard.js and approverDashboard.js `escapeHtml`. */
  function EscapeHtmlClient(s: string): string {
    Escape(s, ClientApos)
  }

  /** The entity `s` starts with, as the character it stands for and its length. */
  function EntityAt(s: string, apos: string): (r: (char, nat))
    requires apos == ServerApos || apos == ClientApos
    ensures 1 <= r.1 <= |s| || (r.1 == 1 && s == [])
  {
    if StartsWith(s, "&amp;") then ('&', 5)
    else if StartsWith(s, "&lt;") then ('<', 4)
    else if StartsWith(s, "&gt;") then ('>', 4)
    else if StartsWith(s, "&quot;") then ('"', 6)
    else if StartsWith(s, apos) then ('\'', |apos|)
    else if s == [] then ('&', 1)
    else (s[0], 1)
  }

  /** Decodes the five entities `Escape` produces; every other character passes through. */
  function Unescape(s: string, apos: string): string
    requires apos == ServerApos || apos == ClientApos
    decreases |s|
  {
    if s == [] then []
    else if s[0] != '&' then [s[0]] + Unescape(s[1..], apos)
    else
      var (c, n) := EntityAt(s, apos);
      [c] + Unescape(s[n..], apos)
  }

  lemma EntityOfEscape(c: char, rest: string, apos: string)
    requires apos == ServerApos || apos == ClientApos
    requires IsSpecial(c)
    ensures var t := EscapeChar(c, apos) + rest;
      t[0] == '&' && EntityAt(t, apos) == (c, |EscapeChar(c, apos)|)
  {
    var t := EscapeChar(c, apos) + rest;
    if c == '&' {
      assert t[..5] == "&amp;";
    } else if c == '<' {
      assert t[..4] == "&lt;";
      assert t[1] == 'l' && (|t| >= 5 ==> t[..5][1] == t[1]);
    } else if c == '>' {
      assert t[..4] == "&gt;";
      assert t[1] == 'g' && (|t| >= 5 ==> t[..5][1] == t[1]) && t[..4][1] == t[1];
    } else if c == '"' {
      assert t[..6] == "&quot;";
      assert t[1] == 'q' && t[..5][1] == t[1] && t[..4][1] == t[1];
    } else {
      assert t[..|apos|] == apos;
      assert t[1] == '#' && t[..5][1] == t[1] && t[..4][1] == t[1];
      assert |t| >= 6 ==> t[..6][1] == t[1];
    }
  }

  lemma UnescapeChar(c: char, rest: string, apos: string)
    requires apos == ServerApos || apos == ClientApos
    ensures Unescape(EscapeChar(c, apos) + rest, apos) == [c] + Unescape(rest, apos)
  {
    var t := EscapeChar(c, apos) + rest;
    if IsSpecial(c) {
      EntityOfEscape(c, rest, apos);
      assert t[|EscapeChar(c, apos)|..] == rest;
    } else {
      assert t[0] == c && t[1..] == rest;
    }
  }

  /** Escaping loses nothing: decoding the entities gives back the original text. */
  lemma {:induction false} EscapeRoundTrip(s: string, apos: string)
    requires apos == ServerApos || apos == ClientApos
    ensures Unescape(Escape(s, apos), apos) == s
  {
    if s != [] {
      UnescapeChar(s[0], Escape(s[1..], apos), apos);
      EscapeRoundTrip(s[1..], apos);
      assert s == [s[0]] + s[1..];
    }
  }

  /** Characters other than the five specials are left unchanged. */
  lemma {:induction false} EscapePlain(s: string, apos: string)
    requires apos == ServerApos || apos == ClientApos
    requires forall i :: 0 <= i < |s| ==> !IsSpecial(s[i])
    ensures Escape(s, apos) == s
  {
    if s != [] {
      EscapePlain(s[1..], apos);
      assert s == [s[0]] + s[1..];
    }
  }

  /** Escaping works character by character, so it distributes over concatenation. */
  lemma {:induction false} EscapeConcat(a: string, b: string, apos: string)
    requires apos == ServerApos || apos == ClientApos
    ensures Escape(a + b, apos) == Escape(a, apos) + Escape(b, apos)
  {
    if a != [] {
      assert (a + b)[0] == a[0];
      assert (a + b)[1..] == a[1..] + b;
      EscapeConcat(a[1..], b, apos);
    } else {
      assert a + b == b;
    }
  }
}
