/**
 * Identity handling on the server (server.js): the tolerant comparison behind
 * `isMyTurn`, and `resolveApproverToEmail`, which turns a display name into an email
 * through the directory.
 */
module Identity {
  import opened Text

  /** Characters `normalizeSimple` deletes: whitespace, dot, underscore and hyphen. */
  predicate Dropped(c: char) {
    IsSpace(c) || c == '.' || c == '_' || c == '-'
  }

  function Squeeze(s: string): (r: string)
    ensures |r| <= |s|
    ensures forall i :: 0 <= i < |r| ==> !Dropped(r[i])
  {
    if s == [] then []
    else if Dropped(s[0]) then Squeeze(s[1..])
    else [s[0]] + Squeeze(s[1..])
  }

  /** `normalizeSimple`: lower-case, then delete whitespace and `.`, `_`, `-`. */
  function NormalizeSimple(s: string): string {
    Squeeze(LowerStr(s))
  }

  lemma {:induction false} SqueezeClean(s: string)
    requires forall i :: 0 <= i < |s| ==> !Dropped(s[i])
    ensures Squeeze(s) == s
  {
    if s != [] {
      SqueezeClean(s[1..]);
      assert s == [s[0]] + s[1..];
    }
  }

  /** Lower-casing and squeezing commute: no letter is dropped and no dropped character is a letter. */
  lemma {:induction false} SqueezeLower(s: string)
    ensures LowerStr(Squeeze(s)) == Squeeze(LowerStr(s))
  {
    if s != [] {
      LowerKeepsSpace(s[0]);
      assert LowerStr(s)[1..] == LowerStr(s[1..]);
      SqueezeLower(s[1..]);
      if !Dropped(s[0]) {
        LowerStrConcat([s[0]], Squeeze(s[1..]));
      }
    }
  }

  /** Normalising twice is normalising once. */
  lemma NormalizeSimpleIdempotent(s: string)
    ensures NormalizeSimple(NormalizeSimple(s)) == NormalizeSimple(s)
  {
    var t := NormalizeSimple(s);
    SqueezeLower(LowerStr(s));
    LowerStrIsLower(s);
    assert LowerStr(t) == t;
    SqueezeClean(t);
  }

  /** The simple form of the caller: `normalizeSimple(me.split('@')[0] || me)` for an already lower-cased `me`. */
  function MeSimple(me: string): string {
    var local := Before(me, '@');
    NormalizeSimple(if local != "" then local else me)
  }

  /**
   * The predicate of `isMyTurn`'s second `findIndex` (server.js:502-510): a step named
   * `stepName` belongs to the lower-cased caller `me` when its lower-cased name is
   * non-empty and equals `me`, equals the part of `me` before `@`, or has the same
   * simple form. (The test at line 506 repeats the first one.)
   */
  predicate TurnMatch(stepName: string, me: string) {
    var n := LowerStr(stepName);
    n != "" && (n == me || n == Before(me, '@') || NormalizeSimple(n) == MeSimple(me))
  }

  /** A non-empty step name always matches itself, lower-cased. */
  lemma TurnMatchSelf(name: string)
    requires name != ""
    ensures TurnMatch(name, LowerStr(name))
  {
  }

  /**
   * `resolveApproverToEmail` (server.js:478-485). `dir` is the directory indexed by
   * lower-cased display name (the case-insensitive `^name$` query); its values are
   * the stored emails, possibly empty.
   */
  function ResolveApproverToEmail(raw: string, dir: map<string, string>): string {
    if raw == "" then ""
    else
      var s := Trim(raw);
      if '@' in s then LowerStr(s)
      else
        var key := LowerStr(s);
        if key in dir && dir[key] != "" then LowerStr(dir[key]) else LowerStr(s)
  }

  /**
   * What the resolver returns: a lower-cased string, empty only for a blank name; the
   * trimmed name itself when it holds `@`; otherwise the trimmed name unless the
   * directory maps it to a non-empty email, which is then returned lower-cased.
   */
  lemma ResolveApproverToEmailFacts(raw: string, dir: map<string, string>)
    ensures var r := ResolveApproverToEmail(raw, dir);
      && IsLowerStr(r)
      && (raw == "" ==> r == "")
      && (Trim(raw) != "" ==> r != "")
      && ('@' in Trim(raw) ==> r == LowerStr(Trim(raw)))
      && (r != LowerStr(Trim(raw)) ==> LowerStr(Trim(raw)) in dir && r == LowerStr(dir[LowerStr(Trim(raw))]))
  {
    LowerStrIsLower(Trim(raw));
    var key := LowerStr(Trim(raw));
    if key in dir {
      LowerStrIsLower(dir[key]);
    }
  }
}
