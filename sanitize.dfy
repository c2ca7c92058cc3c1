/** The express-validator sanitizers the routes chain after their checks:
    `trim()` and `escape()`, both taken from validator.js. A chain checks
    the value as the client sent it and then stores the sanitized value,
    so `notEmpty()` accepts "   " and the row receives "". */
module Sanitize {

  import opened Common

  /** The characters JavaScript's `\s` matches: the ECMAScript WhiteSpace
      characters (the Zs category among them) and the line terminators. */
  predicate IsSpace(c: char) {
    c == '\t' || c == '\n' || c == '\U{000B}' || c == '\U{000C}' || c == '\r' || c == ' '
    || c == '\U{00A0}' || c == '\U{1680}' || ('\U{2000}' <= c <= '\U{200A}')
    || c == '\U{2028}' || c == '\U{2029}' || c == '\U{202F}' || c == '\U{205F}'
    || c == '\U{3000}' || c == '\U{FEFF}'
  }

  /** `ltrim`: the replacement of `/^\s+/` by nothing. */
  function TrimStart(s: string): (r: string)
    ensures |r| <= |s|
  {
    if s != [] && IsSpace(s[0]) then TrimStart(s[1..]) else s
  }

  /** `ltrim` cuts white space only, and all of it, from the front. */
  lemma {:induction false} TrimStartCuts(s: string)
    ensures var r := TrimStart(s);
            r == s[|s| - |r|..] && (forall i :: 0 <= i < |s| - |r| ==> IsSpace(s[i]))
            && (r == [] || !IsSpace(r[0]))
  {
    if s != [] && IsSpace(s[0]) {
      TrimStartCuts(s[1..]);
    }
  }

  /** `rtrim`: step back from the end while the character matches `\s`. */
  function TrimEnd(s: string): (r: string)
    ensures |r| <= |s|
  {
    if s != [] && IsSpace(s[|s| - 1]) then TrimEnd(s[..|s| - 1]) else s
  }

  /** `rtrim` cuts white space only, and all of it, from the back. */
  lemma {:induction false} TrimEndCuts(s: string)
    ensures var r := TrimEnd(s);
            r == s[..|r|] && (forall i :: |r| <= i < |s| ==> IsSpace(s[i]))
            && (r == [] || !IsSpace(r[|r| - 1]))
  {
    if s != [] && IsSpace(s[|s| - 1]) {
      TrimEndCuts(s[..|s| - 1]);
    }
  }

  /** `trim()`: `rtrim(ltrim(s))`. */
  function Trim(s: string): string {
    TrimEnd(TrimStart(s))
  }

  /** `trim()` keeps one contiguous piece of the input, and only white
      space is cut from either end. */
  lemma TrimSlice(s: string)
    ensures var r := Trim(s); var i := |s| - |TrimStart(s)|;
            i + |r| <= |s| && r == s[i..i + |r|]
            && (forall k :: 0 <= k < i ==> IsSpace(s[k]))
            && (forall k :: i + |r| <= k < |s| ==> IsSpace(s[k]))
  {
    var t := TrimStart(s);
    TrimStartCuts(s);
    TrimEndCuts(t);
    CutsCompose(s, t, TrimEnd(t), IsSpace);
  }

  /** A cut from the front followed by a cut from the back leaves a slice,
      and each cut character satisfies the predicate. */
  lemma CutsCompose(s: string, t: string, r: string, cut: char -> bool)
    requires |t| <= |s| && t == s[|s| - |t|..] && (forall k :: 0 <= k < |s| - |t| ==> cut(s[k]))
    requires |r| <= |t| && r == t[..|r|] && (forall k :: |r| <= k < |t| ==> cut(t[k]))
    ensures var i := |s| - |t|;
            i + |r| <= |s| && r == s[i..i + |r|]
            && (forall k :: 0 <= k < i ==> cut(s[k]))
            && (forall k :: i + |r| <= k < |s| ==> cut(s[k]))
  {
    var i := |s| - |t|;
    assert r == s[i..i + |r|];
    forall k | i + |r| <= k < |s| ensures cut(s[k]) {
      assert s[k] == t[k - i];
    }
  }

  /** What `trim()` keeps neither starts nor ends with white space. */
  lemma TrimmedEnds(s: string)
    ensures var r := Trim(s); r == [] || (!IsSpace(r[0]) && !IsSpace(r[|r| - 1]))
  {
    var t := TrimStart(s);
    TrimStartCuts(s);
    TrimEndCuts(t);
    var r := TrimEnd(t);
    if r != [] {
      assert r[0] == t[0];
    }
  }

  /** A value with nothing to cut is kept as it is. */
  lemma TrimKeepsTrimmed(s: string)
    requires s == [] || (!IsSpace(s[0]) && !IsSpace(s[|s| - 1]))
    ensures Trim(s) == s
  {
  }

  /** `trim()` twice is `trim()` once. */
  lemma TrimIdempotent(s: string)
    ensures Trim(Trim(s)) == Trim(s)
  {
    TrimmedEnds(s);
    TrimKeepsTrimmed(Trim(s));
  }

  /** The replacement `escape()` makes for one character. */
  function EscapeChar(c: char): string {
    match c
    case '&' => "&amp;"
    case '"' => "&quot;"
    case '\'' => "&#x27;"
    case '<' => "&lt;"
    case '>' => "&gt;"
    case '/' => "&#x2F;"
    case '\\' => "&#x5C;"
    case '`' => "&#96;"
    case _ => [c]
  }

  /** `escape()`: the HTML entities of & " ' < > / \ and the backtick. Its
      chain of global replacements starts with &, so no entity it inserts
      is rewritten again and the result is a per-character replacement. */
  function Escape(s: string): string {
    if s == [] then [] else EscapeChar(s[0]) + Escape(s[1..])
  }

  /** The characters `escape()` replaces. */
  predicate IsEscaped(c: char) {
    c == '&' || c == '"' || c == '\'' || c == '<' || c == '>' || c == '/' || c == '\\' || c == '`'
  }

  /** No markup character other than `&`, `#` and `;` of an entity is left. */
  lemma {:induction false} EscapeLeavesNoMarkup(s: string)
    ensures forall k :: 0 <= k < |Escape(s)| ==> var c := Escape(s)[k];
              c != '"' && c != '\'' && c != '<' && c != '>' && c != '/' && c != '\\' && c != '`'
  {
    if s != [] {
      EscapeLeavesNoMarkup(s[1..]);
      var e := EscapeChar(s[0]);
      forall k | 0 <= k < |e| ensures e[k] != '"' && e[k] != '\'' && e[k] != '<' && e[k] != '>' && e[k] != '/' && e[k] != '\\' && e[k] != '`' {
      }
      assert Escape(s) == e + Escape(s[1..]);
      forall k | 0 <= k < |Escape(s)| ensures Escape(s)[k] == (if k < |e| then e[k] else Escape(s[1..])[k - |e|]) {
      }
    }
  }

  predicate StartsWith(s: string, p: string) {
    |p| <= |s| && s[..|p|] == p
  }

  /** The inverse of `escape()`: each entity it writes, recognised at the
      start of the text, becomes its character again; anything else is kept. */
  function Unescape(s: string): (r: string)
    decreases |s|
  {
    if s == [] then []
    else if s[0] != '&' then [s[0]] + Unescape(s[1..])
    else if StartsWith(s, "&amp;") then "&" + Unescape(s[5..])
    else if StartsWith(s, "&quot;") then "\"" + Unescape(s[6..])
    else if StartsWith(s, "&#x27;") then "'" + Unescape(s[6..])
    else if StartsWith(s, "&lt;") then "<" + Unescape(s[4..])
    else if StartsWith(s, "&gt;") then ">" + Unescape(s[4..])
    else if StartsWith(s, "&#x2F;") then "/" + Unescape(s[6..])
    else if StartsWith(s, "&#x5C;") then "\\" + Unescape(s[6..])
    else if StartsWith(s, "&#96;") then "`" + Unescape(s[5..])
    else "&" + Unescape(s[1..])
  }

  /** An entity in front of any text is recognised as itself. */
  lemma StartsWithPrefix(p: string, t: string)
    ensures StartsWith(p + t, p) && (p + t)[|p|..] == t
  {
    assert (p + t)[..|p|] == p;
  }

  /** A text that starts with p does not start with q when they differ at k. */
  lemma StartsWithOther(s: string, p: string, q: string, k: nat)
    requires StartsWith(s, p) && k < |p| && k < |q| && p[k] != q[k]
    ensures !StartsWith(s, q)
  {
    assert s[k] == s[..|p|][k];
  }

  /** Decoding one replacement in front of any text gives back its character. */
  lemma UnescapeChar(c: char, t: string)
    ensures Unescape(EscapeChar(c) + t) == [c] + Unescape(t)
  {
    var e := EscapeChar(c);
    var s := e + t;
    StartsWithPrefix(e, t);
    match c
    case '&' =>
    case '"' =>
      StartsWithOther(s, e, "&amp;", 1);
    case '\'' =>
      StartsWithOther(s, e, "&amp;", 1);
      StartsWithOther(s, e, "&quot;", 1);
    case '<' =>
      StartsWithOther(s, e, "&amp;", 1);
      StartsWithOther(s, e, "&quot;", 1);
      StartsWithOther(s, e, "&#x27;", 1);
    case '>' =>
      StartsWithOther(s, e, "&amp;", 1);
      StartsWithOther(s, e, "&quot;", 1);
      StartsWithOther(s, e, "&#x27;", 1);
      StartsWithOther(s, e, "&lt;", 1);
    case '/' =>
      StartsWithOther(s, e, "&amp;", 1);
      StartsWithOther(s, e, "&quot;", 1);
      StartsWithOther(s, e, "&#x27;", 4);
      StartsWithOther(s, e, "&lt;", 1);
      StartsWithOther(s, e, "&gt;", 1);
    case '\\' =>
      StartsWithOther(s, e, "&amp;", 1);
      StartsWithOther(s, e, "&quot;", 1);
      StartsWithOther(s, e, "&#x27;", 3);
      StartsWithOther(s, e, "&lt;", 1);
      StartsWithOther(s, e, "&gt;", 1);
      StartsWithOther(s, e, "&#x2F;", 3);
    case '`' =>
      StartsWithOther(s, e, "&amp;", 1);
      StartsWithOther(s, e, "&quot;", 1);
      StartsWithOther(s, e, "&#x27;", 2);
      StartsWithOther(s, e, "&lt;", 1);
      StartsWithOther(s, e, "&gt;", 1);
      StartsWithOther(s, e, "&#x2F;", 2);
      StartsWithOther(s, e, "&#x5C;", 2);
    case _ =>
      assert s[0] == c && s[1..] == t;
  }

  /** `escape()` loses nothing: the entities decode to the original text,
      so two different values are never stored the same. */
  lemma {:induction false} EscapeRoundTrip(s: string)
    ensures Unescape(Escape(s)) == s
  {
    if s != [] {
      EscapeRoundTrip(s[1..]);
      UnescapeChar(s[0], Escape(s[1..]));
      assert s == [s[0]] + s[1..];
    }
  }

  /** `trim().escape()`. */
  function Sanitized(s: string): string {
    Escape(Trim(s))
  }

  /** The same on a field the chain marks `optional()`: an absent field stays absent. */
  function SanitizedOption(s: Option<string>): (r: Option<string>)
    ensures r.None? <==> s.None?
    ensures r.Some? ==> r.value == Sanitized(s.value)
  {
    if s.None? then None else Some(Sanitized(s.value))
  }

  /** `ltrim` one character at a time. */
  lemma TrimStartCons(c: char, t: string)
    ensures TrimStart([c] + t) == if IsSpace(c) then TrimStart(t) else [c] + t
  {
    assert ([c] + t)[1..] == t;
  }

  /** `rtrim` one character at a time. */
  lemma TrimEndSnoc(t: string, c: char)
    ensures TrimEnd(t + [c]) == if IsSpace(c) then TrimEnd(t) else t + [c]
  {
    assert (t + [c])[..|t|] == t;
  }

  /** The checks see the raw value and the row the sanitized one: a value
      of spaces passes `notEmpty()` and is stored empty. */
  lemma BlankPassesNotEmpty()
    ensures NotEmpty("   ") && Sanitized("   ") == ""
  {
    assert "   " == [' '] + "  " && "  " == [' '] + " " && " " == [' '] + "";
    TrimStartCons(' ', "  ");
    TrimStartCons(' ', " ");
    TrimStartCons(' ', "");
  }

  /** `trim()` of a value padded with one space on either side. */
  lemma PaddedTrimmed()
    ensures Trim(" ab ") == "ab"
  {
    assert " ab " == [' '] + "ab " && "ab " == ['a'] + "b ";
    TrimStartCons(' ', "ab ");
    TrimStartCons('a', "b ");
    assert "ab " == "ab" + [' '] && "ab" == "a" + ['b'];
    TrimEndSnoc("ab", ' ');
    TrimEndSnoc("a", 'b');
  }

  /** A padded value passes `isLength({ min: 3 })` on its padding. */
  lemma PaddedPassesLength()
    ensures |" ab "| >= 3 && Sanitized(" ab ") == "ab"
  {
    PaddedTrimmed();
    EscapePlain("ab");
  }

  /** A value too short for `isLength({ min: 3 })` grows past it when escaped. */
  lemma ShortGrowsWhenEscaped()
    ensures |"a<"| < 3 && Sanitized("a<") == "a&lt;"
  {
    var s := "a<";
    TrimKeepsTrimmed(s);
    assert s[1..] == "<" && "<"[1..] == [];
    assert Escape(s) == EscapeChar('a') + Escape("<");
    assert Escape("<") == EscapeChar('<') + Escape([]);
  }

  /** A text without any of the replaced characters is stored as sent. */
  lemma {:induction false} EscapePlain(s: string)
    requires forall k :: 0 <= k < |s| ==> !IsEscaped(s[k])
    ensures Escape(s) == s
  {
    if s != [] {
      EscapePlain(s[1..]);
      assert s == [s[0]] + s[1..];
    }
  }
}
