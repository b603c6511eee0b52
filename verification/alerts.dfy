/** The pure helpers of the alert feed: the badge class of an alert level and
    the escaping of alert titles before they are put into markup. */
module Alerts {
  import opened Wrappers
  import opened JsLookup

  /** The characters that are replaced, and nothing else is. */
  predicate IsSpecial(c: char)
  {
    c == '&' || c == '<' || c == '>' || c == '"' || c == '\''
  }

  /** The replacement of one character. */
  function EscapeChar(c: char): (r: string)
    ensures !IsSpecial(c) ==> r == [c]
    ensures IsSpecial(c) ==> |r| >= 4 && r[0] == '&' && r[|r| - 1] == ';'
  {
    match c
    case '&' => "&amp;"
    case '<' => "&lt;"
    case '>' => "&gt;"
    case '"' => "&quot;"
    case '\'' => "&#39;"
    case _ => [c]
  }

  /** `escapeHtml`: every special character replaced by its entity. */
  function EscapeHtml(s: string): (r: string)
    ensures forall i :: 0 <= i < |r| ==> r[i] != '<' && r[i] != '>' && r[i] != '"' && r[i] != '\''
    ensures |r| >= |s|
  {
    if s == [] then [] else EscapeChar(s[0]) + EscapeHtml(s[1..])
  }

  /** Escaping distributes over concatenation. */
  lemma {:induction false} EscapeHtmlConcat(s: string, t: string)
    ensures EscapeHtml(s + t) == EscapeHtml(s) + EscapeHtml(t)
  {
    if s != [] {
      assert (s + t)[1..] == s[1..] + t;
      EscapeHtmlConcat(s[1..], t);
    } else {
      assert s + t == t;
    }
  }

  /** Text with no special character is left exactly as it is. */
  lemma {:induction false} EscapeHtmlPlain(s: string)
    requires forall i :: 0 <= i < |s| ==> !IsSpecial(s[i])
    ensures EscapeHtml(s) == s
  {
    if s != [] {
      EscapeHtmlPlain(s[1..]);
    }
  }

  /** Escaping is not idempotent: an ampersand is escaped again. */
  lemma EscapeHtmlNotIdempotent()
    ensures EscapeHtml("&") == "&amp;"
    ensures EscapeHtml(EscapeHtml("&")) == "&amp;amp;"
  {
    assert EscapeHtml("&") == EscapeChar('&') + EscapeHtml("");
    EscapeHtmlConcat("&", "amp;");
    EscapeHtmlPlain("amp;");
    assert "&amp;" == "&" + "amp;";
  }

  predicate StartsWith(s: string, prefix: string)
  {
    |prefix| <= |s| && s[..|prefix|] == prefix
  }

  /** How a browser reads the five entities back when it shows the text. */
  function Unescape(s: string): string
    decreases |s|
  {
    if s == [] then []
    else if s[0] != '&' then [s[0]] + Unescape(s[1..])
    else if StartsWith(s, "&amp;") then "&" + Unescape(s[5..])
    else if StartsWith(s, "&lt;") then "<" + Unescape(s[4..])
    else if StartsWith(s, "&gt;") then ">" + Unescape(s[4..])
    else if StartsWith(s, "&quot;") then "\"" + Unescape(s[6..])
    else if StartsWith(s, "&#39;") then "'" + Unescape(s[5..])
    else [s[0]] + Unescape(s[1..])
  }

  /** Reading back one escaped character, whatever follows it. */
  lemma UnescapeEscapeChar(c: char, t: string)
    ensures Unescape(EscapeChar(c) + t) == [c] + Unescape(t)
  {
    var e := EscapeChar(c);
    var s := e + t;
    assert s[..|e|] == e && s[|e|..] == t;
    if !IsSpecial(c) {
      assert s[0] == c && s[1..] == t;
    } else if c == '&' {
      assert StartsWith(s, "&amp;");
    } else if c == '<' {
      assert !StartsWith(s, "&amp;") by { assert s[1] == 'l'; }
      assert StartsWith(s, "&lt;");
    } else if c == '>' {
      assert !StartsWith(s, "&amp;") by { assert s[1] == 'g'; }
      assert !StartsWith(s, "&lt;") by { assert s[1] == 'g'; }
      assert StartsWith(s, "&gt;");
    } else if c == '"' {
      assert !StartsWith(s, "&amp;") && !StartsWith(s, "&lt;") && !StartsWith(s, "&gt;") by {
        assert s[1] == 'q';
      }
      assert StartsWith(s, "&quot;");
    } else {
      assert !StartsWith(s, "&amp;") && !StartsWith(s, "&lt;") && !StartsWith(s, "&gt;")
          && !StartsWith(s, "&quot;") by {
        assert s[1] == '#';
      }
      assert StartsWith(s, "&#39;");
    }
  }

  /** What an alert title shows after escaping is the title itself. */
  lemma {:induction false} UnescapeEscapeHtml(s: string)
    ensures Unescape(EscapeHtml(s)) == s
  {
    if s != [] {
      UnescapeEscapeChar(s[0], EscapeHtml(s[1..]));
      UnescapeEscapeHtml(s[1..]);
      assert s == [s[0]] + s[1..];
    }
  }

  /** The badge class of each level the table lists. */
  const LevelTable: map<string, string> := map["INFO" := "info", "WARN" := "warn", "CRIT" := "warn"]

  /** The key `levelToClass[a.level]` reads: an absent level is the string
      "undefined". */
  function LevelKey(level: Option<string>): (key: string)
    ensures level.Some? ==> key == level.value
    ensures level.None? ==> key == "undefined"
  {
    if level.Some? then level.value else "undefined"
  }

  /** The class `levelToClass[a.level] || 'info'` yields: a class name, or an
      inherited member (truthy, so it is not replaced by 'info'). */
  datatype BadgeValue = ClassName(name: string) | InheritedMember(member: string)

  /** `levelToClass[a.level] || 'info'` as written. */
  function BadgeClassAsWritten(level: Option<string>): (b: BadgeValue)
    ensures b.InheritedMember? <==> LevelKey(level) !in LevelTable && LevelKey(level) in InheritedNames
  {
    match LookupAsWritten(LevelTable, LevelKey(level))
    case Own(name) => ClassName(if name == "" then "info" else name)
    case Inherited(member) => InheritedMember(member)
    case Undefined => ClassName("info")
  }

  /** As written, an alert whose level is "constructor" gets no class name. */
  lemma BadgeOfInheritedLevel()
    ensures BadgeClassAsWritten(Some("constructor")) == InheritedMember("constructor")
  {
  }

  /** The badge class: "warn" for WARN and CRIT, "info" for every other level
      and for a missing one. */
  function BadgeClass(level: Option<string>): (c: string)
    ensures c == "info" || c == "warn"
    ensures c == "warn" <==> level == Some("WARN") || level == Some("CRIT")
  {
    LookupOwn(LevelTable, LevelKey(level)).GetOr("info")
  }

  /** For every level that is not an inherited name, the code as written gives
      the same class. */
  lemma BadgeClassAgrees(level: Option<string>)
    requires LevelKey(level) !in InheritedNames
    ensures BadgeClassAsWritten(level) == ClassName(BadgeClass(level))
  {
  }
}
