/** Escaping text for a property list, and reading it back. */
module XmlText {
  import opened RustText
  import opened Wrappers

  const AMP := "&amp;"
  const LT := "&lt;"
  const GT := "&gt;"
  const QUOT := "&quot;"
  const APOS := "&apos;"

  /** Every `c` becomes the entity. */
  function Replace(s: string, c: char, entity: string): string {
    if s == "" then "" else (if s[0] == c then entity else [s[0]]) + Replace(s[1..], c, entity)
  }

  function XmlEscape(value: string): string {
    Replace(Replace(Replace(Replace(Replace(value, '&', AMP), '<', LT), '>', GT), '"', QUOT), '\'', APOS)
  }

  /** The entity of each of the five characters. */
  function EscapeChar(c: char): string {
    match c
    case '&' => AMP
    case '<' => LT
    case '>' => GT
    case '"' => QUOT
    case '\'' => APOS
    case _ => [c]
  }

  function EscapeAll(s: string): string {
    if s == "" then "" else EscapeChar(s[0]) + EscapeAll(s[1..])
  }

  // ---------------------------------------------------------------------
  // Five passes are one
  // ---------------------------------------------------------------------

  lemma {:induction false} ReplaceAppend(s: string, t: string, c: char, entity: string)
    ensures Replace(s + t, c, entity) == Replace(s, c, entity) + Replace(t, c, entity)
  {
    if s == "" {
      assert s + t == t;
    } else {
      assert (s + t)[1..] == s[1..] + t;
      ReplaceAppend(s[1..], t, c, entity);
    }
  }

  lemma {:induction false} ReplaceAbsent(s: string, c: char, entity: string)
    requires c !in s
    ensures Replace(s, c, entity) == s
  {
    if s != "" {
      ReplaceAbsent(s[1..], c, entity);
    }
  }

  lemma EscapeAppend(s: string, t: string)
    ensures XmlEscape(s + t) == XmlEscape(s) + XmlEscape(t)
  {
    var s1, t1 := Replace(s, '&', AMP), Replace(t, '&', AMP);
    var s2, t2 := Replace(s1, '<', LT), Replace(t1, '<', LT);
    var s3, t3 := Replace(s2, '>', GT), Replace(t2, '>', GT);
    var s4, t4 := Replace(s3, '"', QUOT), Replace(t3, '"', QUOT);
    ReplaceAppend(s, t, '&', AMP);
    ReplaceAppend(s1, t1, '<', LT);
    ReplaceAppend(s2, t2, '>', GT);
    ReplaceAppend(s3, t3, '"', QUOT);
    ReplaceAppend(s4, t4, '\'', APOS);
  }

  lemma ReplaceOne(c: char, entity: string)
    ensures Replace([c], c, entity) == entity
  {
    assert Replace([c][1..], c, entity) == "";
  }

  lemma EscapeOne(c: char)
    ensures XmlEscape([c]) == EscapeChar(c)
  {
    ReplaceOne('&', AMP);
    ReplaceOne('<', LT);
    ReplaceOne('>', GT);
    ReplaceOne('"', QUOT);
    ReplaceOne('\'', APOS);
    hide Replace;
    if c == '&' {
      ReplaceAbsent(AMP, '<', LT);
      ReplaceAbsent(AMP, '>', GT);
      ReplaceAbsent(AMP, '"', QUOT);
      ReplaceAbsent(AMP, '\'', APOS);
    } else {
      ReplaceAbsent([c], '&', AMP);
      if c == '<' {
        ReplaceAbsent(LT, '>', GT);
        ReplaceAbsent(LT, '"', QUOT);
        ReplaceAbsent(LT, '\'', APOS);
      } else {
        ReplaceAbsent([c], '<', LT);
        if c == '>' {
          ReplaceAbsent(GT, '"', QUOT);
          ReplaceAbsent(GT, '\'', APOS);
        } else {
          ReplaceAbsent([c], '>', GT);
          if c == '"' {
            ReplaceAbsent(QUOT, '\'', APOS);
          } else {
            ReplaceAbsent([c], '"', QUOT);
            if c != '\'' {
              ReplaceAbsent([c], '\'', APOS);
            }
          }
        }
      }
    }
  }

  /** The five passes equal one pass, although each but the first also runs
      over the entities that the earlier ones wrote. */
  lemma {:induction false} OnePassSuffices(s: string)
    ensures XmlEscape(s) == EscapeAll(s)
  {
    if s != "" {
      assert s == [s[0]] + s[1..];
      EscapeAppend([s[0]], s[1..]);
      EscapeOne(s[0]);
      OnePassSuffices(s[1..]);
    }
  }

  // ---------------------------------------------------------------------
  // Reading it back
  // ---------------------------------------------------------------------

  predicate IsMarkup(c: char) {
    c == '<' || c == '>' || c == '"' || c == '\''
  }

  /** The character an entity at the start stands for, and its length. */
  function Entity(s: string): Option<(char, nat)> {
    if HasPrefix(s, AMP) then Some(('&', 5))
    else if HasPrefix(s, LT) then Some(('<', 4))
    else if HasPrefix(s, GT) then Some(('>', 4))
    else if HasPrefix(s, QUOT) then Some(('"', 6))
    else if HasPrefix(s, APOS) then Some(('\'', 6))
    else None
  }

  /** Reads character data; nothing for a bare markup character, quote or
      ampersand. */
  function Unescape(s: string): Option<string> {
    if s == "" then Some("")
    else if IsMarkup(s[0]) then None
    else if s[0] == '&' then
      var e := Entity(s);
      if e == None || e.value.1 > |s| then None
      else
        var rest := Unescape(s[e.value.1..]);
        if rest == None then None else Some([e.value.0] + rest.value)
    else
      var rest := Unescape(s[1..]);
      if rest == None then None else Some([s[0]] + rest.value)
  }

  lemma EntityReadsBack(c: char, rest: string)
    requires IsMarkup(c) || c == '&'
    ensures Entity(EscapeChar(c) + rest) == Some((c, |EscapeChar(c)|))
    ensures (EscapeChar(c) + rest)[0] == '&' && (EscapeChar(c) + rest)[|EscapeChar(c)|..] == rest
  {
    var s := EscapeChar(c) + rest;
    assert HasPrefix(s, EscapeChar(c));
    assert s[1] == EscapeChar(c)[1] && s[2] == EscapeChar(c)[2];
    assert HasPrefix(s, AMP) ==> s[1] == 'a' && s[2] == 'm';
    assert HasPrefix(s, LT) ==> s[1] == 'l';
    assert HasPrefix(s, GT) ==> s[1] == 'g';
    assert HasPrefix(s, QUOT) ==> s[1] == 'q';
  }

  /** Every string comes back, and on the way no markup character, quote or
      ampersand stood bare. */
  lemma {:induction false} EscapeRoundTrips(s: string)
    ensures Unescape(XmlEscape(s)) == Some(s)
  {
    OnePassSuffices(s);
    if s != "" {
      EscapeRoundTrips(s[1..]);
      OnePassSuffices(s[1..]);
      var rest := EscapeAll(s[1..]);
      assert s == [s[0]] + s[1..];
      if IsMarkup(s[0]) || s[0] == '&' {
        EntityReadsBack(s[0], rest);
      } else {
        assert ([s[0]] + rest)[1..] == rest;
      }
    }
  }

  /** What `Unescape` accepts has no markup character or quote anywhere, and
      every ampersand in it starts one of the five entities. */
  lemma {:induction false} AcceptedTextIsClean(s: string, k: nat)
    requires Unescape(s).Some? && k < |s|
    ensures !IsMarkup(s[k]) && (s[k] == '&' ==> Entity(s[k..]).Some?)
    decreases |s|
  {
    var n := if s[0] == '&' then Entity(s).value.1 else 1;
    if k >= n {
      AcceptedTextIsClean(s[n..], k - n);
      assert s[n..][k - n..] == s[k..];
    } else if k > 0 {
      EntityBody(s, k);
    } else {
      assert s[0..] == s;
    }
  }

  lemma EntityBody(s: string, k: nat)
    requires Entity(s).Some? && 0 < k < Entity(s).value.1 <= |s|
    ensures !IsMarkup(s[k]) && s[k] != '&'
  {
    var e := Entity(s).value;
    assert s[..e.1] == EscapeChar(e.0);
    assert s[k] == EscapeChar(e.0)[k];
  }

  lemma EscapedTextIsClean(s: string, k: nat)
    requires k < |XmlEscape(s)|
    ensures var t := XmlEscape(s);
            && t[k] != '<' && t[k] != '>' && t[k] != '"' && t[k] != '\''
            && (t[k] == '&' ==> Entity(t[k..]).Some?)
  {
    EscapeRoundTrips(s);
    AcceptedTextIsClean(XmlEscape(s), k);
  }

  /** The five entities of section 4.6 of XML 1.0, and nothing else replaced. */
  lemma PredefinedEntities(c: char)
    ensures XmlEscape([c]) ==
            if c == '&' then "&amp;" else if c == '<' then "&lt;" else if c == '>' then "&gt;"
            else if c == '"' then "&quot;" else if c == '\'' then "&apos;" else [c]
  {
    EscapeOne(c);
  }
}
