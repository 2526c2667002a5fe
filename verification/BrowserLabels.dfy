/** Main-window labels and the native labels and prefixes built from them. */
module BrowserLabels {

  const BROWSER_LABEL_PREFIX: string := "cave-browser-"
  const PRIMARY_MAIN_WINDOW_LABEL: string := "main"
  const SECONDARY_MAIN_WINDOW_PREFIX: string := "main-"

  predicate AsciiAlphanumeric(c: char) {
    'a' <= c <= 'z' || 'A' <= c <= 'Z' || '0' <= c <= '9'
  }

  predicate StartsWith(s: string, prefix: string) {
    prefix <= s
  }

  predicate Contains(s: string, part: string) {
    exists i | 0 <= i <= |s| :: part <= s[i..]
  }

  function StripPrefix(s: string, prefix: string, otherwise: string): string {
    if StartsWith(s, prefix) then s[|prefix|..] else otherwise
  }

  predicate IsMainWindowLabel(name: string) {
    name == PRIMARY_MAIN_WINDOW_LABEL
    || (StartsWith(name, SECONDARY_MAIN_WINDOW_PREFIX) && IsWindowIdentity(name[|SECONDARY_MAIN_WINDOW_PREFIX|..]))
  }

  predicate IsWindowIdentity(identity: string) {
    && 0 < |identity| <= 64
    && AsciiAlphanumeric(identity[0]) && AsciiAlphanumeric(identity[|identity| - 1])
    && !Contains(identity, "--")
    && forall c | c in identity :: AsciiAlphanumeric(c) || c == '-' || c == '_'
  }

  function SafeCharacters(raw: string): string {
    if raw == [] then [] else Filtered(raw[0]) + SafeCharacters(raw[1..])
  }

  function Filtered(c: char): string {
    if AsciiAlphanumeric(c) || c == '-' || c == '_' then [c] else []
  }

  function SafeBrowserLabel(raw: string): string {
    var safe := SafeCharacters(raw);
    var short := if |safe| <= 64 then safe else safe[..64];
    BROWSER_LABEL_PREFIX + if short == [] then "default" else short
  }

  function OwnerPrefix(windowLabel: string): string {
    BROWSER_LABEL_PREFIX + "window-" + windowLabel + "--"
  }

  function NativeLabel(windowLabel: string, clientLabel: string): string {
    OwnerPrefix(windowLabel) + StripPrefix(clientLabel, BROWSER_LABEL_PREFIX, "default")
  }

  function ScopePrefix(windowLabel: string, clientPrefix: string): string {
    OwnerPrefix(windowLabel) + StripPrefix(clientPrefix, BROWSER_LABEL_PREFIX, "")
  }

  /** No two adjacent dashes, and no dash at the end. */
  predicate DashSafe(name: string) {
    && name != []
    && name[|name| - 1] != '-'
    && forall i | 0 <= i < |name| - 1 :: name[i] != '-' || name[i + 1] != '-'
  }

  lemma DoubleDash(s: string)
    ensures !Contains(s, "--") ==> forall i | 0 <= i < |s| - 1 :: s[i] != '-' || s[i + 1] != '-'
  {
    forall i | 0 <= i < |s| - 1 && s[i] == '-' && s[i + 1] == '-'
      ensures Contains(s, "--")
    {
      assert "--" <= s[i..];
    }
  }

  lemma MainWindowLabelIsDashSafe(name: string)
    requires IsMainWindowLabel(name)
    ensures DashSafe(name)
  {
    if name != PRIMARY_MAIN_WINDOW_LABEL {
      var identity := name[|SECONDARY_MAIN_WINDOW_PREFIX|..];
      DoubleDash(identity);
      assert name[4] == '-' && name[5] == identity[0] && name[3] == 'n';
      forall i | 0 <= i < |name| - 1
        ensures name[i] != '-' || name[i + 1] != '-'
      {
        if i >= 5 {
          assert name[i] == identity[i - 5] && name[i + 1] == identity[i - 5 + 1];
        }
      }
    }
  }

  /** A label ended with two dashes is no prefix of such a text for another
      label. */
  lemma DashedPrefix(a: string, b: string, resource: string)
    requires DashSafe(a) && DashSafe(b) && a != b
    ensures !(a + "--" <= b + "--" + resource)
  {
    var x, y := a + "--", b + "--" + resource;
    if |a| < |b| {
      assert x[|a|] == x[|a| + 1] == '-' && y[|a|] == b[|a|];
      assert y[|a|] != '-' || (|a| + 1 < |b| && y[|a| + 1] == b[|a| + 1] != '-');
    } else if |b| < |a| {
      assert y[|b|] == y[|b| + 1] == '-' && x[|b|] == a[|b|];
      assert x[|b|] != '-' || (|b| + 1 < |a| && x[|b| + 1] == a[|b| + 1] != '-');
    } else {
      assert x[..|a|] == a && y[..|a|] == b;
    }
  }

  /** Everything named under one valid window's owner prefix lies outside
      every other valid window's owner prefix. */
  lemma OwnerPrefixesAreDisjoint(one: string, other: string, resource: string)
    requires IsMainWindowLabel(one) && IsMainWindowLabel(other)
    requires StartsWith(OwnerPrefix(other) + resource, OwnerPrefix(one))
    ensures one == other
  {
    MainWindowLabelIsDashSafe(one);
    MainWindowLabelIsDashSafe(other);
    var head := BROWSER_LABEL_PREFIX + "window-";
    var x, y := OwnerPrefix(one), OwnerPrefix(other) + resource;
    assert x == head + (one + "--");
    assert y == head + (other + "--" + resource);
    assert x[|head|..] == one + "--" && y[|head|..] == other + "--" + resource;
    assert x[|head|..] <= y[|head|..];
    if one != other {
      DashedPrefix(one, other, resource);
    }
  }

  /** Labels of different windows differ, and neither owner prefix is a prefix
      of anything the other window can name. */
  lemma WindowsAreIsolated(one: string, other: string, client: string)
    requires IsMainWindowLabel(one) && IsMainWindowLabel(other) && one != other
    ensures !StartsWith(NativeLabel(other, client), OwnerPrefix(one))
    ensures !StartsWith(ScopePrefix(other, client), OwnerPrefix(one))
    ensures forall mine: string :: NativeLabel(one, mine) != NativeLabel(other, client)
  {
    var native := StripPrefix(client, BROWSER_LABEL_PREFIX, "default");
    if StartsWith(NativeLabel(other, client), OwnerPrefix(one)) {
      OwnerPrefixesAreDisjoint(one, other, native);
    }
    if StartsWith(ScopePrefix(other, client), OwnerPrefix(one)) {
      OwnerPrefixesAreDisjoint(one, other, StripPrefix(client, BROWSER_LABEL_PREFIX, ""));
    }
    forall mine: string
      ensures NativeLabel(one, mine) != NativeLabel(other, client)
    {
      assert StartsWith(NativeLabel(one, mine), OwnerPrefix(one));
    }
  }

  /** Without the rules on dashes this fails: a name that another one extends
      by two dashes owns a prefix of that one's labels. */
  lemma DashesWouldCollide()
    ensures !IsMainWindowLabel("main--x")
    ensures StartsWith(NativeLabel("main--x", "cave-browser-home"), OwnerPrefix("main"))
  {
    var identity := "main--x"[|SECONDARY_MAIN_WINDOW_PREFIX|..];
    assert identity[0] == '-';
    assert OwnerPrefix("main--x") == OwnerPrefix("main") + "x--";
  }

  // ---------------------------------------------------------------------
  // Which labels there are
  // ---------------------------------------------------------------------

  predicate WordCharacter(c: char) {
    'a' <= c <= 'z' || 'A' <= c <= 'Z' || '0' <= c <= '9' || c == '_'
  }

  /** One to 64 letters, digits, underscores and dashes; dashes stand alone and
      only inside, and neither end is an underscore. */
  predicate IsIdentity(identity: string) {
    && 1 <= |identity| <= 64
    && identity[0] != '_' && identity[|identity| - 1] != '_'
    && forall k | 0 <= k < |identity| ::
         WordCharacter(identity[k]) || (identity[k] == '-' && 0 < k < |identity| - 1 && identity[k + 1] != '-')
  }

  lemma DashesMeet(s: string)
    ensures Contains(s, "--") ==> exists i | 0 <= i < |s| - 1 :: s[i] == '-' && s[i + 1] == '-'
  {
    if Contains(s, "--") {
      var i :| 0 <= i <= |s| && "--" <= s[i..];
      assert s[i..][0] == '-' && s[i..][1] == '-';
      assert s[i] == '-' && s[i + 1] == '-';
    }
  }

  lemma IdentitiesExactly(identity: string)
    ensures IsWindowIdentity(identity) <==> IsIdentity(identity)
  {
    DoubleDash(identity);
    DashesMeet(identity);
    hide Contains;
    if IsIdentity(identity) {
      forall c | c in identity
        ensures AsciiAlphanumeric(c) || c == '-' || c == '_'
      {
        var k :| 0 <= k < |identity| && identity[k] == c;
        assert WordCharacter(identity[k]) || identity[k] == '-';
      }
    }
    if IsWindowIdentity(identity) {
      forall k | 0 <= k < |identity|
        ensures WordCharacter(identity[k]) || (identity[k] == '-' && 0 < k < |identity| - 1 && identity[k + 1] != '-')
      {
        assert identity[k] in identity;
      }
    }
  }

  /** The main windows are the primary one and those named after an identity. */
  lemma MainWindowLabelsExactly(name: string)
    ensures IsMainWindowLabel(name) <==>
            name == "main" || exists identity :: IsIdentity(identity) && name == "main-" + identity
  {
    if StartsWith(name, SECONDARY_MAIN_WINDOW_PREFIX) {
      var identity := name[|SECONDARY_MAIN_WINDOW_PREFIX|..];
      IdentitiesExactly(identity);
      assert name == "main-" + identity;
    }
    hide IsWindowIdentity, IsIdentity;
    if identity :| IsIdentity(identity) && name == "main-" + identity {
      assert name[|SECONDARY_MAIN_WINDOW_PREFIX|..] == identity;
    }
  }

  predicate IsSafe(s: string) {
    forall k | 0 <= k < |s| :: WordCharacter(s[k]) || s[k] == '-'
  }

  /** Filtering goes character by character, in order. */
  lemma {:induction false} FilterAppend(raw: string, more: string)
    ensures SafeCharacters(raw + more) == SafeCharacters(raw) + SafeCharacters(more)
  {
    hide Filtered;
    if raw == "" {
      assert raw + more == more;
    } else {
      assert (raw + more)[1..] == raw[1..] + more;
      FilterAppend(raw[1..], more);
      FilterFirst(raw + more);
      FilterFirst(raw);
      hide SafeCharacters;
      var first, rest, end := Filtered(raw[0]), SafeCharacters(raw[1..]), SafeCharacters(more);
      assert (first + rest) + end == first + (rest + end);
    }
  }

  lemma FilterFirst(raw: string)
    requires raw != ""
    ensures SafeCharacters(raw) == Filtered(raw[0]) + SafeCharacters(raw[1..])
  {
  }

  /** It keeps what is safe and drops every other character. */
  lemma {:induction false} FilterKeeps(raw: string)
    ensures IsSafe(SafeCharacters(raw)) && |SafeCharacters(raw)| <= |raw|
    ensures IsSafe(raw) <==> SafeCharacters(raw) == raw
    ensures SafeCharacters(raw) == "" <==> forall k | 0 <= k < |raw| :: !WordCharacter(raw[k]) && raw[k] != '-'
  {
    if raw != "" {
      FilterKeeps(raw[1..]);
      assert raw == [raw[0]] + raw[1..];
      var safe := WordCharacter(raw[0]) || raw[0] == '-';
      assert IsSafe(raw) <==> safe && IsSafe(raw[1..]);
      if !safe {
        assert |SafeCharacters(raw)| < |raw|;
      }
    }
  }

  /** A client label is the fixed prefix and one to 64 safe characters: the
      first ones of the input, or the word default if it has none. Labels of
      that form, whole ones and the rest of them, are kept as they are. */
  lemma SafeLabelsExactly(raw: string)
    ensures var client := SafeBrowserLabel(raw);
            var safe := SafeCharacters(raw);
            && StartsWith(client, "cave-browser-") && IsSafe(client) && 1 <= |client| - 13 <= 64
            && (safe == "" ==> client == "cave-browser-default")
            && (safe != "" && |safe| <= 64 ==> client == "cave-browser-" + safe)
            && (|safe| > 64 ==> client == "cave-browser-" + safe[..64])
    ensures IsSafe(raw) && 1 <= |raw| <= 64 ==> SafeBrowserLabel(raw) == "cave-browser-" + raw
  {
    FilterKeeps(raw);
    hide SafeCharacters;
  }

  /** A native label tells its window and its client label. */
  lemma NativeLabelsAreDistinct(one: string, other: string, mine: string, client: string)
    requires IsMainWindowLabel(one) && IsMainWindowLabel(other)
    requires StartsWith(mine, BROWSER_LABEL_PREFIX) && StartsWith(client, BROWSER_LABEL_PREFIX)
    requires NativeLabel(one, mine) == NativeLabel(other, client)
    ensures one == other && mine == client
  {
    if one != other {
      WindowsAreIsolated(one, other, client);
    }
    var head := |OwnerPrefix(one)|;
    assert NativeLabel(one, mine)[head..] == mine[|BROWSER_LABEL_PREFIX|..];
    assert NativeLabel(one, client)[head..] == client[|BROWSER_LABEL_PREFIX|..];
    assert mine == BROWSER_LABEL_PREFIX + mine[|BROWSER_LABEL_PREFIX|..];
    assert client == BROWSER_LABEL_PREFIX + client[|BROWSER_LABEL_PREFIX|..];
    hide IsMainWindowLabel;
  }
}
