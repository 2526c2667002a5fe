/** The string operations of the Rust standard library that the Serve status
  classifier uses. */
module RustText {
  import opened Digits
  import opened Wrappers

  const MAX_U16: nat := 0xFFFF

  /** Reads an unsigned 16-bit number: digits, perhaps after one plus sign. */
  function ParseU16(s: string): Option<nat> {
    var digits := if s != "" && s[0] == '+' then s[1..] else s;
    if digits != "" && AllDigits(digits) && DigitsValue(digits) <= MAX_U16 then Some(DigitsValue(digits)) else None
  }

  /** Writing a port and reading it back. */
  lemma DecimalParses(n: nat)
    requires n <= MAX_U16
    ensures ParseU16(Decimal(n)) == Some(n)
  {
    assert IsDigit(Decimal(n)[0]);
  }

  /** The text writes the number: perhaps a plus sign, zeros, and its decimals. */
  ghost predicate WritesU16(text: string, n: nat) {
    && n <= 65535
    && exists zeros | AllZeros(zeros) :: text == zeros + Decimal(n) || text == "+" + (zeros + Decimal(n))
  }

  lemma ParsesExactly(text: string, n: nat)
    ensures ParseU16(text) == Some(n) <==> WritesU16(text, n)
  {
    if ParseU16(text) == Some(n) {
      var digits := if text[0] == '+' then text[1..] else text;
      var zeros := DigitsAreZerosAndDecimal(digits);
      assert text == zeros + Decimal(n) || text == "+" + (zeros + Decimal(n));
    }
    if WritesU16(text, n) {
      var zeros :| AllZeros(zeros) && (text == zeros + Decimal(n) || text == "+" + (zeros + Decimal(n)));
      WritingParses(zeros, n);
    }
  }

  lemma WritingParses(zeros: string, n: nat)
    requires AllZeros(zeros) && n <= MAX_U16
    ensures ParseU16(zeros + Decimal(n)) == Some(n) && ParseU16("+" + (zeros + Decimal(n))) == Some(n)
  {
    var digits := zeros + Decimal(n);
    ZerosAddNothing(zeros, Decimal(n));
    assert digits[0] != '+';
    assert ("+" + digits)[1..] == digits;
    hide Decimal, DigitsValue;
  }

  /** The characters with the White_Space property. */
  predicate IsWhitespace(c: char) {
    || '\t' <= c <= '\r' || c == ' ' || c == '\U{85}' || c == '\U{A0}' || c == '\U{1680}'
    || '\U{2000}' <= c <= '\U{200A}' || c == '\U{2028}' || c == '\U{2029}' || c == '\U{202F}'
    || c == '\U{205F}' || c == '\U{3000}'
  }

  /** They are 25, by code point. */
  lemma WhitespaceCodePoints(c: char)
    ensures IsWhitespace(c) <==>
            c as int in {9, 10, 11, 12, 13, 32, 133, 160, 5760, 8192, 8193, 8194, 8195, 8196, 8197, 8198, 8199, 8200,
                         8201, 8202, 8232, 8233, 8239, 8287, 12288}
  {
  }

  function TrimStart(s: string): string {
    if s != "" && IsWhitespace(s[0]) then TrimStart(s[1..]) else s
  }

  function TrimEnd(s: string): string {
    if s != "" && IsWhitespace(s[|s| - 1]) then TrimEnd(s[..|s| - 1]) else s
  }

  function Trim(s: string): string {
    TrimEnd(TrimStart(s))
  }

  predicate Blank(s: string) {
    forall k | 0 <= k < |s| :: IsWhitespace(s[k])
  }

  /** The text is `core` between white space, and `core` has none at its ends. */
  ghost predicate Pads(text: string, core: string) {
    && (core != "" ==> !IsWhitespace(core[0]) && !IsWhitespace(core[|core| - 1]))
    && exists before, after | Blank(before) && Blank(after) :: text == before + core + after
  }

  lemma {:induction false} TrimStartCuts(s: string) returns (before: string)
    ensures Blank(before) && s == before + TrimStart(s)
    ensures TrimStart(s) != "" ==> !IsWhitespace(TrimStart(s)[0])
  {
    hide IsWhitespace;
    before := "";
    if s != "" && IsWhitespace(s[0]) {
      var more := TrimStartCuts(s[1..]);
      before := [s[0]] + more;
    }
  }

  lemma {:induction false} TrimEndCuts(s: string) returns (after: string)
    ensures Blank(after) && s == TrimEnd(s) + after
    ensures TrimEnd(s) != "" ==> !IsWhitespace(TrimEnd(s)[|TrimEnd(s)| - 1])
  {
    hide IsWhitespace;
    after := "";
    if s != "" && IsWhitespace(s[|s| - 1]) {
      var more := TrimEndCuts(s[..|s| - 1]);
      after := more + [s[|s| - 1]];
    }
  }

  lemma {:induction false} TrimStartSkips(before: string, s: string)
    requires Blank(before) && (s != "" ==> !IsWhitespace(s[0]))
    ensures TrimStart(before + s) == s
  {
    hide IsWhitespace;
    if before == "" {
      assert before + s == s;
    } else {
      assert (before + s)[1..] == before[1..] + s;
      TrimStartSkips(before[1..], s);
    }
  }

  lemma {:induction false} TrimEndSkips(s: string, after: string)
    requires Blank(after) && (s != "" ==> !IsWhitespace(s[|s| - 1]))
    ensures TrimEnd(s + after) == s
  {
    hide IsWhitespace;
    if after == "" {
      assert s + after == s;
    } else {
      assert (s + after)[..|s + after| - 1] == s + after[..|after| - 1];
      TrimEndSkips(s, after[..|after| - 1]);
    }
  }

  lemma {:induction false} TrimStartOfBlank(s: string)
    requires Blank(s)
    ensures TrimStart(s) == ""
  {
    if s != "" {
      TrimStartOfBlank(s[1..]);
    }
  }

  /** Trimming is exact: a text has one core, and that is its trimmed form. */
  lemma TrimsExactly(text: string, core: string)
    ensures Trim(text) == core <==> Pads(text, core)
  {
    hide IsWhitespace;
    if Trim(text) == core {
      var before := TrimStartCuts(text);
      var after := TrimEndCuts(TrimStart(text));
      assert text == before + core + after;
      assert core != "" ==> core[0] == TrimStart(text)[0];
    }
    if Pads(text, core) {
      var before, after :| Blank(before) && Blank(after) && text == before + core + after;
      if core == "" {
        TrimStartOfBlank(text);
      } else {
        assert text == before + (core + after);
        TrimStartSkips(before, core + after);
        TrimEndSkips(core, after);
      }
    }
  }

  predicate HasPrefix(s: string, prefix: string) {
    |prefix| <= |s| && s[..|prefix|] == prefix
  }

  /** Up to the first `c`, or all of it. */
  function Before(s: string, c: char): (r: string)
    ensures |r| <= |s| && r == s[..|r|] && c !in r
    ensures |r| < |s| ==> s[|r|] == c
  {
    if s == "" || s[0] == c then "" else [s[0]] + Before(s[1..], c)
  }

  lemma {:induction false} BeforeIsFirst(head: string, c: char, tail: string)
    requires c !in head && (tail == "" || tail[0] == c)
    ensures Before(head + tail, c) == head
  {
    if head == "" {
      assert head + tail == tail;
    } else {
      assert (head + tail)[1..] == head[1..] + tail;
      BeforeIsFirst(head[1..], c, tail);
    }
  }

  /** Splits at the last `c`. */
  function RsplitOnce(s: string, c: char): (r: Option<(string, string)>)
    ensures r.Some? ==> s == r.value.0 + [c] + r.value.1 && c !in r.value.1
    ensures r == None <==> c !in s
  {
    if s == "" then None
    else if s[|s| - 1] == c then Some((s[..|s| - 1], ""))
    else
      var r := RsplitOnce(s[..|s| - 1], c);
      if r == None then None else Some((r.value.0, r.value.1 + [s[|s| - 1]]))
  }

  lemma {:induction false} RsplitIsLast(head: string, c: char, tail: string)
    requires c !in tail
    ensures RsplitOnce(head + [c] + tail, c) == Some((head, tail))
  {
    var s := head + [c] + tail;
    if tail == "" {
      assert s[..|s| - 1] == head;
    } else {
      assert s[..|s| - 1] == head + [c] + tail[..|tail| - 1];
      assert s[|s| - 1] == tail[|tail| - 1] && tail == tail[..|tail| - 1] + [tail[|tail| - 1]];
      RsplitIsLast(head, c, tail[..|tail| - 1]);
    }
  }

  function LowerAscii(s: string): (r: string)
    ensures |r| == |s|
  {
    seq(|s|, k requires 0 <= k < |s| =>
      if 'A' <= s[k] <= 'Z' then (s[k] as int + 32) as char else s[k])
  }
}
