/** Reading a process identity from a line of /proc/pid/stat. */
module LinuxStat {
  import opened Digits
  import opened Wrappers

  const MAX_SAFE_INTEGER: nat := 0x1F_FFFF_FFFF_FFFF

  datatype ProcessInfo = ProcessInfo(pid: nat, parentPid: int, group: nat, session: nat, token: string)

  datatype ParseError = Malformed | MissingFields

  // ---------------------------------------------------------------------
  // String operations
  // ---------------------------------------------------------------------

  /** The characters that `trim` removes and `\s` matches. */
  predicate IsSpace(c: char) {
    || '\t' <= c <= '\r' || c == ' ' || c == '\U{A0}' || c == '\U{1680}' || '\U{2000}' <= c <= '\U{200A}'
    || c == '\U{2028}' || c == '\U{2029}' || c == '\U{202F}' || c == '\U{205F}' || c == '\U{3000}' || c == '\U{FEFF}'
  }

  predicate NoSpace(s: string) {
    forall k | 0 <= k < |s| :: !IsSpace(s[k])
  }

  function IndexOf(s: string, c: char): (r: Option<nat>)
    ensures r.Some? ==> r.value < |s| && s[r.value] == c && c !in s[..r.value]
    ensures r == None ==> c !in s
  {
    if s == "" then None
    else if s[0] == c then Some(0)
    else
      var r := IndexOf(s[1..], c);
      if r == None then None else assert s[..r.value + 1] == [s[0]] + s[1..][..r.value]; Some(r.value + 1)
  }

  function LastIndexOf(s: string, c: char): (r: Option<nat>)
    ensures r.Some? ==> r.value < |s| && s[r.value] == c && c !in s[r.value + 1..]
    ensures r == None ==> c !in s
  {
    if s == "" then None
    else if s[|s| - 1] == c then Some(|s| - 1)
    else
      var r := LastIndexOf(s[..|s| - 1], c);
      if r.Some? then
        assert s[r.value + 1..] == s[..|s| - 1][r.value + 1..] + [s[|s| - 1]];
        r
      else r
  }

  function TrimStart(s: string): string {
    if s != "" && IsSpace(s[0]) then TrimStart(s[1..]) else s
  }

  function TrimEnd(s: string): string {
    if s != "" && IsSpace(s[|s| - 1]) then TrimEnd(s[..|s| - 1]) else s
  }

  function Trim(s: string): string {
    TrimEnd(TrimStart(s))
  }

  /** Up to the first space. */
  function FirstWord(s: string): (w: string)
    ensures |w| <= |s| && w == s[..|w|] && NoSpace(w)
    ensures |w| < |s| ==> IsSpace(s[|w|])
  {
    if s == "" || IsSpace(s[0]) then "" else [s[0]] + FirstWord(s[1..])
  }

  /** Splits at runs of spaces. */
  function Split(s: string): seq<string>
    decreases |s|
  {
    var w := FirstWord(s);
    if |w| == |s| then [s] else [w] + Split(AfterSpaces(s[|w|..]))
  }

  /** Drops a run of spaces, which is not empty. */
  function AfterSpaces(s: string): (r: string)
    requires s != "" && IsSpace(s[0])
    ensures |r| < |s|
  {
    if |s| > 1 && IsSpace(s[1]) then AfterSpaces(s[1..]) else s[1..]
  }

  // ---------------------------------------------------------------------
  // Parsing
  // ---------------------------------------------------------------------

  /** The number a decimal text stands for; other texts are not numbers. */
  function ToNumber(s: string): Option<int> {
    if s != "" && AllDigits(s) then Some(DigitsValue(s))
    else if |s| > 1 && s[0] == '-' && AllDigits(s[1..]) then Some(-(DigitsValue(s[1..]) as int))
    else None
  }

  predicate IsSafeInteger(n: Option<int>) {
    n.Some? && -(MAX_SAFE_INTEGER as int) <= n.value <= MAX_SAFE_INTEGER
  }

  predicate IsValidPid(n: Option<int>) {
    IsSafeInteger(n) && n.value > 0
  }

  function FieldAt(fields: seq<string>, k: nat): Option<string> {
    if k < |fields| then Some(fields[k]) else None
  }

  function NumberAt(fields: seq<string>, k: nat): Option<int> {
    if k < |fields| then ToNumber(fields[k]) else None
  }

  function Token(bootId: string, pid: nat, startTicks: string): string {
    "linux:" + bootId + ":" + Decimal(pid) + ":" + startTicks
  }

  /** The fields after the command name, which ends at the last parenthesis. */
  function CommandFields(stat: string): (r: Option<seq<string>>)
    ensures r.Some? <==> ')' in stat
  {
    var end := LastIndexOf(stat, ')');
    if end == None then None else Some(Split(Trim(stat[end.value + 1..])))
  }

  function ParseLinuxProcessInfo(stat: string, bootId: string): Result<ProcessInfo, ParseError> {
    var end, start := LastIndexOf(stat, ')'), IndexOf(stat, '(');
    if start == None || end == None || end.value < start.value then Err(Malformed)
    else
      var pid := ToNumber(Trim(stat[..start.value]));
      IdentityOf(pid, CommandFields(stat).value, bootId)
  }

  function IdentityOf(pid: Option<int>, fields: seq<string>, bootId: string): Result<ProcessInfo, ParseError> {
    var parentPid, group, session := NumberAt(fields, 1), NumberAt(fields, 2), NumberAt(fields, 3);
    var startTicks := FieldAt(fields, 19);
    if !IsValidPid(pid) || !IsSafeInteger(parentPid) || !IsValidPid(group) || !IsValidPid(session)
       || startTicks == None || startTicks.value == "" || !AllDigits(startTicks.value)
    then Err(MissingFields)
    else Ok(ProcessInfo(pid.value, parentPid.value, group.value, session.value,
                        Token(bootId, pid.value, startTicks.value)))
  }

  predicate LinuxTaskIsExiting(stat: string) {
    var fields := CommandFields(stat);
    fields.Some? &&
    (|| FieldAt(fields.value, 0) == Some("Z") || FieldAt(fields.value, 0) == Some("X")
     || FieldAt(fields.value, 2) == Some("-1") || FieldAt(fields.value, 3) == Some("-1"))
  }

  /** Nothing for a task without a group or session of its own. */
  function ParseLinuxProcessInfoForScan(stat: string, bootId: string): Result<Option<ProcessInfo>, ParseError> {
    if LinuxTaskIsExiting(stat) then Ok(None)
    else
      var fields := CommandFields(stat).GetOr([]);
      if FieldAt(fields, 2) == Some("0") || FieldAt(fields, 3) == Some("0") then Ok(None)
      else
        var info := ParseLinuxProcessInfo(stat, bootId);
        if info.Ok? then Ok(Some(info.value)) else Err(info.error)
  }

  // ---------------------------------------------------------------------
  // What the kernel writes
  // ---------------------------------------------------------------------

  /** The fields of proc_pid_stat(5): the identity, the ones between, and the
      ones after the start time. The name is any string. */
  datatype Stat = Stat(
    pid: nat,
    name: string,
    state: char,
    parentPid: nat,
    group: int,
    session: int,
    between: seq<int>,
    startTicks: nat,
    rest: seq<int>)

  predicate WellFormed(r: Stat) {
    && 0 < r.pid <= MAX_SAFE_INTEGER && r.parentPid <= MAX_SAFE_INTEGER
    && -1 <= r.group <= MAX_SAFE_INTEGER && -1 <= r.session <= MAX_SAFE_INTEGER
    && 'A' <= r.state <= 'z'
    && |r.between| == 15
  }

  function Integer(n: int): string {
    if n < 0 then "-" + Decimal(-n) else Decimal(n)
  }

  function Integers(ns: seq<int>): seq<string> {
    if ns == [] then [] else [Integer(ns[0])] + Integers(ns[1..])
  }

  function Words(r: Stat): seq<string> {
    [[r.state], Decimal(r.parentPid), Integer(r.group), Integer(r.session)]
    + Integers(r.between) + [Decimal(r.startTicks)] + Integers(r.rest)
  }

  function Join(words: seq<string>): string {
    if words == [] then "" else if |words| == 1 then words[0] else words[0] + " " + Join(words[1..])
  }

  function Render(r: Stat): string {
    Decimal(r.pid) + " (" + r.name + ") " + Join(Words(r)) + "\n"
  }

  // ---------------------------------------------------------------------
  // Reading back words
  // ---------------------------------------------------------------------

  /** A field: not empty, and free of spaces and closing parentheses. */
  predicate IsWord(w: string) {
    w != "" && NoSpace(w) && ')' !in w
  }

  lemma DecimalIsWord(n: nat)
    ensures IsWord(Decimal(n)) && '(' !in Decimal(n)
  {
    var s := Decimal(n);
    assert forall k | 0 <= k < |s| :: IsDigit(s[k]);
  }

  lemma IntegerIsWord(n: int)
    ensures IsWord(Integer(n)) && ToNumber(Integer(n)) == Some(n)
  {
    if n < 0 {
      DecimalIsWord(-n);
      assert Integer(n)[1..] == Decimal(-n);
      assert !AllDigits(Integer(n)) by { assert !IsDigit(Integer(n)[0]); }
    } else {
      DecimalIsWord(n);
    }
  }

  lemma {:induction false} IntegersAreWords(ns: seq<int>)
    ensures |Integers(ns)| == |ns|
    ensures forall w | w in Integers(ns) :: IsWord(w)
  {
    if ns != [] {
      IntegerIsWord(ns[0]);
      IntegersAreWords(ns[1..]);
    }
  }

  lemma {:induction false} JoinShape(words: seq<string>)
    requires words != [] && forall w | w in words :: IsWord(w)
    ensures Join(words) != "" && ')' !in Join(words)
    ensures !IsSpace(Join(words)[0]) && !IsSpace(Join(words)[|Join(words)| - 1])
  {
    assert IsWord(words[0]);
    if |words| > 1 {
      JoinShape(words[1..]);
      var tail := Join(words[1..]);
      var s := Join(words);
      assert s == words[0] + " " + tail;
      assert s[0] == words[0][0] && s[|s| - 1] == tail[|tail| - 1];
    }
  }

  lemma {:induction false} FirstWordOf(w: string, rest: string)
    requires NoSpace(w) && (rest == "" || IsSpace(rest[0]))
    ensures FirstWord(w + rest) == w
  {
    if w == "" {
      assert w + rest == rest;
    } else {
      assert (w + rest)[1..] == w[1..] + rest && (w + rest)[0] == w[0];
      FirstWordOf(w[1..], rest);
    }
  }

  lemma SplitWord(w: string, tail: string)
    requires NoSpace(w) && tail != "" && !IsSpace(tail[0])
    ensures Split(w + (" " + tail)) == [w] + Split(tail)
  {
    var s := w + (" " + tail);
    FirstWordOf(w, " " + tail);
    assert s[|w|..] == " " + tail;
    assert (" " + tail)[1..] == tail && (" " + tail)[1] == tail[0];
  }

  /** Splitting undoes joining. */
  lemma {:induction false} SplitJoin(words: seq<string>)
    requires words != [] && forall w | w in words :: IsWord(w)
    ensures Split(Join(words)) == words
  {
    assert IsWord(words[0]);
    if |words| == 1 {
      FirstWordOf(words[0], "");
      assert words[0] + "" == words[0];
    } else {
      SplitJoin(words[1..]);
      JoinShape(words[1..]);
      assert Join(words) == words[0] + (" " + Join(words[1..]));
      SplitWord(words[0], Join(words[1..]));
    }
  }

  /** Trimming removes single spaces around a text without outer spaces. */
  lemma TrimAround(before: string, s: string, after: string)
    requires s != "" && !IsSpace(s[0]) && !IsSpace(s[|s| - 1])
    requires |before| <= 1 && |after| <= 1
    requires (before != "" ==> IsSpace(before[0])) && (after != "" ==> IsSpace(after[0]))
    ensures Trim(before + s + after) == s
  {
    var t := before + s + after;
    if before == "" {
      assert t == s + after;
    } else {
      assert t[0] == before[0] && t[1..] == s + after;
    }
    assert (s + after)[0] == s[0];
    assert TrimStart(t) == s + after;
    assert TrimEnd(s) == s;
    if after == "" {
      assert s + after == s;
    } else {
      assert after == [after[0]];
      assert (s + after)[|s + after| - 1] == after[0] && (s + after)[..|s + after| - 1] == s;
      assert TrimEnd(s + after) == TrimEnd(s);
    }
  }

  lemma {:induction false} IndexOfFirst(before: string, c: char, after: string)
    requires c !in before
    ensures IndexOf(before + [c] + after, c) == Some(|before|)
  {
    var s := before + [c] + after;
    if before == "" {
      assert s[0] == c;
    } else {
      assert s[0] == before[0] && s[1..] == before[1..] + [c] + after;
      IndexOfFirst(before[1..], c, after);
    }
  }

  lemma {:induction false} LastIndexOfLast(before: string, c: char, after: string)
    requires c !in after
    ensures LastIndexOf(before + [c] + after, c) == Some(|before|)
  {
    var s := before + [c] + after;
    if after == "" {
      assert s[|s| - 1] == c;
    } else {
      var n := |after| - 1;
      assert s[|s| - 1] == after[n] && s[..|s| - 1] == before + [c] + after[..n];
      LastIndexOfLast(before, c, after[..n]);
    }
  }

  // ---------------------------------------------------------------------
  // The round trip
  // ---------------------------------------------------------------------

  lemma WordsAreWords(r: Stat)
    requires WellFormed(r)
    ensures Words(r) != [] && forall w | w in Words(r) :: IsWord(w)
  {
    IntegersAreWords(r.between);
    IntegersAreWords(r.rest);
    DecimalIsWord(r.parentPid);
    DecimalIsWord(r.startTicks);
    IntegerIsWord(r.group);
    IntegerIsWord(r.session);
    hide Integers, Integer, Decimal;
  }

  lemma WordsAt(r: Stat)
    requires WellFormed(r)
    ensures var ws := Words(r);
            && FieldAt(ws, 0) == Some([r.state]) && FieldAt(ws, 2) == Some(Integer(r.group))
            && FieldAt(ws, 3) == Some(Integer(r.session)) && FieldAt(ws, 19) == Some(Decimal(r.startTicks))
            && NumberAt(ws, 1) == Some(r.parentPid)
            && NumberAt(ws, 2) == Some(r.group) && NumberAt(ws, 3) == Some(r.session)
  {
    IntegersAreWords(r.between);
    IntegerIsWord(r.parentPid);
    IntegerIsWord(r.group);
    IntegerIsWord(r.session);
    assert Decimal(r.parentPid) == Integer(r.parentPid);
    hide Integers, Integer, Decimal, ToNumber, IsWord;
  }

  lemma RenderedStart(r: Stat)
    requires WellFormed(r)
    ensures IndexOf(Render(r), '(') == Some(|Decimal(r.pid)| + 1)
    ensures Trim(Render(r)[..|Decimal(r.pid)| + 1]) == Decimal(r.pid)
  {
    var pid, after := Decimal(r.pid), r.name + ") " + Join(Words(r)) + "\n";
    DecimalIsWord(r.pid);
    hide Words, Join, Decimal, Trim;
    assert Render(r) == (pid + " ") + ['('] + after;
    IndexOfFirst(pid + " ", '(', after);
    assert Render(r)[..|pid| + 1] == "" + pid + " ";
    TrimAround("", pid, " ");
  }

  /** What follows the command name. */
  function Tail(r: Stat): string {
    " " + Join(Words(r)) + "\n"
  }

  lemma TailSplits(r: Stat)
    requires WellFormed(r)
    ensures ')' !in Tail(r) && Split(Trim(Tail(r))) == Words(r)
  {
    var joined := Join(Words(r));
    WordsAreWords(r);
    JoinShape(Words(r));
    SplitJoin(Words(r));
    hide Words, Join, IsWord, Trim, Split;
    TrimAround(" ", joined, "\n");
  }

  lemma RenderShape(r: Stat) returns (head: string)
    ensures Render(r) == head + [')'] + Tail(r)
    ensures |head| == |Decimal(r.pid)| + 2 + |r.name|
  {
    hide Words, Join, Decimal;
    head := Decimal(r.pid) + " (" + r.name;
    ParenthesisBetween(head, Join(Words(r)));
  }

  lemma RenderedEnd(r: Stat)
    requires WellFormed(r)
    ensures CommandFields(Render(r)) == Some(Words(r))
    ensures LastIndexOf(Render(r), ')') == Some(|Decimal(r.pid)| + 2 + |r.name|)
  {
    hide Render, CommandFields, Words, Decimal, Trim, Split, LastIndexOf, Tail, WellFormed;
    TailSplits(r);
    var head := RenderShape(r);
    FieldsAfterHead(head, Tail(r));
  }

  lemma FieldsAfterHead(head: string, tail: string)
    requires ')' !in tail
    ensures CommandFields(head + [')'] + tail) == Some(Split(Trim(tail)))
    ensures LastIndexOf(head + [')'] + tail, ')') == Some(|head|)
  {
    hide Trim, Split, LastIndexOf;
    LastIndexOfLast(head, ')', tail);
    AfterParenthesis(head, tail);
  }

  lemma ParenthesisBetween(head: string, joined: string)
    ensures head + ") " + joined + "\n" == head + [')'] + (" " + joined + "\n")
  {
  }

  lemma AfterParenthesis(head: string, tail: string)
    ensures (head + [')'] + tail)[|head| + 1..] == tail
  {
  }

  /** Whatever the name contains, a rendered record with a group and a session
      is read back exactly. */
  lemma RenderedIsReadBack(r: Stat, bootId: string)
    requires WellFormed(r) && r.group > 0 && r.session > 0
    ensures ParseLinuxProcessInfo(Render(r), bootId)
         == Ok(ProcessInfo(r.pid, r.parentPid, r.group, r.session, Token(bootId, r.pid, Decimal(r.startTicks))))
  {
    RenderedStart(r);
    RenderedEnd(r);
    IntegerIsWord(r.pid);
    hide Render, Trim, Words, IdentityOf, LastIndexOf, IndexOf, ToNumber, CommandFields, IsWord;
    IdentityOfWords(r, bootId);
  }

  lemma IdentityOfWords(r: Stat, bootId: string)
    requires WellFormed(r) && r.group > 0 && r.session > 0
    ensures IdentityOf(Some(r.pid), Words(r), bootId)
         == Ok(ProcessInfo(r.pid, r.parentPid, r.group, r.session, Token(bootId, r.pid, Decimal(r.startTicks))))
  {
    WordsAt(r);
    hide Words, FieldAt, NumberAt, Token, Integer;
  }

  lemma ExitingExactly(r: Stat)
    requires WellFormed(r)
    ensures LinuxTaskIsExiting(Render(r)) <==> r.state == 'Z' || r.state == 'X' || r.group == -1 || r.session == -1
  {
    RenderedEnd(r);
    WordsAt(r);
    IntegerTexts(r.group);
    IntegerTexts(r.session);
    assert [r.state] == "Z" <==> r.state == 'Z';
    assert [r.state] == "X" <==> r.state == 'X';
    hide Render, Words, FieldAt, NumberAt, Integer, CommandFields, LastIndexOf;
  }

  /** A scan skips exactly the tasks that are being torn down and those without
      a group or a session, and reads all others. */
  lemma ScanReadsRendered(r: Stat, bootId: string)
    requires WellFormed(r)
    ensures ParseLinuxProcessInfoForScan(Render(r), bootId)
         == Ok(if r.state == 'Z' || r.state == 'X' || r.group <= 0 || r.session <= 0 then None
               else Some(ProcessInfo(r.pid, r.parentPid, r.group, r.session,
                                     Token(bootId, r.pid, Decimal(r.startTicks)))))
  {
    ExitingExactly(r);
    RenderedEnd(r);
    WordsAt(r);
    IntegerTexts(r.group);
    IntegerTexts(r.session);
    if r.group > 0 && r.session > 0 {
      RenderedIsReadBack(r, bootId);
    }
    hide Render, Words, FieldAt, NumberAt, Integer, CommandFields, LastIndexOf, ParseLinuxProcessInfo,
      LinuxTaskIsExiting, Token, Decimal;
  }

  lemma IntegerTexts(n: int)
    requires n >= -1
    ensures Integer(n) == "-1" <==> n == -1
    ensures Integer(n) == "0" <==> n == 0
  {
    IntegerIsWord(n);
    assert Decimal(1) == "1" && Decimal(0) == "0";
    assert ToNumber("-1") == Some(-1) by { IntegerIsWord(-1); }
    assert ToNumber("0") == Some(0) by { IntegerIsWord(0); }
  }

  lemma SameAroundColon(a: string, b: string, x: string, y: string)
    requires a + [':'] + b == x + [':'] + y && ':' !in a && ':' !in x
    ensures a == x && b == y
  {
    var s := a + [':'] + b;
    IndexOfFirst(a, ':', b);
    IndexOfFirst(x, ':', y);
    assert a == s[..|a|] && x == s[..|a|] && b == s[|a| + 1..] && y == s[|a| + 1..];
  }

  /** Under one boot, processes with different pids or start times have
      different tokens. */
  lemma TokensAreDistinct(bootId: string, pid: nat, ticks: nat, otherPid: nat, otherTicks: nat)
    requires Token(bootId, pid, Decimal(ticks)) == Token(bootId, otherPid, Decimal(otherTicks))
    ensures pid == otherPid && ticks == otherTicks
  {
    NoColon(pid);
    NoColon(otherPid);
    assert DigitsValue(Decimal(pid)) == pid && DigitsValue(Decimal(otherPid)) == otherPid;
    assert DigitsValue(Decimal(ticks)) == ticks && DigitsValue(Decimal(otherTicks)) == otherTicks;
    var s, t := Decimal(pid) + [':'] + Decimal(ticks), Decimal(otherPid) + [':'] + Decimal(otherTicks);
    TokenIs(bootId, pid, Decimal(ticks));
    TokenIs(bootId, otherPid, Decimal(otherTicks));
    hide Decimal, Token, DigitsValue, AllDigits;
    SameTail("linux:" + bootId + ":", s, t);
    SameAroundColon(Decimal(pid), Decimal(ticks), Decimal(otherPid), Decimal(otherTicks));
  }

  lemma TokenIs(bootId: string, pid: nat, ticks: string)
    ensures Token(bootId, pid, ticks) == ("linux:" + bootId + ":") + (Decimal(pid) + [':'] + ticks)
  {
    hide Decimal;
  }

  lemma SameTail(head: string, s: string, t: string)
    requires head + s == head + t
    ensures s == t
  {
    assert s == (head + s)[|head|..] && t == (head + t)[|head|..];
  }

  lemma NoColon(n: nat)
    ensures ':' !in Decimal(n)
  {
    var s := Decimal(n);
    assert forall k | 0 <= k < |s| :: IsDigit(s[k]);
  }

  // ---------------------------------------------------------------------
  // Any text at all
  // ---------------------------------------------------------------------

  predicate PositiveSafe(n: int) {
    1 <= n <= 9007199254740991
  }

  /** A text is malformed exactly if no closing parenthesis follows an opening
      one. */
  lemma MalformedExactly(stat: string, bootId: string)
    ensures ParseLinuxProcessInfo(stat, bootId) == Err(Malformed) <==>
            forall i, j | 0 <= i < j < |stat| :: !(stat[i] == '(' && stat[j] == ')')
  {
    var start, end := IndexOf(stat, '('), LastIndexOf(stat, ')');
    hide Trim, ToNumber, CommandFields, IdentityOf;
    assert ParseLinuxProcessInfo(stat, bootId) == Err(Malformed) <==>
           start == None || end == None || end.value < start.value by { IdentityIsNotMalformed(stat, bootId); }
    if start.Some? && end.Some? {
      assert stat[start.value] == '(' && stat[end.value] == ')';
      AbsentBefore(stat, start.value, '(');
      AbsentAfter(stat, end.value + 1, ')');
    }
  }

  lemma AbsentBefore(s: string, k: nat, c: char)
    requires k <= |s| && c !in s[..k]
    ensures forall i | 0 <= i < k :: s[i] != c
  {
    assert forall i | 0 <= i < k :: s[..k][i] == s[i];
  }

  lemma AbsentAfter(s: string, k: nat, c: char)
    requires k <= |s| && c !in s[k..]
    ensures forall i | k <= i < |s| :: s[i] != c
  {
    assert forall i | k <= i < |s| :: s[k..][i - k] == s[i];
  }

  lemma IdentityIsNotMalformed(stat: string, bootId: string)
    ensures forall pid, fields :: IdentityOf(pid, fields, bootId) != Err(Malformed)
  {
    hide Token, NumberAt, FieldAt;
  }

  /** Whatever is read has a pid, a group and a session above zero, numbers that
      are safe, and a token of the boot, the pid and a decimal start time. */
  lemma AcceptedIsValid(stat: string, bootId: string)
    ensures var info := ParseLinuxProcessInfo(stat, bootId);
            info.Ok? ==>
              && PositiveSafe(info.value.pid) && PositiveSafe(info.value.group) && PositiveSafe(info.value.session)
              && -9007199254740991 <= info.value.parentPid <= 9007199254740991
              && exists ticks ::
                   ticks != "" && AllDigits(ticks)
                   && info.value.token == "linux:" + bootId + ":" + Decimal(info.value.pid) + ":" + ticks
  {
    hide Trim, ToNumber, Decimal;
  }

  /** A scan reads what a single reading does, or skips the task. */
  lemma ScanReadsOrSkips(stat: string, bootId: string)
    ensures match ParseLinuxProcessInfoForScan(stat, bootId)
            case Ok(Some(info)) => ParseLinuxProcessInfo(stat, bootId) == Ok(info) && !LinuxTaskIsExiting(stat)
            case Ok(None) => ')' in stat
            case Err(error) => ParseLinuxProcessInfo(stat, bootId) == Err(error) && !LinuxTaskIsExiting(stat)
  {
    hide Trim, ParseLinuxProcessInfo, Split;
  }
}
