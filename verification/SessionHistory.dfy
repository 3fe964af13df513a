/** The stored history of a conversation and its compaction (`session.py`). */
module SessionHistory {
  import opened Text

  /** A stored message; `compacted` is the `original_count` a summary carries. */
  datatype Message = Message(role: string, content: string, compacted: Option<nat>)

  const MIN_KEPT := 10
  const MAX_SUMMARY_PARTS := 50
  const MAX_PART_LENGTH := 200

  // ---------------------------------------------------------------- the summary

  function Decimal(n: nat): (s: string)
    ensures s != ""
  {
    (if n < 10 then "" else Decimal(n / 10)) + [('0' as int + n % 10) as char]
  }

  function SummaryParts(messages: seq<Message>): (parts: seq<string>)
    ensures |parts| == |messages|
  {
    if messages == [] then []
    else
      var m := messages[|messages| - 1];
      SummaryParts(messages[..|messages| - 1]) + [m.role + ": " + Slice(m.content, 0, MAX_PART_LENGTH)]
  }

  /** The conditional expression takes in the whole text, not only its last line. */
  function SummaryText(parts: seq<string>): string {
    if |parts| > MAX_SUMMARY_PARTS then
      "[Conversation history summary - " + Decimal(|parts|) + " messages compacted]\n\n"
      + Join("\n", parts[..MAX_SUMMARY_PARTS])
      + "\n\n[... " + Decimal(|parts| - MAX_SUMMARY_PARTS) + " more messages ...]"
    else ""
  }

  function Summary(messages: seq<Message>): Message {
    Message("system", SummaryText(SummaryParts(messages)), Some(|messages|))
  }

  /** The number a text of decimal digits stands for. */
  function Value(digits: string): int {
    if digits == "" then 0 else 10 * Value(digits[..|digits| - 1]) + (digits[|digits| - 1] as int - '0' as int)
  }

  lemma LastDigit(n: nat) returns (c: char)
    ensures Decimal(n) == (if n < 10 then "" else Decimal(n / 10)) + [c]
    ensures '0' <= c <= '9' && n == 10 * (n / 10) + (c as int - '0' as int) && (n < 10 ==> n / 10 == 0)
  {
    c := ('0' as int + n % 10) as char;
  }

  lemma ValueSnoc(digits: string, c: char)
    ensures Value("") == 0 && Value(digits + [c]) == 10 * Value(digits) + (c as int - '0' as int)
  {
    SnocInit(digits, c);
  }

  predicate Digits(s: string) {
    forall i :: 0 <= i < |s| ==> '0' <= s[i] <= '9'
  }

  lemma OneDigitMore(init: string, c: char, all: string, m: int)
    requires all == init + [c] && Value(init) == m && Digits(init) && '0' <= c <= '9'
    ensures Value(all) == 10 * m + (c as int - '0' as int) && Digits(all)
    ensures init != "" ==> all[0] == init[0]
  {
    ValueSnoc(init, c);
  }

  /** A number in decimal digits, without leading zeros. */
  lemma {:induction false} DecimalExact(n: nat, digits: string)
    requires digits == Decimal(n)
    ensures Value(digits) == n && Digits(digits) && (digits[0] != '0' || n == 0)
    ensures n < 10 ==> |digits| == 1
  {
    var c := LastDigit(n);
    if n < 10 {
      OneDigitMore("", c, digits, 0);
    } else {
      DecimalExact(n / 10, Decimal(n / 10));
      OneDigitMore(Decimal(n / 10), c, digits, n / 10);
    }
  }

  lemma {:induction false} SummaryPart(messages: seq<Message>, i: nat)
    requires i < |messages|
    ensures SummaryParts(messages)[i]
         == messages[i].role + ": "
            + if |messages[i].content| <= 200 then messages[i].content else messages[i].content[..200]
  {
    if i < |messages| - 1 {
      SummaryPart(messages[..|messages| - 1], i);
    }
  }

  /** What a summary says: above fifty messages how many there were, the beginnings of the first fifty, one to a
      line, and how many more; otherwise nothing. */
  lemma SummaryExact(messages: seq<Message>) returns (lines: seq<string>)
    ensures |messages| <= 50 ==> Summary(messages) == Message("system", "", Some(|messages|))
    ensures |messages| > 50 ==>
              && |lines| == 50
              && (forall i :: 0 <= i < 50 ==>
                    lines[i] == messages[i].role + ": " + if |messages[i].content| <= 200 then messages[i].content
                                                         else messages[i].content[..200])
              && Summary(messages)
                 == Message("system",
                            "[Conversation history summary - " + Decimal(|messages|) + " messages compacted]\n\n"
                            + Join("\n", lines) + "\n\n[... " + Decimal(|messages| - 50) + " more messages ...]",
                            Some(|messages|))
  {
    lines := [];
    if |messages| > 50 {
      lines := SummaryParts(messages)[..50];
      forall i | 0 <= i < 50
        ensures lines[i] == messages[i].role + ": " + if |messages[i].content| <= 200 then messages[i].content
                                                     else messages[i].content[..200]
      {
        SummaryPart(messages, i);
      }
    }
  }

  // ---------------------------------------------------------------- compaction

  /** `max(10, int(n * 0.2))`. */
  function KeepCount(n: nat): nat {
    if n / 5 > MIN_KEPT then n / 5 else MIN_KEPT
  }

  function Compacted(stored: seq<Message>): seq<Message>
    requires |stored| >= MIN_KEPT
  {
    var cut := |stored| - KeepCount(|stored|);
    [Summary(stored[..cut])] + stored[cut..]
  }

  /** A compaction keeps the last ten messages, or the last fifth, rounded down, when that is more, and puts the
      summary of all the others in front of them. */
  lemma CompactedExact(stored: seq<Message>) returns (keep: nat)
    requires |stored| >= 10
    ensures keep <= |stored| && Compacted(stored) == [Summary(stored[..|stored| - keep])] + stored[|stored| - keep..]
    ensures if |stored| < 55 then keep == 10 else 5 * keep <= |stored| < 5 * keep + 5
  {
    keep := KeepCount(|stored|);
  }

  /** The steps of a compaction are fetching the messages (0), clearing them (1) and adding the rows of the
      compacted history (2 and on); `fault` is the one that throws. */
  predicate Finishes(stored: seq<Message>, fault: Option<nat>)
    requires |stored| >= MIN_KEPT
  {
    fault.None? || fault.value >= 2 + |Compacted(stored)|
  }

  /** What a compaction leaves.  Nothing is undone: after the clear the rows added so far are all there is. */
  function CompactedUpTo(stored: seq<Message>, fault: Option<nat>): seq<Message>
    requires |stored| >= MIN_KEPT
  {
    if Finishes(stored, fault) then Compacted(stored)
    else if fault.value <= 1 then stored
    else Compacted(stored)[..fault.value - 2]
  }

  datatype Command = Say(message: Message, fault: Option<nat>) | Clear

  /** What is stored, everything said since the last clear, and the message count the session believes in. */
  datatype History = History(stored: seq<Message>, said: seq<Message>, count: nat)

  const EMPTY_HISTORY := History([], [], 0)

  /** Does the next message bring about a compaction? */
  predicate Compacts(threshold: int, h: History) {
    h.count + 1 >= threshold && |h.stored| + 1 >= MIN_KEPT
  }

  function Do(threshold: int, h: History, c: Command): History {
    match c
    case Say(m, fault) =>
      var all := h.stored + [m];
      if Compacts(threshold, h) then
        History(CompactedUpTo(all, fault), h.said + [m],
                if Finishes(all, fault) then |Compacted(all)| else h.count + 1)
      else History(all, h.said + [m], h.count + 1)
    case Clear => EMPTY_HISTORY
  }

  function Run(threshold: int, commands: seq<Command>): History {
    if commands == [] then EMPTY_HISTORY
    else Do(threshold, Run(threshold, commands[..|commands| - 1]), commands[|commands| - 1])
  }

  /** No compaction is interrupted after its clear. */
  ghost predicate Harmless(commands: seq<Command>) {
    forall i :: 0 <= i < |commands| ==> HarmlessCommand(commands[i])
  }

  predicate HarmlessCommand(c: Command) {
    c.Say? && c.fault.Some? ==> c.fault.value <= 1
  }

  /** No compaction is interrupted. */
  ghost predicate Faultless(commands: seq<Command>) {
    forall i :: 0 <= i < |commands| && commands[i].Say? ==> commands[i].fault.None?
  }

  // ---------------------------------------------------------------- a recent suffix is kept

  /** One summary, then the last `k` messages said, at least ten of them. */
  ghost predicate Summarised(stored: seq<Message>, said: seq<Message>, summary: Message, k: nat) {
    MIN_KEPT <= k <= |said| && stored == [summary] + said[|said| - k..]
  }

  /** Either nothing was compacted, or a summary stands in for all but the last messages. */
  ghost predicate Recent(stored: seq<Message>, said: seq<Message>) {
    stored == said || exists summary, k: nat :: Summarised(stored, said, summary, k)
  }

  /** A compaction of one earlier summary or none and of messages said keeps only messages said. */
  lemma CompactedSuffix(stored: seq<Message>, said: seq<Message>, head: seq<Message>)
    requires |head| <= 1 && |stored| >= MIN_KEPT + 2 * |head| && |said| + |head| >= |stored|
    requires stored == head + said[|said| - (|stored| - |head|)..]
    ensures Recent(Compacted(stored), said)
  {
    var keep := KeepCount(|stored|);
    KeptSuffix(stored, said, head, keep);
    assert Summarised(Compacted(stored), said, Summary(stored[..|stored| - keep]), keep);
  }

  lemma KeptSuffix(stored: seq<Message>, said: seq<Message>, head: seq<Message>, keep: nat)
    requires |head| + keep <= |stored| <= |said| + |head|
    requires stored == head + said[|said| - (|stored| - |head|)..]
    ensures stored[|stored| - keep..] == said[|said| - keep..]
  {
    var tail := said[|said| - (|stored| - |head|)..];
    assert stored[|stored| - keep..] == tail[|tail| - keep..];
    assert tail[|tail| - keep..] == said[|said| - keep..];
  }

  lemma DropSnoc<T>(xs: seq<T>, n: nat, x: T)
    requires n <= |xs|
    ensures (xs + [x])[n..] == xs[n..] + [x]
  {
  }

  lemma FirstCompaction(stored: seq<Message>)
    requires |stored| >= MIN_KEPT
    ensures Recent(Compacted(stored), stored)
  {
    AppendEmpty(stored);
    CompactedSuffix(stored, stored, []);
  }

  lemma SaySummarised(stored: seq<Message>, said: seq<Message>, m: Message, summary: Message, k: nat)
    requires Summarised(stored, said, summary, k)
    ensures Summarised(stored + [m], said + [m], summary, k + 1)
  {
    DropSnoc(said, |said| - k, m);
    ConcatAssoc([summary], said[|said| - k..], [m]);
  }

  lemma LaterCompaction(stored: seq<Message>, said: seq<Message>, summary: Message, k: nat)
    requires k > MIN_KEPT && Summarised(stored, said, summary, k)
    ensures Recent(Compacted(stored), said)
  {
    CompactedSuffix(stored, said, [summary]);
  }

  /** One more message, stored as it is or after a compaction. */
  lemma SayKeepsRecent(stored: seq<Message>, said: seq<Message>, m: Message)
    requires Recent(stored, said)
    ensures Recent(stored + [m], said + [m])
    ensures |stored + [m]| >= MIN_KEPT ==> Recent(Compacted(stored + [m]), said + [m])
  {
    if stored == said {
      if |stored + [m]| >= MIN_KEPT {
        FirstCompaction(stored + [m]);
      }
    } else {
      var summary, k: nat :| Summarised(stored, said, summary, k);
      SaySummarised(stored, said, m, summary, k);
      LaterCompaction(stored + [m], said + [m], summary, k + 1);
    }
  }

  lemma DoKeepsRecent(threshold: int, h: History, c: Command)
    requires Recent(h.stored, h.said) && HarmlessCommand(c)
    ensures Recent(Do(threshold, h, c).stored, Do(threshold, h, c).said)
  {
    if c.Say? {
      var all, said := h.stored + [c.message], h.said + [c.message];
      SayKeepsRecent(h.stored, h.said, c.message);
      if Compacts(threshold, h) {
        HarmlessCompaction(all, said, c.fault);
      }
    }
  }

  lemma HarmlessCompaction(all: seq<Message>, said: seq<Message>, fault: Option<nat>)
    requires |all| >= MIN_KEPT && Recent(all, said) && Recent(Compacted(all), said)
    requires fault.Some? ==> fault.value <= 1
    ensures Recent(CompactedUpTo(all, fault), said)
  {
  }

  lemma HarmlessParts(commands: seq<Command>)
    requires Harmless(commands) && commands != []
    ensures Harmless(commands[..|commands| - 1]) && HarmlessCommand(commands[|commands| - 1])
  {
  }

  /** Over every run without a compaction interrupted after its clear, and for every threshold: the history is
      what was said since the last clear, or one summary followed by the last messages said, ten at least. */
  lemma {:induction false} RunsKeepRecent(threshold: int, commands: seq<Command>)
    requires Harmless(commands)
    ensures Recent(Run(threshold, commands).stored, Run(threshold, commands).said)
  {
    if commands != [] {
      HarmlessParts(commands);
      RunsKeepRecent(threshold, commands[..|commands| - 1]);
      DoKeepsRecent(threshold, Run(threshold, commands[..|commands| - 1]), commands[|commands| - 1]);
    }
  }

  /** So the ten messages said last are always stored as they were said. */
  lemma LastTenStored(threshold: int, commands: seq<Command>, n: nat)
    requires Harmless(commands) && n <= MIN_KEPT && n <= |Run(threshold, commands).said|
    ensures var h := Run(threshold, commands);
            |h.stored| >= n && h.stored[|h.stored| - n..] == h.said[|h.said| - n..]
  {
    RunsKeepRecent(threshold, commands);
    RecentEnd(Run(threshold, commands).stored, Run(threshold, commands).said, n);
  }

  lemma RecentEnd(stored: seq<Message>, said: seq<Message>, n: nat)
    requires Recent(stored, said) && n <= MIN_KEPT && n <= |said|
    ensures |stored| >= n && stored[|stored| - n..] == said[|said| - n..]
  {
    if stored != said {
      var summary, k: nat :| Summarised(stored, said, summary, k);
      KeptSuffix(stored, said, [summary], n);
    }
  }

  // ---------------------------------------------------------------- interrupted compactions

  /** An interrupted compaction loses the newest messages: of those it keeps, the first ones are stored again. */
  lemma InterruptedLeaves(stored: seq<Message>, k: nat)
    requires |stored| >= MIN_KEPT && 2 <= k < 2 + |Compacted(stored)|
    ensures var keep := KeepCount(|stored|);
            var left := CompactedUpTo(stored, Some(k));
            var cut := |stored| - keep;
            && !Finishes(stored, Some(k)) && |left| == k - 2 <= keep
            && (k == 2 ==> left == [])
            && (k > 2 ==> left == [Summary(stored[..cut])] + stored[cut..cut + k - 3])
  {
    if k > 2 {
      TakePast(Summary(stored[..|stored| - KeepCount(|stored|)]), stored, |stored| - KeepCount(|stored|), k - 3);
    }
  }

  lemma TakePast<T>(x: T, xs: seq<T>, cut: nat, n: nat)
    requires cut + n <= |xs|
    ensures ([x] + xs[cut..])[..n + 1] == [x] + xs[cut..cut + n]
  {
  }

  predicate IsSummary(m: Message) {
    m.role == "system" && m.compacted.Some?
  }

  /** The rows are summaries and, in the order they were said, some of the messages said. */
  ghost predicate Woven(rows: seq<Message>, said: seq<Message>)
    decreases |rows| + |said|
  {
    || rows == []
    || (IsSummary(rows[|rows| - 1]) && Woven(rows[..|rows| - 1], said))
    || (said != [] && Woven(rows, said[..|said| - 1]))
    || (said != [] && rows[|rows| - 1] == said[|said| - 1] && Woven(rows[..|rows| - 1], said[..|said| - 1]))
  }

  lemma WovenSay(rows: seq<Message>, said: seq<Message>, m: Message)
    requires Woven(rows, said)
    ensures Woven(rows + [m], said + [m])
  {
    SnocInit(rows, m);
    SnocInit(said, m);
  }

  lemma {:induction false} WovenInit(rows: seq<Message>, said: seq<Message>)
    requires rows != [] && Woven(rows, said)
    ensures Woven(rows[..|rows| - 1], said)
    decreases |said|
  {
    if !(IsSummary(rows[|rows| - 1]) && Woven(rows[..|rows| - 1], said)) {
      var init := said[..|said| - 1];
      if Woven(rows, init) {
        WovenInit(rows, init);
      }
      assert Woven(rows[..|rows| - 1], init);
    }
  }

  lemma {:induction false} WovenTake(rows: seq<Message>, said: seq<Message>, n: nat)
    requires n <= |rows| && Woven(rows, said)
    ensures Woven(rows[..n], said)
  {
    if n < |rows| {
      WovenInit(rows, said);
      WovenTake(rows[..|rows| - 1], said, n);
      assert rows[..|rows| - 1][..n] == rows[..n];
    } else {
      TakeAll(rows);
    }
  }

  /** A later part of the rows behind a new summary is woven, too. */
  lemma {:induction false} WovenCompacted(rows: seq<Message>, said: seq<Message>, n: nat, summary: Message)
    requires n <= |rows| && Woven(rows, said) && IsSummary(summary)
    ensures Woven([summary] + rows[n..], said)
    decreases |rows| + |said|
  {
    if n == |rows| {
      AppendEmpty([summary]);
      assert [summary][..0] == [] && Woven([summary][..0], said);
    } else {
      var init, last := rows[..|rows| - 1], rows[|rows| - 1];
      PastInit(rows, n, summary);
      if IsSummary(last) && Woven(init, said) {
        WovenCompacted(init, said, n, summary);
      } else if Woven(rows, said[..|said| - 1]) {
        WovenCompacted(rows, said[..|said| - 1], n, summary);
      } else {
        WovenCompacted(init, said[..|said| - 1], n, summary);
      }
    }
  }

  lemma PastInit<T>(xs: seq<T>, n: nat, x: T)
    requires n < |xs|
    ensures var all := [x] + xs[n..];
            && all[..|all| - 1] == [x] + xs[..|xs| - 1][n..] && all[|all| - 1] == xs[|xs| - 1]
  {
  }

  lemma CompactionKeepsWoven(all: seq<Message>, said: seq<Message>, fault: Option<nat>)
    requires |all| >= MIN_KEPT && Woven(all, said)
    ensures Woven(CompactedUpTo(all, fault), said)
  {
    var cut := |all| - KeepCount(|all|);
    WovenCompacted(all, said, cut, Summary(all[..cut]));
    if !Finishes(all, fault) && fault.value > 1 {
      WovenTake(Compacted(all), said, fault.value - 2);
    }
  }

  lemma DoKeepsWoven(threshold: int, h: History, c: Command)
    requires Woven(h.stored, h.said)
    ensures Woven(Do(threshold, h, c).stored, Do(threshold, h, c).said)
  {
    if c.Say? {
      WovenSay(h.stored, h.said, c.message);
      if Compacts(threshold, h) {
        CompactionKeepsWoven(h.stored + [c.message], h.said + [c.message], c.fault);
      }
    }
  }

  /** Over every run, whatever interrupts its compactions: nothing is stored but summaries and, in their order,
      messages said since the last clear, and the session never believes in fewer messages than are stored. */
  lemma {:induction false} RunsKeepOrder(threshold: int, commands: seq<Command>)
    ensures Woven(Run(threshold, commands).stored, Run(threshold, commands).said)
    ensures Run(threshold, commands).count >= |Run(threshold, commands).stored|
  {
    if commands != [] {
      var init, last := commands[..|commands| - 1], commands[|commands| - 1];
      RunsKeepOrder(threshold, init);
      DoKeepsWoven(threshold, Run(threshold, init), last);
      CountStaysAbove(threshold, Run(threshold, init), last);
    }
  }

  lemma CountStaysAbove(threshold: int, h: History, c: Command)
    requires h.count >= |h.stored|
    ensures Do(threshold, h, c).count >= |Do(threshold, h, c).stored|
  {
  }

  /** As long as no compaction is interrupted after its clear the count is exact. */
  lemma {:induction false} RunsCount(threshold: int, commands: seq<Command>)
    requires Harmless(commands)
    ensures Run(threshold, commands).count == |Run(threshold, commands).stored|
  {
    if commands != [] {
      HarmlessParts(commands);
      RunsCount(threshold, commands[..|commands| - 1]);
    }
  }

  lemma NextMessageHealsIff(threshold: int, h: History, m: Message)
    requires h.count >= threshold && h.count > |h.stored|
    ensures var next := Do(threshold, h, Say(m, None));
            && (next.count == |next.stored| <==> |h.stored| + 1 >= MIN_KEPT)
            && (next.count != |next.stored| ==> next.count == h.count + 1 && |next.stored| == |h.stored| + 1)
  {
  }

  /** Messages that come in without faults. */
  function SayAll(threshold: int, h: History, messages: seq<Message>): History {
    if messages == [] then h
    else Do(threshold, SayAll(threshold, h, messages[..|messages| - 1]), Say(messages[|messages| - 1], None))
  }

  /** A count that an interrupted compaction left too high is set right by later messages, and stays right,
      exactly from the message on with which ten are stored; until then every message tries to compact. */
  lemma {:induction false} HealsIff(threshold: int, h: History, messages: seq<Message>)
    requires h.count >= threshold && h.count > |h.stored|
    ensures var end := SayAll(threshold, h, messages);
            && (end.count == |end.stored| <==> messages != [] && |h.stored| + |messages| >= MIN_KEPT)
            && (end.count != |end.stored| ==>
                  end.count == h.count + |messages| && |end.stored| == |h.stored| + |messages|)
  {
    if messages != [] {
      var init, last := messages[..|messages| - 1], messages[|messages| - 1];
      HealsIff(threshold, h, init);
      var before := SayAll(threshold, h, init);
      if before.count == |before.stored| {
        StaysExact(threshold, before, last);
      } else {
        NextMessageHealsIff(threshold, before, last);
      }
    }
  }

  lemma StaysExact(threshold: int, h: History, m: Message)
    requires h.count == |h.stored|
    ensures Do(threshold, h, Say(m, None)).count == |Do(threshold, h, Say(m, None)).stored|
  {
  }

  // ---------------------------------------------------------------- the threshold is kept

  lemma FaultlessParts(commands: seq<Command>)
    requires Faultless(commands)
    ensures Harmless(commands)
    ensures commands != [] ==>
              && Faultless(commands[..|commands| - 1])
              && (commands[|commands| - 1].Say? ==> commands[|commands| - 1].fault.None?)
  {
  }

  lemma DoLength(threshold: int, h: History, m: Message)
    requires h.count == |h.stored|
    ensures var n := |h.stored| + 1;
            |Do(threshold, h, Say(m, None)).stored|
            == if n >= threshold && n >= MIN_KEPT then 1 + KeepCount(n) else n
  {
  }

  lemma {:induction false} HighThresholdHolds(threshold: int, commands: seq<Command>)
    requires threshold >= 12 && Faultless(commands)
    ensures |Run(threshold, commands).stored| < threshold
  {
    if commands != [] {
      var init, c := commands[..|commands| - 1], commands[|commands| - 1];
      FaultlessParts(commands);
      HighThresholdHolds(threshold, init);
      FaultlessParts(init);
      RunsCount(threshold, init);
      if c.Say? {
        DoLength(threshold, Run(threshold, init), c.message);
      }
    }
  }

  function Repeated(m: Message, n: nat): seq<Command> {
    if n == 0 then [] else Repeated(m, n - 1) + [Say(m, None)]
  }

  lemma {:induction false} RepeatedFaultless(m: Message, n: nat)
    ensures Faultless(Repeated(m, n)) && Harmless(Repeated(m, n))
  {
    if n > 0 {
      RepeatedFaultless(m, n - 1);
    }
  }

  lemma RepeatedLength(threshold: int, m: Message, n: nat, before: nat)
    requires n > 0 && before == |Run(threshold, Repeated(m, n - 1)).stored|
    ensures |Run(threshold, Repeated(m, n)).stored|
         == if before + 1 >= threshold && before + 1 >= MIN_KEPT then 1 + KeepCount(before + 1) else before + 1
  {
    SnocInit(Repeated(m, n - 1), Say(m, None));
    RepeatedFaultless(m, n - 1);
    RunsCount(threshold, Repeated(m, n - 1));
    DoLength(threshold, Run(threshold, Repeated(m, n - 1)), m);
  }

  lemma {:induction false} RepeatedBelow(threshold: int, m: Message, n: nat)
    requires n < threshold <= 11
    ensures |Run(threshold, Repeated(m, n)).stored| == n
  {
    if n > 0 {
      RepeatedBelow(threshold, m, n - 1);
      RepeatedLength(threshold, m, n, n - 1);
    }
  }

  lemma RepeatedReaches(threshold: int, m: Message)
    requires 0 < threshold <= 11
    ensures |Run(threshold, Repeated(m, threshold)).stored| >= threshold
  {
    RepeatedBelow(threshold, m, threshold - 1);
    RepeatedLength(threshold, m, threshold, threshold - 1);
  }

  lemma LowThresholdFails(threshold: int, m: Message) returns (commands: seq<Command>)
    requires threshold <= 11
    ensures Faultless(commands) && |Run(threshold, commands).stored| >= threshold
  {
    commands := [];
    if threshold > 0 {
      commands := Repeated(m, threshold);
      RepeatedFaultless(m, threshold);
      RepeatedReaches(threshold, m);
    }
  }

  ghost predicate StaysBelow(threshold: int) {
    forall commands :: Faultless(commands) ==> |Run(threshold, commands).stored| < threshold
  }

  /** The stored history stays below the threshold on every run without faults exactly for thresholds of twelve
      and more: a compaction leaves at least eleven messages. */
  lemma StaysBelowIff(threshold: int)
    ensures StaysBelow(threshold) <==> threshold >= 12
  {
    if threshold >= 12 {
      forall commands | Faultless(commands) ensures |Run(threshold, commands).stored| < threshold {
        HighThresholdHolds(threshold, commands);
      }
    } else {
      var commands := LowThresholdFails(threshold, Message("", "", None));
      assert !StaysBelow(threshold);
    }
  }

  // ---------------------------------------------------------------- the summary is often empty

  /** A compaction of fifty messages or fewer leaves an empty summary: their content is gone. */
  lemma SummaryEmptyIff(messages: seq<Message>)
    ensures Summary(messages).content == "" <==> |messages| <= MAX_SUMMARY_PARTS
  {
  }

  /** At the moment the history reaches a threshold from 12 to 62 the summary is empty. */
  lemma SummaryAtThreshold(stored: seq<Message>)
    requires |stored| >= 12
    ensures Compacted(stored)[0].content == "" <==> |stored| <= 62
  {
    SummaryEmptyIff(stored[..|stored| - KeepCount(|stored|)]);
  }

  // ---------------------------------------------------------------- the session object

  lemma AllOf<T>(part: seq<T>, s: seq<T>, n: nat)
    requires n >= |s| && part == if n <= |s| then s[..n] else s
    ensures part == s
  {
  }

  lemma Rebuilt(start: seq<Message>, fault: Option<nat>, ok: bool, rows: seq<Message>)
    requires |start| >= MIN_KEPT && fault != Some(0)
    requires ok <==> fault.None? || fault.value == 0 || fault.value >= 2 + |Compacted(start)|
    requires rows == if ok then Compacted(start) else if fault.value <= 1 then start
                     else Compacted(start)[..fault.value - 2]
    ensures (ok <==> Finishes(start, fault)) && rows == CompactedUpTo(start, fault)
    ensures !ok && fault.value <= 1 ==> rows == start
    ensures !ok ==> |rows| <= |start|
  {
  }

  lemma CompactedParts(messages: seq<Message>, cut: nat)
    requires |messages| >= MIN_KEPT && cut == |messages| - KeepCount(|messages|)
    ensures Compacted(messages) == [Summary(messages[..cut])] + messages[cut..]
    ensures |Compacted(messages)| == 1 + |messages[cut..]|
  {
  }

  class Session {
    const threshold: int
    var stored: seq<Message>              // the session's rows, oldest first
    var messageCount: nat
    var cache: Option<seq<Message>>
    ghost var said: seq<Message>
    ghost var stale: bool                 // the cache is from before an interrupted compaction

    ghost predicate Valid()
      reads this
    {
      messageCount >= |stored| && (cache.Some? && !stale ==> cache.value <= stored)
    }

    ghost function View(): History
      reads this
    {
      History(stored, said, messageCount)
    }

    constructor (threshold: int)
      ensures Valid() && View() == Run(threshold, []) && this.threshold == threshold
    {
      this.threshold := threshold;
      stored, messageCount, cache, said, stale := [], 0, None, [], false;
    }

    /** The rows of the session, oldest first, at most `limit` of them. */
    method GetHistory(limit: nat, useCache: bool) returns (messages: seq<Message>)
      requires Valid()
      modifies this`cache, this`stale
      ensures Valid()
      ensures !useCache || old(cache).None? ==>
                && messages == (if limit <= |stored| then stored[..limit] else stored)
                && !stale && cache == Some(messages)
      ensures useCache && old(cache).Some? ==> cache == old(cache) && stale == old(stale)
      ensures useCache && old(cache).Some? ==>
                messages == if 0 < limit <= |cache.value| then cache.value[|cache.value| - limit..] else cache.value
    {
      if useCache && cache.Some? {
        return if limit > 0 then Slice(cache.value, -(limit as int), |cache.value|) else cache.value;
      }
      messages := Slice(stored, 0, limit);
      cache, stale := Some(messages), false;
    }

    /** Adding a message; `fault` is the step of its compaction that throws, if it comes to one. */
    method AddMessage(m: Message, fault: Option<nat>) returns (ok: bool)
      requires Valid()
      modifies this
      ensures Valid() && View() == Do(threshold, old(View()), Say(m, fault))
      ensures old(messageCount) + 1 < threshold || |old(stored)| + 1 < 10 ==>
                stored == old(stored) + [m] && messageCount == old(messageCount) + 1
      ensures old(messageCount) + 1 >= threshold && |old(stored)| + 1 >= 10 ==>
                stored == CompactedUpTo(old(stored) + [m], fault) && (ok ==> messageCount == |stored|)
      ensures !Compacts(threshold, old(View())) && fault.None? ==> ok
      ensures Compacts(threshold, old(View())) ==> (ok <==> Finishes(old(stored) + [m], fault))
      ensures stale <==> Compacts(threshold, old(View())) && !ok && fault.value > 1
    {
      stored := stored + [m];
      messageCount := messageCount + 1;
      cache, stale := None, false;
      said := said + [m];
      ok := true;
      if messageCount >= threshold {
        ok := Compact(fault);
      }
    }

    method ClearHistory()
      requires Valid()
      modifies this
      ensures Valid() && View() == Do(threshold, old(View()), Clear)
    {
      stored, messageCount, cache, said, stale := [], 0, None, [], false;
    }

    /** The summary of the messages a compaction does not keep. */
    method Summarise(messages: seq<Message>) returns (summary: Message)
      ensures summary == Summary(messages)
    {
      var parts := [];
      for i := 0 to |messages|
        invariant parts == SummaryParts(messages[..i])
      {
        var m := messages[i];
        TakeSnoc(messages, i);
        SnocInit(messages[..i], m);
        parts := parts + [m.role + ": " + Slice(m.content, 0, MAX_PART_LENGTH)];
      }
      TakeAll(messages);
      summary := Message("system", SummaryText(parts), Some(|messages|));
    }

    /** Clearing the rows and adding the new ones one by one, without a transaction. */
    method Rebuild(summary: Message, toKeep: seq<Message>, fault: Option<nat>) returns (ok: bool)
      modifies this`stored
      ensures var all := [summary] + toKeep;
              && (ok <==> fault.None? || fault.value == 0 || fault.value >= 2 + |all|)
              && stored == (if ok then all else if fault.value <= 1 then old(stored) else all[..fault.value - 2])
    {
      if fault == Some(1) {
        return false;
      }
      stored := [];
      if fault == Some(2) {
        return false;
      }
      stored := [summary];
      ghost var all := [summary] + toKeep;
      for i := 0 to |toKeep|
        invariant stored == all[..i + 1]
        invariant fault.Some? ==> fault.value == 0 || fault.value >= 3 + i
      {
        if fault == Some(3 + i) {
          return false;
        }
        TakeSnoc(all, i + 1);
        stored := stored + [toKeep[i]];
      }
      TakeAll(all);
      return true;
    }

    /** A fault after the clear leaves the rows added so far, the old count and, in the cache, the old rows. */
    method Compact(fault: Option<nat>) returns (ok: bool)
      requires Valid() && !stale
      modifies this`stored, this`messageCount, this`cache, this`stale
      ensures Valid()
      ensures old(messageCount) >= threshold && |old(stored)| >= MIN_KEPT ==>
                && (ok <==> Finishes(old(stored), fault))
                && stored == CompactedUpTo(old(stored), fault)
                && messageCount == (if ok then |stored| else old(messageCount))
                && (stale <==> !ok && fault.value > 1)
                && (stale ==> cache == Some(old(stored)))
      ensures !(old(messageCount) >= threshold && |old(stored)| >= MIN_KEPT) ==>
                stored == old(stored) && messageCount == old(messageCount) && !stale && (fault.None? ==> ok)
    {
      if messageCount < threshold {
        return true;
      }
      if fault == Some(0) {
        return false;
      }
      var messages := GetHistory(messageCount, false);
      AllOf(messages, stored, messageCount);
      if |messages| < MIN_KEPT {
        return true;
      }
      var compactCount := |messages| - KeepCount(|messages|);
      var toCompact, toKeep := messages[..compactCount], messages[compactCount..];
      var summary := Summarise(toCompact);
      CompactedParts(messages, compactCount);
      ok := Rebuild(summary, toKeep, fault);
      Rebuilt(messages, fault, ok, stored);
      if ok {
        messageCount := 1 + |toKeep|;
        cache := None;
      } else {
        stale := fault.value > 1;
      }
    }
  }
}
