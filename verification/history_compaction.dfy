/**
 Compaction of old tool results: the loop, how it composes with itself and with the
 pairing repair, and how much text it leaves.
 */
module HistoryCompaction {
  import opened SharedTypes
  import opened MessageHistory
  import opened ToolPairing
  import opened ToolGrammar

  const ELIDED_MARKER := "[elided]"

  /** Number of tool messages at position `i` or later. */
  function ToolsFrom(ms: seq<Message>, i: nat): (n: nat)
    decreases |ms| - i
  {
    if i >= |ms| then 0 else (if ms[i].IsTool() then 1 else 0) + ToolsFrom(ms, i + 1)
  }

  /** Truncation to `maxChars`, off when it is not positive. */
  function Cut(content: Content, maxChars: int): Content {
    if maxChars > 0 && content.Text? && |content.text| > maxChars then Text(content.text[..maxChars]) else content
  }

  /** A tool result survives when fewer than `keepLast` tool results follow it. */
  function CompactedAt(ms: seq<Message>, i: nat, keepLast: int, maxChars: int): Message
    requires i < |ms|
  {
    if !ms[i].IsTool() then ms[i]
    else if ToolsFrom(ms, i + 1) < keepLast then ms[i].(content := Cut(ms[i].content, maxChars))
    else ms[i].(content := Text(ELIDED_MARKER))
  }

  function Compacted(ms: seq<Message>, keepLast: int, maxChars: int): (r: seq<Message>)
    ensures |r| == |ms|
  {
    seq(|ms|, i requires 0 <= i < |ms| => CompactedAt(ms, i, keepLast, maxChars))
  }

  // ----- the loop -----

  /** Positions of the tool messages at `from` or later, oldest first. */
  function ToolIndices(ms: seq<Message>, from: nat): (r: seq<nat>)
    ensures |r| == ToolsFrom(ms, from)
    decreases |ms| - from
  {
    if from >= |ms| then []
    else if ms[from].IsTool() then [from] + ToolIndices(ms, from + 1)
    else ToolIndices(ms, from + 1)
  }

  /** The slice `s[-n:]` for positive `n`. */
  function Last(s: seq<nat>, n: nat): seq<nat> {
    if n >= |s| then s else s[|s| - n..]
  }

  /** Being among the last `n` tool positions is having fewer than `n` after oneself. */
  lemma {:induction false} LastIndices(ms: seq<Message>, from: nat, n: nat)
    ensures forall i :: i in Last(ToolIndices(ms, from), n) <==>
              from <= i < |ms| && ms[i].IsTool() && ToolsFrom(ms, i + 1) < n
    decreases |ms| - from
  {
    if from < |ms| {
      LastIndices(ms, from + 1, n);
      if ms[from].IsTool() {
        LastWithHead(from, ToolIndices(ms, from + 1), n);
      }
    }
  }

  lemma LastWithHead(x: nat, tail: seq<nat>, n: nat)
    ensures forall i :: i in Last([x] + tail, n) <==> i in Last(tail, n) || (i == x && |tail| < n)
  {
    if n > |tail| {
      assert Last(tail, n) == tail && Last([x] + tail, n) == [x] + tail;
    } else {
      assert Last([x] + tail, n) == Last(tail, n);
    }
  }

  method CompactToolResults(messages: seq<Message>, keepLast: int, maxChars: int) returns (result: seq<Message>)
    ensures result == Compacted(messages, keepLast, maxChars)
  {
    var keep: nat := if keepLast < 0 then 0 else keepLast;
    var toolIndices := ToolIndices(messages, 0);
    if toolIndices == [] {
      NoToolsUnchanged(messages, keepLast, maxChars);
      return messages;
    }
    var verbatim := if keep > 0 then set i | i in Last(toolIndices, keep) else {};
    LastIndices(messages, 0, keep);
    result := [];
    for i := 0 to |messages|
      invariant |result| == i
      invariant forall k :: 0 <= k < i ==> result[k] == CompactedAt(messages, k, keepLast, maxChars)
    {
      var msg := messages[i];
      if !msg.IsTool() {
        result := result + [msg];
      } else {
        var newMsg := msg;
        if i in verbatim {
          if maxChars > 0 && msg.content.Text? && |msg.content.text| > maxChars {
            newMsg := newMsg.(content := Text(msg.content.text[..maxChars]));
          }
        } else {
          newMsg := newMsg.(content := Text(ELIDED_MARKER));
        }
        result := result + [newMsg];
      }
    }
  }

  /** How many of the messages from a position on are tool results. */
  lemma {:induction false} ToolsFromCounts(ms: seq<Message>, i: nat)
    ensures ToolsFrom(ms, i) == |set k | i <= k < |ms| && ms[k].role == Some("tool")|
    decreases |ms| - i
  {
    var here, later := set k | i <= k < |ms| && ms[k].role == Some("tool"),
                       set k | i + 1 <= k < |ms| && ms[k].role == Some("tool");
    if i < |ms| {
      ToolsFromCounts(ms, i + 1);
      assert here == if ms[i].role == Some("tool") then later + {i} else later;
    } else {
      assert here == {};
    }
  }

  /** What becomes of each message. A tool result with fewer than `keepLast` tool results after
      it keeps the beginning of its text, `maxChars` characters if that is positive and the text
      is longer, and any content that is no string; an older one reads as the marker; nothing
      else changes in any message. */
  lemma CompactedMessage(ms: seq<Message>, keepLast: int, maxChars: int, i: nat)
    requires i < |ms|
    ensures |Compacted(ms, keepLast, maxChars)| == |ms|
    ensures var was, now := ms[i], Compacted(ms, keepLast, maxChars)[i];
      var later := |set k | i < k < |ms| && ms[k].role == Some("tool")|;
      && now == was.(content := now.content)
      && (was.role != Some("tool") ==> now == was)
      && (was.role == Some("tool") && later >= keepLast ==> now.content == Text("[elided]"))
      && (was.role == Some("tool") && later < keepLast ==>
            if was.content.Text? then
              && now.content.Text? && now.content.text <= was.content.text
              && |now.content.text| == if 0 < maxChars < |was.content.text| then maxChars else |was.content.text|
            else now.content == was.content)
  {
    ToolsFromCounts(ms, i + 1);
    assert (set k | i < k < |ms| && ms[k].role == Some("tool"))
           == set k | i + 1 <= k < |ms| && ms[k].role == Some("tool");
  }

  lemma NoToolsUnchanged(ms: seq<Message>, keepLast: int, maxChars: int)
    requires ToolIndices(ms, 0) == []
    ensures Compacted(ms, keepLast, maxChars) == ms
  {
    forall i | 0 <= i < |ms| ensures !ms[i].IsTool() {
      CountsItself(ms, 0, i);
    }
  }

  lemma {:induction false} CountsItself(ms: seq<Message>, from: nat, i: nat)
    requires from <= i < |ms| && ToolsFrom(ms, from) == 0
    ensures !ms[i].IsTool()
    decreases i - from
  {
    if from < i {
      CountsItself(ms, from + 1, i);
    }
  }

  // ----- compaction and pairing -----

  /** The histories differ in message contents only. */
  predicate SameShape(ms: seq<Message>, rs: seq<Message>) {
    |ms| == |rs| && forall i :: 0 <= i < |ms| ==> rs[i] == ms[i].(content := rs[i].content)
  }

  lemma CompactedShape(ms: seq<Message>, keepLast: int, maxChars: int)
    ensures SameShape(ms, Compacted(ms, keepLast, maxChars))
  {
  }

  lemma ShapeAnswers(ms: seq<Message>, rs: seq<Message>, i: nat)
    requires SameShape(ms, rs)
    ensures forall j: nat :: ToolRun(ms, i, j) <==> ToolRun(rs, i, j)
    ensures forall q: nat, id :: Answers(ms, i, q, id) <==> Answers(rs, i, q, id)
  {
    assert forall k :: 0 <= k < |ms| ==> ms[k].IsTool() == rs[k].IsTool() && ms[k].AnswerId() == rs[k].AnswerId();
    forall j: nat ensures ToolRun(ms, i, j) <==> ToolRun(rs, i, j) {
    }
  }

  lemma ShapeComplete(ms: seq<Message>, rs: seq<Message>, i: nat)
    requires SameShape(ms, rs) && i < |ms|
    ensures Complete(ms, i) <==> Complete(rs, i)
  {
    ShapeAnswers(ms, rs, i);
    assert ms[i].DeclaredIds() == rs[i].DeclaredIds();
    forall id | id in ms[i].DeclaredIds()
      ensures (exists q :: Answers(ms, i, q, id)) <==> (exists q :: Answers(rs, i, q, id))
    {
      if q: nat :| Answers(ms, i, q, id) {
        assert Answers(rs, i, q, id);
      }
      if q: nat :| Answers(rs, i, q, id) {
        assert Answers(ms, i, q, id);
      }
    }
  }

  lemma ShapeFirst(ms: seq<Message>, rs: seq<Message>, i: nat, p: nat)
    requires SameShape(ms, rs) && p < |ms| && FirstAnswer(ms, i, p)
    ensures FirstAnswer(rs, i, p)
  {
    ShapeAnswers(ms, rs, i);
    ShapeComplete(ms, rs, i);
    assert forall k :: 0 <= k < |ms| ==> ms[k].AnswerId() == rs[k].AnswerId();
    assert ms[i].DeclaredIds() == rs[i].DeclaredIds();
  }

  lemma ShapeKeeps(ms: seq<Message>, rs: seq<Message>, p: nat)
    requires SameShape(ms, rs) && p < |ms|
    ensures Keeps(ms, p) <==> Keeps(rs, p)
  {
    assert SameShape(rs, ms);
    ShapeComplete(ms, rs, p);
    if ms[p].IsTool() {
      if i: nat :| FirstAnswer(ms, i, p) {
        ShapeFirst(ms, rs, i, p);
      }
      if i: nat :| FirstAnswer(rs, i, p) {
        ShapeFirst(rs, ms, i, p);
      }
    }
  }

  lemma {:induction false} ShapeKept(ms: seq<Message>, rs: seq<Message>, n: nat)
    requires SameShape(ms, rs) && n <= |ms|
    ensures KeptBelow(ms, n) == KeptBelow(rs, n)
  {
    if n > 0 {
      ShapeKept(ms, rs, n - 1);
      ShapeKeeps(ms, rs, n - 1);
    }
  }

  /** A repair after compaction keeps the same positions as a repair without it. */
  lemma CompactionKeepsRepair(ms: seq<Message>, keepLast: int, maxChars: int)
    ensures var rs := Compacted(ms, keepLast, maxChars);
      KeptBelow(rs, |rs|) == KeptBelow(ms, |ms|) && Repaired(rs) == Select(rs, KeptBelow(ms, |ms|))
  {
    CompactedShape(ms, keepLast, maxChars);
    ShapeKept(ms, Compacted(ms, keepLast, maxChars), |ms|);
  }

  /** Keeping as many positions as there are is keeping all of them. */
  lemma {:induction false} FullKept(ms: seq<Message>, n: nat)
    requires n <= |ms|
    ensures |KeptBelow(ms, n)| <= n
    ensures |KeptBelow(ms, n)| == n ==> forall k :: 0 <= k < n ==> KeptBelow(ms, n)[k] == k
  {
    if n > 0 {
      FullKept(ms, n - 1);
    }
  }

  /** Compacting neither breaks nor mends a history. */
  lemma CompactionKeepsValidity(ms: seq<Message>, keepLast: int, maxChars: int)
    ensures ValidHistory(Compacted(ms, keepLast, maxChars)) <==> ValidHistory(ms)
  {
    var rs := Compacted(ms, keepLast, maxChars);
    CompactionKeepsRepair(ms, keepLast, maxChars);
    FullKept(ms, |ms|);
    RepairFixesExactlyValid(ms);
    RepairFixesExactlyValid(rs);
    AllKeptIsIdentity(ms);
    AllKeptIsIdentity(rs);
  }

  lemma AllKeptIsIdentity(ms: seq<Message>)
    ensures Repaired(ms) == ms <==> |KeptBelow(ms, |ms|)| == |ms|
  {
    FullKept(ms, |ms|);
  }

  // ----- compaction after compaction -----

  lemma {:induction false} ShapeTools(ms: seq<Message>, rs: seq<Message>, i: nat)
    requires SameShape(ms, rs)
    ensures ToolsFrom(ms, i) == ToolsFrom(rs, i)
    decreases |ms| - i
  {
    if i < |ms| {
      ShapeTools(ms, rs, i + 1);
    }
  }

  /** The tighter of two caps, where a cap that is not positive is no cap. */
  function TighterCap(c1: int, c2: int): int {
    if c1 <= 0 then c2 else if c2 <= 0 || c1 <= c2 then c1 else c2
  }

  lemma CutTwice(content: Content, c1: int, c2: int)
    ensures Cut(Cut(content, c1), c2) == Cut(content, TighterCap(c1, c2))
  {
  }

  ghost predicate Collapses(ms: seq<Message>, k1: int, c1: int, k2: int, c2: int) {
    Compacted(Compacted(ms, k1, c1), k2, c2) == Compacted(ms, k2, TighterCap(c1, c2))
  }

  lemma LaterKeepsFewer(ms: seq<Message>, k1: int, c1: int, k2: int, c2: int)
    requires k2 <= 0 || k2 <= k1
    ensures Collapses(ms, k1, c1, k2, c2)
  {
    var rs := Compacted(ms, k1, c1);
    CompactedShape(ms, k1, c1);
    forall i | 0 <= i < |ms|
      ensures CompactedAt(rs, i, k2, c2) == CompactedAt(ms, i, k2, TighterCap(c1, c2))
    {
      ShapeTools(ms, rs, i + 1);
      CutTwice(ms[i].content, c1, c2);
    }
  }

  /** `n` tool results that are not strings. */
  function Opaques(n: nat): seq<Message> {
    seq(n, i => Message(Some("tool"), [], Absent, NonText(0), map[]))
  }

  lemma {:induction false} OpaquesCount(n: nat, i: nat)
    requires i <= n
    ensures ToolsFrom(Opaques(n), i) == n - i
    decreases n - i
  {
    if i < n {
      OpaquesCount(n, i + 1);
    }
  }

  /** An elided result that the second compaction would have kept is lost. */
  lemma LaterKeepsMore(k1: int, c1: int, k2: int, c2: int)
    requires k2 > 0 && k2 > k1
    ensures !Collapses(Opaques(k2), k1, c1, k2, c2)
  {
    var ms := Opaques(k2);
    var rs := Compacted(ms, k1, c1);
    CompactedShape(ms, k1, c1);
    OpaquesCount(k2, 1);
    ShapeTools(ms, rs, 1);
    assert rs[0].content == Text(ELIDED_MARKER);
    assert Compacted(rs, k2, c2)[0].content.Text?;
    assert Compacted(ms, k2, TighterCap(c1, c2))[0].content == NonText(0);
  }

  /** Two compactions are one, with the later count and the tighter cap, on every history
      exactly when the later one keeps no more results than the earlier one. */
  lemma CompactionsCollapseIff(k1: int, c1: int, k2: int, c2: int)
    ensures (forall ms :: Collapses(ms, k1, c1, k2, c2)) <==> (k2 <= 0 || k2 <= k1)
  {
    if k2 <= 0 || k2 <= k1 {
      forall ms ensures Collapses(ms, k1, c1, k2, c2) {
        LaterKeepsFewer(ms, k1, c1, k2, c2);
      }
    } else {
      LaterKeepsMore(k1, c1, k2, c2);
    }
  }

  lemma CompactionIsIdempotent(ms: seq<Message>, keepLast: int, maxChars: int)
    ensures Compacted(Compacted(ms, keepLast, maxChars), keepLast, maxChars) == Compacted(ms, keepLast, maxChars)
  {
    LaterKeepsFewer(ms, keepLast, maxChars, keepLast, maxChars);
  }

  // ----- how much text is left -----

  /** Characters of string content in the tool messages at `i` or later. */
  function ToolText(ms: seq<Message>, i: nat): nat
    decreases |ms| - i
  {
    if i >= |ms| then 0
    else TextOf(ms[i]) + ToolText(ms, i + 1)
  }

  function TextOf(m: Message): nat {
    if m.IsTool() && m.content.Text? then |m.content.text| else 0
  }

  /** What is left of one message. */
  lemma CompactedText(ms: seq<Message>, keepLast: nat, maxChars: nat, i: nat)
    requires maxChars > 0 && i < |ms|
    ensures TextOf(Compacted(ms, keepLast, maxChars)[i])
            <= if !ms[i].IsTool() then 0 else if ToolsFrom(ms, i + 1) < keepLast then maxChars else 8
  {
    assert |ELIDED_MARKER| == 8;
  }

  /** One more tool result, kept or elided. */
  lemma BoundStep(keepLast: nat, maxChars: nat, later: nat)
    ensures var kept, kept' := Fewer(keepLast, later), Fewer(keepLast, later + 1);
      kept' * maxChars + 8 * (later + 1 - kept')
      == kept * maxChars + 8 * (later - kept) + (if later < keepLast then maxChars else 8)
  {
    if later < keepLast {
      assert (later + 1) * maxChars == later * maxChars + maxChars;
    }
  }

  function Fewer(x: nat, y: nat): nat {
    if x <= y then x else y
  }

  lemma {:induction false} TextFrom(ms: seq<Message>, keepLast: nat, maxChars: nat, i: nat)
    requires maxChars > 0
    ensures var kept := Fewer(keepLast, ToolsFrom(ms, i));
      ToolText(Compacted(ms, keepLast, maxChars), i) <= kept * maxChars + 8 * (ToolsFrom(ms, i) - kept)
    decreases |ms| - i
  {
    if i < |ms| {
      TextFrom(ms, keepLast, maxChars, i + 1);
      CompactedText(ms, keepLast, maxChars, i);
      BoundStep(keepLast, maxChars, ToolsFrom(ms, i + 1));
    }
  }

  /** With a positive cap the text grows with the kept results only; each older one
      costs the eight characters of the marker. */
  lemma CompactedTextBound(ms: seq<Message>, keepLast: nat, maxChars: nat)
    requires maxChars > 0
    ensures var tools := ToolsFrom(ms, 0);
      ToolText(Compacted(ms, keepLast, maxChars), 0)
        <= Fewer(keepLast, tools) * maxChars + 8 * (tools - Fewer(keepLast, tools))
  {
    TextFrom(ms, keepLast, maxChars, 0);
  }
}
