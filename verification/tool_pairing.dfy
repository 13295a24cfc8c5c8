/**
 Repair of the pairing between tool calls and tool responses: the block loop, a
 position-by-position account of what it keeps, and the grammar its output obeys.
 */
module ToolPairing {
  import opened SharedTypes
  import opened MessageHistory

  // ----- which positions survive, said without the loop -----

  /** Every message strictly between `i` and `j` is a tool message. */
  predicate ToolRun(ms: seq<Message>, i: nat, j: nat) {
    forall k :: i < k < j && k < |ms| ==> ms[k].IsTool()
  }

  /** The tool message at `q` answers to the message at `i` under the given id. */
  predicate Answers(ms: seq<Message>, i: nat, q: nat, id: Id) {
    i < q < |ms| && ms[q].IsTool() && ToolRun(ms, i, q) && ms[q].AnswerId() == id
  }

  /** Every id declared at `i` is answered in the run of tool messages after `i`. */
  ghost predicate Complete(ms: seq<Message>, i: nat)
    requires i < |ms|
  {
    forall id :: id in ms[i].DeclaredIds() ==> exists q :: Answers(ms, i, q, id)
  }

  /** The tool message at `p` is the first answer, in its run, to a declared id of a
      complete block opened at `i`. */
  ghost predicate FirstAnswer(ms: seq<Message>, i: nat, p: nat)
    requires p < |ms|
  {
    && i < p && ms[i].IsCaller() && ToolRun(ms, i, p) && Complete(ms, i)
    && ms[p].AnswerId() in ms[i].DeclaredIds()
    && forall q :: i < q < p ==> ms[q].AnswerId() != ms[p].AnswerId()
  }

  /** The promise: which positions of a history a repair keeps. */
  ghost predicate Keeps(ms: seq<Message>, p: nat)
    requires p < |ms|
  {
    if ms[p].IsTool() then exists i :: FirstAnswer(ms, i, p)
    else if ms[p].IsCaller() then Complete(ms, p)
    else true
  }

  /** The kept positions below `n`, in increasing order. */
  ghost function KeptBelow(ms: seq<Message>, n: nat): (ps: seq<nat>)
    requires n <= |ms|
    ensures forall k :: 0 <= k < |ps| ==> ps[k] < n
  {
    if n == 0 then []
    else if Keeps(ms, n - 1) then KeptBelow(ms, n - 1) + [n - 1]
    else KeptBelow(ms, n - 1)
  }

  /** The messages at the given positions. */
  function Select(ms: seq<Message>, ps: seq<nat>): seq<Message>
    requires forall k :: 0 <= k < |ps| ==> ps[k] < |ms|
  {
    seq(|ps|, k requires 0 <= k < |ps| => ms[ps[k]])
  }

  ghost function KeptMessages(ms: seq<Message>, n: nat): seq<Message>
    requires n <= |ms|
  {
    Select(ms, KeptBelow(ms, n))
  }

  ghost function Repaired(ms: seq<Message>): seq<Message> {
    KeptMessages(ms, |ms|)
  }

  /** `KeptBelow` lists the kept positions: all of them, nothing else, in order. */
  lemma {:induction false} KeptBelowLists(ms: seq<Message>, n: nat)
    requires n <= |ms|
    ensures var ps := KeptBelow(ms, n);
      && (forall j, k :: 0 <= j < k < |ps| ==> ps[j] < ps[k])
      && (forall p :: p in ps <==> 0 <= p < n && Keeps(ms, p))
  {
    if n > 0 {
      KeptBelowLists(ms, n - 1);
    }
  }

  /** What is kept, in terms of the messages alone: everything that is neither a tool message
      nor an assistant message with calls; such an assistant message when each of its calls
      has an answer among the tool messages right after it; and a tool message when it answers
      a call of such a message before it, and no earlier one does under the same id. */
  lemma KeepsMeans(ms: seq<Message>, p: nat)
    requires p < |ms|
    ensures ms[p].role != Some("tool") && (ms[p].role != Some("assistant") || ms[p].toolCalls == []) ==> Keeps(ms, p)
    ensures ms[p].role == Some("assistant") && ms[p].toolCalls != [] ==>
              (Keeps(ms, p) <==> forall call :: call in ms[p].toolCalls ==> Answered(ms, p, call))
    ensures ms[p].role == Some("tool") ==>
              (Keeps(ms, p) <==> exists i :: Answering(ms, i, p))
  {
    if ms[p].IsCaller() {
      CompleteMeans(ms, p);
    }
    if ms[p].IsTool() {
      forall i: nat ensures Answering(ms, i, p) <==> FirstAnswer(ms, i, p) {
        if i < p {
          AnsweringMeans(ms, i, p);
        }
      }
    }
  }

  /** Some tool message after the one at `i`, with only tool messages between, has the call's id. */
  ghost predicate Answered(ms: seq<Message>, i: nat, call: ToolCall) {
    exists q :: i < q < |ms| && (forall k :: i < k <= q ==> ms[k].role == Some("tool"))
                && ms[q].toolCallId.Read() == call.id.Read()
  }

  /** The tool message at `p` is the first to answer some call of the message at `i`, all of
      whose calls are answered. */
  ghost predicate Answering(ms: seq<Message>, i: nat, p: nat)
    requires p < |ms|
  {
    && i < p && ms[i].role == Some("assistant") && ms[i].toolCalls != []
    && (forall k :: i < k <= p ==> ms[k].role == Some("tool"))
    && (forall call :: call in ms[i].toolCalls ==> Answered(ms, i, call))
    && (exists call :: call in ms[i].toolCalls && call.id.Read() == ms[p].toolCallId.Read())
    && (forall q :: i < q < p ==> ms[q].toolCallId.Read() != ms[p].toolCallId.Read())
  }

  lemma CompleteMeans(ms: seq<Message>, i: nat)
    requires i < |ms|
    ensures Complete(ms, i) <==> forall call :: call in ms[i].toolCalls ==> Answered(ms, i, call)
  {
    forall call | call in ms[i].toolCalls
      ensures call.id.Read() in ms[i].DeclaredIds()
      ensures Answered(ms, i, call) <==> exists q :: Answers(ms, i, q, call.id.Read())
    {
      if q: nat :| Answers(ms, i, q, call.id.Read()) {
        assert i < q < |ms| && (forall k :: i < k <= q ==> ms[k].role == Some("tool"));
      }
      if Answered(ms, i, call) {
        var q :| i < q < |ms| && (forall k :: i < k <= q ==> ms[k].role == Some("tool"))
                 && ms[q].toolCallId.Read() == call.id.Read();
        assert Answers(ms, i, q, call.id.Read());
      }
    }
  }

  lemma AnsweringMeans(ms: seq<Message>, i: nat, p: nat)
    requires i < p < |ms| && ms[p].role == Some("tool")
    ensures Answering(ms, i, p) <==> FirstAnswer(ms, i, p)
  {
    CompleteMeans(ms, i);
  }

  lemma SelectConcat(ms: seq<Message>, ps: seq<nat>, qs: seq<nat>)
    requires forall k :: 0 <= k < |ps| ==> ps[k] < |ms|
    requires forall k :: 0 <= k < |qs| ==> qs[k] < |ms|
    ensures Select(ms, ps + qs) == Select(ms, ps) + Select(ms, qs)
  {
  }

  // ----- the loop -----

  /** The ids of `ids` answered in `(i, j)`. */
  function SeenIds(ms: seq<Message>, ids: set<Id>, i: nat, j: nat): set<Id>
    requires i < j <= |ms|
    decreases j
  {
    if j == i + 1 then {}
    else
      var seen := SeenIds(ms, ids, i, j - 1);
      if ms[j - 1].AnswerId() in ids then seen + {ms[j - 1].AnswerId()} else seen
  }

  /** Positions in `(i, j)` holding the first answer to some id of `ids`. */
  function FirstAnswers(ms: seq<Message>, ids: set<Id>, i: nat, j: nat): (ps: seq<nat>)
    requires i < j <= |ms|
    ensures forall k :: 0 <= k < |ps| ==> i < ps[k] < j
    decreases j
  {
    if j == i + 1 then []
    else
      var before := FirstAnswers(ms, ids, i, j - 1);
      var id := ms[j - 1].AnswerId();
      if id in ids && id !in SeenIds(ms, ids, i, j - 1) then before + [j - 1] else before
  }

  function AnswerMessages(ms: seq<Message>, ids: set<Id>, i: nat, j: nat): seq<Message>
    requires i < j <= |ms|
  {
    Select(ms, FirstAnswers(ms, ids, i, j))
  }

  lemma {:induction false} SeenMeans(ms: seq<Message>, ids: set<Id>, i: nat, j: nat, id: Id)
    requires i < j <= |ms|
    ensures id in SeenIds(ms, ids, i, j) <==> id in ids && exists q :: i < q < j && ms[q].AnswerId() == id
    decreases j
  {
    if j > i + 1 {
      SeenMeans(ms, ids, i, j - 1, id);
      if q :| i < q < j && ms[q].AnswerId() == id {
        assert q == j - 1 || (i < q < j - 1 && ms[q].AnswerId() == id);
      }
    }
  }

  lemma {:induction false} KeptRun(ms: seq<Message>, i: nat, j: nat)
    requires i < j <= |ms| && !ms[i].IsTool() && ToolRun(ms, i, j)
    ensures KeptBelow(ms, j) ==
            if ms[i].IsCaller() && Complete(ms, i)
            then KeptBelow(ms, i + 1) + FirstAnswers(ms, ms[i].DeclaredIds(), i, j)
            else KeptBelow(ms, i + 1)
    decreases j
  {
    if j > i + 1 {
      KeptRun(ms, i, j - 1);
      OnlyOwner(ms, i, j - 1);
      KeptStep(ms, j);
      SeenMeans(ms, ms[i].DeclaredIds(), i, j - 1, ms[j - 1].AnswerId());
      Associates(KeptBelow(ms, i + 1), FirstAnswers(ms, ms[i].DeclaredIds(), i, j - 1), j - 1);
    }
  }

  lemma KeptStep(ms: seq<Message>, n: nat)
    requires 0 < n <= |ms|
    ensures KeptBelow(ms, n) == if Keeps(ms, n - 1) then KeptBelow(ms, n - 1) + [n - 1] else KeptBelow(ms, n - 1)
  {
  }

  lemma Associates(x: seq<nat>, y: seq<nat>, z: nat)
    ensures (x + y) + [z] == x + (y + [z])
  {
  }

  /** The only message a tool message can answer to is the last non-tool one before it. */
  lemma OnlyOwner(ms: seq<Message>, i: nat, p: nat)
    requires i < p < |ms| && !ms[i].IsTool() && ms[p].IsTool() && ToolRun(ms, i, p)
    ensures Keeps(ms, p) <==> FirstAnswer(ms, i, p)
  {
    forall k | FirstAnswer(ms, k, p) ensures k == i {
    }
  }

  lemma CompleteWhenSeen(ms: seq<Message>, i: nat, j: nat)
    requires i < j <= |ms| && ToolRun(ms, i, j) && (j < |ms| ==> !ms[j].IsTool())
    ensures SeenIds(ms, ms[i].DeclaredIds(), i, j) == ms[i].DeclaredIds() <==> Complete(ms, i)
  {
    var ids := ms[i].DeclaredIds();
    forall id | id in ids
      ensures id in SeenIds(ms, ids, i, j) <==> exists q :: Answers(ms, i, q, id)
    {
      SeenMeans(ms, ids, i, j, id);
      if q: nat :| i < q < j && ms[q].AnswerId() == id {
        assert Answers(ms, i, q, id);
      }
      if q: nat :| Answers(ms, i, q, id) {
        assert q < j;
      }
    }
    SeenAreDeclared(ms, ids, i, j);
  }

  lemma {:induction false} SeenAreDeclared(ms: seq<Message>, ids: set<Id>, i: nat, j: nat)
    requires i < j <= |ms|
    ensures SeenIds(ms, ids, i, j) <= ids
    decreases j
  {
    if j > i + 1 {
      SeenAreDeclared(ms, ids, i, j - 1);
    }
  }

  /** The repair keeps exactly the positions that `Keeps` describes, in order. */
  method RepairToolCallPairing(messages: seq<Message>) returns (result: seq<Message>)
    ensures result == Repaired(messages)
  {
    result := [];
    var i := 0;
    var n := |messages|;
    while i < n
      invariant 0 <= i <= n
      invariant result == KeptMessages(messages, i)
      invariant i < n && messages[i].IsTool() ==> NoOpenBlock(messages, i)
    {
      var msg := messages[i];
      if msg.IsTool() {
        StrayStep(messages, i);
        i := i + 1;
      } else if msg.IsCaller() {
        var expectedIds := msg.DeclaredIds();
        var j, seenIds, responded := CollectResponses(messages, i, expectedIds);
        BlockStep(messages, i, j);
        if seenIds == expectedIds {
          result := result + [msg];
          result := result + responded;
        }
        i := j;
      } else {
        PlainStep(messages, i);
        result := result + [msg];
        i := i + 1;
      }
    }
  }

  /** The inner loop: the run of tool messages after a caller, with the first answer to each
      expected id. */
  method CollectResponses(messages: seq<Message>, i: nat, expectedIds: set<Id>)
    returns (j: nat, seenIds: set<Id>, responded: seq<Message>)
    requires i < |messages|
    ensures i < j <= |messages| && ToolRun(messages, i, j) && (j < |messages| ==> !messages[j].IsTool())
    ensures seenIds == SeenIds(messages, expectedIds, i, j)
    ensures responded == AnswerMessages(messages, expectedIds, i, j)
  {
    j, seenIds, responded := i + 1, {}, [];
    RunStarts(messages, i, expectedIds);
    while j < |messages| && messages[j].IsTool()
      invariant i < j <= |messages| && ToolRun(messages, i, j)
      invariant seenIds == SeenIds(messages, expectedIds, i, j)
      invariant responded == AnswerMessages(messages, expectedIds, i, j)
    {
      var id := messages[j].AnswerId();
      ResponseStep(messages, expectedIds, i, j);
      if id in expectedIds && id !in seenIds {
        responded := responded + [messages[j]];
        seenIds := seenIds + {id};
      }
      j := j + 1;
    }
  }

  lemma RunStarts(ms: seq<Message>, i: nat, ids: set<Id>)
    requires i < |ms|
    ensures ToolRun(ms, i, i + 1) && SeenIds(ms, ids, i, i + 1) == {} && AnswerMessages(ms, ids, i, i + 1) == []
  {
  }

  lemma ResponseStep(ms: seq<Message>, ids: set<Id>, i: nat, j: nat)
    requires i < j < |ms| && ms[j].IsTool() && ToolRun(ms, i, j)
    ensures ToolRun(ms, i, j + 1)
    ensures var id := ms[j].AnswerId();
      var isNew := id in ids && id !in SeenIds(ms, ids, i, j);
      && SeenIds(ms, ids, i, j + 1) == (if isNew then SeenIds(ms, ids, i, j) + {id} else SeenIds(ms, ids, i, j))
      && AnswerMessages(ms, ids, i, j + 1)
         == if isNew then AnswerMessages(ms, ids, i, j) + [ms[j]] else AnswerMessages(ms, ids, i, j)
  {
    SelectConcat(ms, FirstAnswers(ms, ids, i, j), [j]);
    assert Select(ms, [j]) == [ms[j]];
  }

  lemma BlockStep(ms: seq<Message>, i: nat, j: nat)
    requires i < j <= |ms| && ms[i].IsCaller() && ToolRun(ms, i, j) && (j < |ms| ==> !ms[j].IsTool())
    ensures var ids := ms[i].DeclaredIds();
      KeptMessages(ms, j) ==
        if SeenIds(ms, ids, i, j) == ids
        then KeptMessages(ms, i) + [ms[i]] + AnswerMessages(ms, ids, i, j)
        else KeptMessages(ms, i)
  {
    var ids := ms[i].DeclaredIds();
    CompleteWhenSeen(ms, i, j);
    KeptRun(ms, i, j);
    KeptStep(ms, i + 1);
    if Complete(ms, i) {
      var answers := FirstAnswers(ms, ids, i, j);
      SelectConcat(ms, KeptBelow(ms, i) + [i], answers);
      SelectConcat(ms, KeptBelow(ms, i), [i]);
      assert Select(ms, [i]) == [ms[i]];
    }
  }

  lemma PlainStep(ms: seq<Message>, i: nat)
    requires i < |ms| && !ms[i].IsTool() && !ms[i].IsCaller()
    ensures KeptMessages(ms, i + 1) == KeptMessages(ms, i) + [ms[i]]
    ensures i + 1 < |ms| ==> NoOpenBlock(ms, i + 1)
  {
    KeptStep(ms, i + 1);
    SelectConcat(ms, KeptBelow(ms, i), [i]);
    assert Select(ms, [i]) == [ms[i]];
    if i + 1 < |ms| {
      forall k: nat | k < i + 1 && ToolRun(ms, k, i + 1) ensures !ms[k].IsCaller() {
        assert k == i;
      }
    }
  }

  /** No complete block can claim a tool message at `i`. */
  ghost predicate NoOpenBlock(ms: seq<Message>, i: nat)
    requires i < |ms|
  {
    forall k: nat :: k < i && ToolRun(ms, k, i) ==> !ms[k].IsCaller()
  }

  lemma StrayStep(ms: seq<Message>, i: nat)
    requires i < |ms| && ms[i].IsTool() && NoOpenBlock(ms, i)
    ensures !Keeps(ms, i)
    ensures i + 1 < |ms| ==> NoOpenBlock(ms, i + 1)
    ensures KeptMessages(ms, i + 1) == KeptMessages(ms, i)
  {
    if i + 1 < |ms| {
      forall k: nat | k < i + 1 && ToolRun(ms, k, i + 1) ensures !ms[k].IsCaller() {
        if k < i {
          assert ToolRun(ms, k, i);
        }
      }
    }
  }
}
