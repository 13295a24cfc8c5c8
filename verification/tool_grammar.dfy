/**
 The grammar of valid histories, and its agreement with the repair: repaired histories
 are valid, and the repair changes nothing exactly on valid ones.
 */
module ToolGrammar {
  import opened MessageHistory
  import opened ToolPairing

  /** What a valid history consists of: plain messages, and callers each followed by one
      response per declared id. */
  datatype Segment = Plain(message: Message) | Block(caller: Message, responses: seq<Message>) {
    ghost predicate WellFormed() {
      match this
      case Plain(m) => !m.IsTool() && !m.IsCaller()
      case Block(m, rs) =>
        m.IsCaller() && DistinctResponses(rs) && AnswerIds(rs) == m.DeclaredIds()
    }

    function Messages(): seq<Message> {
      match this
      case Plain(m) => [m]
      case Block(m, rs) => [m] + rs
    }
  }

  /** Tool messages, no two with the same id. */
  ghost predicate DistinctResponses(rs: seq<Message>) {
    && (forall k :: 0 <= k < |rs| ==> rs[k].IsTool())
    && (forall j, k :: 0 <= j < k < |rs| ==> rs[j].AnswerId() != rs[k].AnswerId())
  }

  function AnswerIds(rs: seq<Message>): set<Id> {
    set r | r in rs :: r.AnswerId()
  }

  function Flatten(segments: seq<Segment>): seq<Message> {
    if segments == [] then [] else segments[0].Messages() + Flatten(segments[1..])
  }

  ghost predicate Parses(segments: seq<Segment>, ms: seq<Message>) {
    Flatten(segments) == ms && forall k :: 0 <= k < |segments| ==> segments[k].WellFormed()
  }

  ghost predicate ValidHistory(ms: seq<Message>) {
    exists segments :: Parses(segments, ms)
  }

  lemma {:induction false} FlattenAppend(segments: seq<Segment>, s: Segment)
    ensures Flatten(segments + [s]) == Flatten(segments) + s.Messages()
  {
    if segments == [] {
      assert [s][1..] == [];
    } else {
      FlattenAppend(segments[1..], s);
      assert (segments + [s])[1..] == segments[1..] + [s];
      Reassociate(segments[0].Messages(), Flatten(segments[1..]), s.Messages());
    }
  }

  lemma Reassociate(x: seq<Message>, y: seq<Message>, z: seq<Message>)
    ensures x + (y + z) == (x + y) + z
  {
  }

  lemma ParsesAppend(segments: seq<Segment>, ms: seq<Message>, s: Segment)
    requires Parses(segments, ms) && s.WellFormed()
    ensures Parses(segments + [s], ms + s.Messages())
  {
    FlattenAppend(segments, s);
  }

  // ----- repaired histories are valid -----

  /** End of the run of tool messages that starts at `j`. */
  function RunEnd(ms: seq<Message>, j: nat): (e: nat)
    requires j <= |ms|
    ensures j <= e <= |ms|
    ensures forall k :: j <= k < e ==> ms[k].IsTool()
    ensures e < |ms| ==> !ms[e].IsTool()
    decreases |ms| - j
  {
    if j < |ms| && ms[j].IsTool() then RunEnd(ms, j + 1) else j
  }

  /** The answers collected from a run are tool messages with distinct ids: the seen ones. */
  ghost predicate CollectsSeen(ms: seq<Message>, ids: set<Id>, i: nat, j: nat)
    requires i < j <= |ms|
  {
    var rs := AnswerMessages(ms, ids, i, j);
    DistinctResponses(rs) && AnswerIds(rs) == SeenIds(ms, ids, i, j)
  }

  lemma {:induction false} CollectedAnswers(ms: seq<Message>, ids: set<Id>, i: nat, j: nat)
    requires i < j <= |ms| && ToolRun(ms, i, j)
    ensures CollectsSeen(ms, ids, i, j)
    decreases j
  {
    if j == i + 1 {
      RunStarts(ms, i, ids);
    } else {
      CollectedAnswers(ms, ids, i, j - 1);
      CollectsNext(ms, ids, i, j - 1);
    }
  }

  lemma CollectsNext(ms: seq<Message>, ids: set<Id>, i: nat, j: nat)
    requires i < j < |ms| && ms[j].IsTool() && ToolRun(ms, i, j) && CollectsSeen(ms, ids, i, j)
    ensures CollectsSeen(ms, ids, i, j + 1)
  {
    ResponseStep(ms, ids, i, j);
    CollectedStep(AnswerMessages(ms, ids, i, j), AnswerMessages(ms, ids, i, j + 1),
                  SeenIds(ms, ids, i, j), SeenIds(ms, ids, i, j + 1), ids, ms[j]);
  }

  lemma CollectedStep(rs: seq<Message>, rs': seq<Message>, seen: set<Id>, seen': set<Id>, ids: set<Id>, r: Message)
    requires DistinctResponses(rs) && AnswerIds(rs) == seen && r.IsTool()
    requires if r.AnswerId() in ids && r.AnswerId() !in seen
             then rs' == rs + [r] && seen' == seen + {r.AnswerId()}
             else rs' == rs && seen' == seen
    ensures DistinctResponses(rs') && AnswerIds(rs') == seen'
  {
    AnswerIdsAppend(rs, r);
    if rs' != rs {
      DistinctGrows(rs, r);
    }
  }

  lemma AnswerIdsAppend(rs: seq<Message>, r: Message)
    ensures AnswerIds(rs + [r]) == AnswerIds(rs) + {r.AnswerId()}
  {
    assert forall x :: x in rs + [r] <==> x in rs || x == r;
  }

  lemma DistinctGrows(rs: seq<Message>, r: Message)
    requires DistinctResponses(rs) && r.IsTool() && r.AnswerId() !in AnswerIds(rs)
    ensures DistinctResponses(rs + [r])
  {
    assert forall k :: 0 <= k < |rs| ==> rs[k] in rs && rs[k].AnswerId() in AnswerIds(rs);
  }

  lemma DistinctShrinks(rs: seq<Message>, r: Message)
    requires DistinctResponses(rs + [r])
    ensures DistinctResponses(rs) && r.IsTool() && r.AnswerId() !in AnswerIds(rs)
  {
    assert forall k :: 0 <= k < |rs| ==> (rs + [r])[k] == rs[k];
    assert (rs + [r])[|rs|] == r;
  }

  /** Everything the repair lets through obeys the grammar. */
  lemma RepairedIsValid(ms: seq<Message>)
    ensures ValidHistory(Repaired(ms))
  {
    var i := 0;
    var segments: seq<Segment> := [];
    while i < |ms|
      invariant 0 <= i <= |ms|
      invariant Parses(segments, KeptMessages(ms, i))
      invariant i < |ms| && ms[i].IsTool() ==> NoOpenBlock(ms, i)
    {
      if ms[i].IsTool() {
        StrayStep(ms, i);
        i := i + 1;
      } else if ms[i].IsCaller() {
        var j := RunEnd(ms, i + 1);
        segments := BlockParses(ms, i, j, segments);
        i := j;
      } else {
        PlainStep(ms, i);
        ParsesAppend(segments, KeptMessages(ms, i), Plain(ms[i]));
        segments := segments + [Plain(ms[i])];
        i := i + 1;
      }
    }
  }

  lemma BlockParses(ms: seq<Message>, i: nat, j: nat, segments: seq<Segment>) returns (longer: seq<Segment>)
    requires i < j <= |ms| && ms[i].IsCaller() && ToolRun(ms, i, j) && (j < |ms| ==> !ms[j].IsTool())
    requires Parses(segments, KeptMessages(ms, i))
    ensures Parses(longer, KeptMessages(ms, j))
  {
    BlockStep(ms, i, j);
    var ids := ms[i].DeclaredIds();
    var rs := AnswerMessages(ms, ids, i, j);
    longer := segments;
    if SeenIds(ms, ids, i, j) == ids {
      CollectedAnswers(ms, ids, i, j);
      var block := Block(ms[i], rs);
      assert block.Messages() == [ms[i]] + rs;
      Reassociate(KeptMessages(ms, i), [ms[i]], rs);
      assert KeptMessages(ms, j) == KeptMessages(ms, i) + block.Messages();
      ParsesAppend(segments, KeptMessages(ms, i), block);
      longer := segments + [block];
    }
  }

  // ----- valid histories are untouched -----

  /** When the responses in a run have distinct declared ids, all of them are collected. */
  lemma {:induction false} AllCollected(ms: seq<Message>, ids: set<Id>, i: nat, j: nat)
    requires i < j <= |ms| && DistinctResponses(ms[i + 1..j]) && AnswerIds(ms[i + 1..j]) <= ids
    ensures ToolRun(ms, i, j)
    ensures AnswerMessages(ms, ids, i, j) == ms[i + 1..j]
    ensures SeenIds(ms, ids, i, j) == AnswerIds(ms[i + 1..j])
    decreases j
  {
    if j > i + 1 {
      assert ms[i + 1..j] == ms[i + 1..j - 1] + [ms[j - 1]];
      AnswerIdsAppend(ms[i + 1..j - 1], ms[j - 1]);
      DistinctShrinks(ms[i + 1..j - 1], ms[j - 1]);
      AllCollected(ms, ids, i, j - 1);
      ResponseStep(ms, ids, i, j - 1);
    }
  }

  lemma BlockUntouched(ms: seq<Message>, i: nat, j: nat)
    requires i < j <= |ms| && Block(ms[i], ms[i + 1..j]).WellFormed()
    requires j < |ms| ==> !ms[j].IsTool()
    ensures KeptMessages(ms, j) == KeptMessages(ms, i) + [ms[i]] + ms[i + 1..j]
  {
    AllCollected(ms, ms[i].DeclaredIds(), i, j);
    BlockStep(ms, i, j);
  }

  /** A parsed suffix does not start with a tool message. */
  lemma SuffixStart(ms: seq<Message>, i: nat, rest: seq<Segment>)
    requires i < |ms| && Parses(rest, ms[i..])
    ensures !ms[i].IsTool()
  {
    assert ms[i] == ms[i..][0] == rest[0].Messages()[0];
  }

  /** From a segment boundary on, a parsed history is kept as it is. */
  lemma {:induction false} SuffixUntouched(ms: seq<Message>, i: nat, rest: seq<Segment>)
    requires i <= |ms| && Parses(rest, ms[i..]) && KeptMessages(ms, i) == ms[..i]
    ensures Repaired(ms) == ms
    decreases |rest|
  {
    if rest == [] {
      assert ms[i..] == [] && ms[..i] == ms;
    } else {
      var j := FirstUntouched(ms, i, rest);
      SuffixUntouched(ms, j, rest[1..]);
    }
  }

  /** One segment of a parsed suffix is kept as it is. */
  lemma FirstUntouched(ms: seq<Message>, i: nat, rest: seq<Segment>) returns (j: nat)
    requires i <= |ms| && rest != [] && Parses(rest, ms[i..]) && KeptMessages(ms, i) == ms[..i]
    ensures j <= |ms| && Parses(rest[1..], ms[j..]) && KeptMessages(ms, j) == ms[..j]
  {
    j := FirstSegment(ms, i, rest);
    if j < |ms| {
      SuffixStart(ms, j, rest[1..]);
    }
    SegmentUntouched(ms, i, j, rest[0]);
    Spliced(ms, i, j);
  }

  lemma FirstSegment(ms: seq<Message>, i: nat, rest: seq<Segment>) returns (j: nat)
    requires i <= |ms| && rest != [] && Parses(rest, ms[i..])
    ensures i < j <= |ms| && rest[0].WellFormed() && ms[i..j] == rest[0].Messages()
    ensures Parses(rest[1..], ms[j..])
  {
    ParsesFirst(rest, ms[i..]);
    SplitHead(ms, i, rest[0].Messages(), Flatten(rest[1..]));
    j := i + |rest[0].Messages()|;
  }

  lemma ParsesFirst(rest: seq<Segment>, ms: seq<Message>)
    requires rest != [] && Parses(rest, ms)
    ensures ms == rest[0].Messages() + Flatten(rest[1..]) && rest[0].Messages() != []
    ensures rest[0].WellFormed() && Parses(rest[1..], Flatten(rest[1..]))
  {
  }

  lemma Spliced(ms: seq<Message>, i: nat, j: nat)
    requires i <= j <= |ms|
    ensures ms[..j] == ms[..i] + ms[i..j]
  {
  }

  lemma SegmentUntouched(ms: seq<Message>, i: nat, j: nat, segment: Segment)
    requires i <= j <= |ms| && segment.WellFormed() && ms[i..j] == segment.Messages()
    requires j < |ms| ==> !ms[j].IsTool()
    ensures KeptMessages(ms, j) == KeptMessages(ms, i) + ms[i..j]
  {
    assert ms[i] == ms[i..j][0];
    assert ms[i..j][1..] == ms[i + 1..j];
    match segment
    case Plain(m) => PlainStep(ms, i);
    case Block(m, rs) =>
      BlockUntouched(ms, i, j);
      assert ms[i..j] == [ms[i]] + ms[i + 1..j];
  }

  lemma SplitHead(ms: seq<Message>, i: nat, head: seq<Message>, tail: seq<Message>)
    requires i <= |ms| && ms[i..] == head + tail && head != []
    ensures i < i + |head| <= |ms| && ms[i..i + |head|] == head && ms[i + |head|..] == tail
  {
    assert ms[i..][..|head|] == head && ms[i..][|head|..] == tail;
  }

  /** The repair is the identity exactly on the valid histories. */
  lemma RepairFixesExactlyValid(ms: seq<Message>)
    ensures Repaired(ms) == ms <==> ValidHistory(ms)
  {
    if ValidHistory(ms) {
      var segments :| Parses(segments, ms);
      assert ms[0..] == ms;
      SuffixUntouched(ms, 0, segments);
    }
    RepairedIsValid(ms);
  }

  lemma RepairIsIdempotent(ms: seq<Message>)
    ensures Repaired(Repaired(ms)) == Repaired(ms)
  {
    RepairedIsValid(ms);
    RepairFixesExactlyValid(Repaired(ms));
  }

  /** The output is a subsequence of the input that has every plain message and, of the
      blocks, exactly the complete ones with the first answer to each id. */
  lemma RepairSelects(ms: seq<Message>) returns (ps: seq<nat>)
    ensures forall j, k :: 0 <= j < k < |ps| ==> ps[j] < ps[k]
    ensures forall p :: p in ps <==> 0 <= p < |ms| && Keeps(ms, p)
    ensures forall p: nat :: p < |ms| && !ms[p].IsTool() && !ms[p].IsCaller() ==> p in ps
    ensures forall k :: 0 <= k < |ps| ==> ps[k] < |ms|
    ensures Repaired(ms) == Select(ms, ps)
  {
    KeptBelowLists(ms, |ms|);
    ps := KeptBelow(ms, |ms|);
  }
}
