/**
 Properties of sequences of calls on one table: the invariants every operation keeps,
 the first-in-first-out discipline of the strand queue, and how a series of
 push_answer calls assigns indices and drops duplicates.
 */
module TableRuns {
  import opened Table

  /** One call the search driver can make on a table. */
  datatype Op<S, !St> =
    | PushStrand(strand: St)
    | StrandsMut(update: St -> St)
    | TakeStrands
    | PopNextStrandIf(test: St -> bool)
    | MarkFloundered
    | PushAnswer(answer: Answer<S>)

  /**
   The table after one call, or None when the call aborts: push_answer on a
   floundered table, or an ambiguity regression.
   */
  ghost function Step<S, St>(t: TableState<S, St>, op: Op<S, St>): (r: Option<TableState<S, St>>)
    ensures r.None? <==> op.PushAnswer? && !CanPushAnswer(t, op.answer)
    ensures r.Some? && Consistent(t) ==> Consistent(r.value)
    ensures r.Some? && t.floundered ==> r.value.floundered
    ensures r.Some? ==> Extends(t.answersHash, r.value.answersHash)
    ensures r.Some? && !r.value.floundered ==> t.answers <= r.value.answers
  {
    match op
    case PushStrand(strand) => Some(PushStrandStep(t, strand))
    case StrandsMut(update) => Some(MapStrandsStep(t, update))
    case TakeStrands => Some(TakeStrandsStep(t).0)
    case PopNextStrandIf(test) => Some(PopNextStrandIfStep(t, test).0)
    case MarkFloundered => Some(MarkFlounderedStep(t))
    case PushAnswer(answer) =>
      if CanPushAnswer(t, answer) then Some(PushAnswerStep(t, answer).0) else None
  }

  /** The table after a series of calls, or None when one of them aborts. */
  ghost function Run<S, St>(t: TableState<S, St>, ops: seq<Op<S, St>>): Option<TableState<S, St>>
    decreases |ops|
  {
    if ops == [] then Some(t)
    else
      match Step(t, ops[0])
      case None => None
      case Some(t1) => Run(t1, ops[1..])
  }

  /** Answers keep pairwise-distinct substitutions, each recorded in the map, across any run. */
  lemma {:induction false} RunPreservesConsistent<S, St>(t: TableState<S, St>, ops: seq<Op<S, St>>, t': TableState<S, St>)
    requires Consistent(t)
    requires Run(t, ops) == Some(t')
    ensures Consistent(t')
    decreases |ops|
  {
    if ops != [] {
      RunPreservesConsistent(Step(t, ops[0]).value, ops[1..], t');
    }
  }

  /** Once floundered, a table stays floundered. */
  lemma {:induction false} RunKeepsFloundered<S, St>(t: TableState<S, St>, ops: seq<Op<S, St>>, t': TableState<S, St>)
    requires t.floundered
    requires Run(t, ops) == Some(t')
    ensures t'.floundered
    decreases |ops|
  {
    if ops != [] {
      RunKeepsFloundered(Step(t, ops[0]).value, ops[1..], t');
    }
  }

  /** The duplicate-detection map only grows: no entry is removed or changed. */
  lemma {:induction false} RunHashOnlyGrows<S, St>(t: TableState<S, St>, ops: seq<Op<S, St>>, t': TableState<S, St>)
    requires Run(t, ops) == Some(t')
    ensures Extends(t.answersHash, t'.answersHash)
    decreases |ops|
  {
    if ops != [] {
      var t1 := Step(t, ops[0]).value;
      RunHashOnlyGrows(t1, ops[1..], t');
    }
  }

  /**
   Answers are only ever appended unless the table flounders: every answer index
   handed out before the run still denotes the same answer after it.
   */
  lemma {:induction false} RunAnswersAppendOnly<S, St>(t: TableState<S, St>, ops: seq<Op<S, St>>, t': TableState<S, St>)
    requires Run(t, ops) == Some(t')
    ensures !t'.floundered ==> t.answers <= t'.answers
    decreases |ops|
  {
    if ops != [] {
      var t1 := Step(t, ops[0]).value;
      RunAnswersAppendOnly(t1, ops[1..], t');
      if t1.floundered {
        RunKeepsFloundered(t1, ops[1..], t');
      }
    }
  }

  /** A floundered table aborts on every push_answer: answers can never be added again. */
  lemma FlounderedRejectsAnswers<S, St>(t: TableState<S, St>, answer: Answer<S>)
    requires t.floundered
    ensures Step(t, PushAnswer(answer)).None?
  {
  }

  /** Marking a floundered table floundered again changes nothing. */
  lemma MarkFlounderedIdempotent<S, St>(t: TableState<S, St>)
    ensures MarkFlounderedStep(MarkFlounderedStep(t)) == MarkFlounderedStep(t)
  {
  }

  /**
   After floundering there are no answers, popping with a test every strand passes
   finds nothing, and the table reports itself floundered.
   */
  lemma FlounderingClearsState<S, St>(t: TableState<S, St>)
    ensures var f := MarkFlounderedStep(t);
      && f.floundered
      && |f.answers| == 0
      && PopNextStrandIfStep(f, (s: St) => true).1.None?
  {
  }

  /**
   push_strand has no floundering guard, so a floundered table still queues strands;
   only answers stay empty after floundering.
   */
  lemma FlounderedTableStillQueuesStrands<S, St>(t: TableState<S, St>, strand: St)
    requires t.floundered
    ensures Step(t, PushStrand(strand)) == Some(t.(strands := t.strands + [strand]))
  {
  }

  /** An ambiguous answer never triggers the ambiguity-regression abort. */
  lemma AmbiguousAnswersNeverRegress<S, St>(t: TableState<S, St>, answer: Answer<S>)
    requires !t.floundered && !answer.IsUnconditional()
    ensures CanPushAnswer(t, answer)
  {
  }

  // ---------------------------------------------------------------------------
  // The strand queue

  /** push_strand called with each strand of `ss` in turn. */
  ghost function PushStrands<S, St>(t: TableState<S, St>, ss: seq<St>): TableState<S, St>
    decreases |ss|
  {
    if ss == [] then t else PushStrands(PushStrandStep(t, ss[0]), ss[1..])
  }

  lemma {:induction false} PushStrandsAppends<S, St>(t: TableState<S, St>, ss: seq<St>)
    ensures PushStrands(t, ss) == t.(strands := t.strands + ss)
    decreases |ss|
  {
    if ss != [] {
      var t1 := PushStrandStep(t, ss[0]);
      PushStrandsAppends(t1, ss[1..]);
      assert t1.strands + ss[1..] == t.strands + ss;
    }
  }

  /** Taking all strands and pushing them back in the order received restores the table. */
  lemma TakeThenPushBackRestores<S, St>(t: TableState<S, St>)
    ensures var (rest, taken) := TakeStrandsStep(t); PushStrands(rest, taken) == t
  {
    PushStrandsAppends(TakeStrandsStep(t).0, t.strands);
  }

  /** Pop with a test every strand passes, until the queue is empty; the strands in the order served. */
  ghost function Drain<S, St>(t: TableState<S, St>): (TableState<S, St>, seq<St>)
    decreases |t.strands|
  {
    var p := PopNextStrandIfStep(t, (s: St) => true);
    if p.1.None? then (t, [])
    else
      var d := Drain(p.0);
      (d.0, [p.1.value] + d.1)
  }

  /** Draining serves exactly the queued strands, front first, and leaves the queue empty. */
  lemma {:induction false} DrainServesQueueInOrder<S, St>(t: TableState<S, St>)
    ensures Drain(t).1 == t.strands
    ensures Drain(t).0 == t.(strands := [])
    decreases |t.strands|
  {
    var p := PopNextStrandIfStep(t, (s: St) => true);
    if p.1.Some? {
      DrainServesQueueInOrder(p.0);
    }
  }

  /** Strands pushed into an empty queue are served in the order they were pushed. */
  lemma PushedStrandsServedFifo<S, St>(t: TableState<S, St>, ss: seq<St>)
    requires t.strands == []
    ensures Drain(PushStrands(t, ss)).1 == ss
  {
    PushStrandsAppends(t, ss);
    DrainServesQueueInOrder(PushStrands(t, ss));
  }

  /**
   With strands a, b, c pushed in that order, a test that only c passes finds nothing
   and leaves the queue as it was, because only the front strand a is examined; a test
   that a passes then returns a and leaves b, c.
   */
  lemma PopInspectsOnlyFront<S, St>(t: TableState<S, St>, a: St, b: St, c: St)
    requires t.strands == [] && a != c
    ensures var q := PushStrands(t, [a, b, c]);
      && PopNextStrandIfStep(q, (s: St) => s == c) == (q, None)
      && PopNextStrandIfStep(q, (s: St) => s == a) == (t.(strands := [b, c]), Some(a))
  {
    PushStrandsAppends(t, [a, b, c]);
    var q := PushStrands(t, [a, b, c]);
    assert q == t.(strands := [a, b, c]);
    assert q.strands[1..] == [b, c];
  }

  // ---------------------------------------------------------------------------
  // A series of push_answer calls

  /**
   push_answer called with each answer of `answers` in turn: the final table and the
   result of each call, or None when a call aborts.
   */
  ghost function PushAnswers<S, St>(t: TableState<S, St>, answers: seq<Answer<S>>): Option<(TableState<S, St>, seq<bool>)>
    decreases |answers|
  {
    if answers == [] then Some((t, []))
    else if !CanPushAnswer(t, answers[0]) then None
    else
      var p := PushAnswerStep(t, answers[0]);
      match PushAnswers(p.0, answers[1..])
      case None => None
      case Some(rest) => Some((rest.0, [p.1] + rest.1))
  }

  /** The number of calls that returned true. */
  function CountTrue(rs: seq<bool>): nat
  {
    if rs == [] then 0 else (if rs[0] then 1 else 0) + CountTrue(rs[1..])
  }

  lemma {:induction false} CountTruePrefix(rs: seq<bool>, k: nat)
    requires 0 < k <= |rs|
    ensures CountTrue(rs[..k]) == (if rs[0] then 1 else 0) + CountTrue(rs[1..][..k - 1])
  {
    assert rs[..k][1..] == rs[1..][..k - 1];
  }

  /**
   The answer count grows by exactly the number of calls that returned true, and the
   answers stored before the calls keep their indices.
   */
  lemma {:induction false} PushAnswersCountsAdded<S, St>(
    t: TableState<S, St>, answers: seq<Answer<S>>, t': TableState<S, St>, rs: seq<bool>)
    requires PushAnswers(t, answers) == Some((t', rs))
    ensures |rs| == |answers|
    ensures |t'.answers| == |t.answers| + CountTrue(rs)
    ensures t.answers <= t'.answers
    decreases |answers|
  {
    if answers != [] {
      var p := PushAnswerStep(t, answers[0]);
      var rest := PushAnswers(p.0, answers[1..]).value;
      PushAnswersCountsAdded(p.0, answers[1..], t', rest.1);
      assert rs == [p.1] + rest.1;
      assert rs[1..] == rest.1;
    }
  }

  /**
   Indices are handed out in discovery order: when the k-th call returns true, its
   answer is stored at the old answer count plus the number of earlier calls that
   returned true.
   */
  lemma {:induction false} PushAnswersIndexOf<S, St>(
    t: TableState<S, St>, answers: seq<Answer<S>>, t': TableState<S, St>, rs: seq<bool>, k: nat)
    requires PushAnswers(t, answers) == Some((t', rs))
    requires k < |rs| && rs[k]
    ensures k < |answers|
    ensures |t.answers| + CountTrue(rs[..k]) < |t'.answers|
    ensures t'.answers[|t.answers| + CountTrue(rs[..k])] == answers[k]
    decreases |answers|
  {
    PushAnswersCountsAdded(t, answers, t', rs);
    var p := PushAnswerStep(t, answers[0]);
    var rest := PushAnswers(p.0, answers[1..]).value;
    assert rs == [p.1] + rest.1;
    PushAnswersCountsAdded(p.0, answers[1..], t', rest.1);
    if k == 0 {
      assert rs[..0] == [];
      assert p.0.answers[|t.answers|] == answers[0];
    } else {
      assert rs[1..] == rest.1;
      PushAnswersIndexOf(p.0, answers[1..], t', rest.1, k - 1);
      CountTruePrefix(rs, k);
      assert |p.0.answers| == |t.answers| + (if rs[0] then 1 else 0);
    }
  }

  /** The substitutions carried by a list of answers. */
  ghost function Substs<S>(answers: seq<Answer<S>>): set<S>
  {
    set a | a in answers :: a.subst
  }

  /**
   Reference definition of deduplication: the answers of `answers` whose substitution
   is not in `seen` and not carried by an earlier answer, in their original order.
   */
  ghost function FirstOccurrences<S>(seen: set<S>, answers: seq<Answer<S>>): (r: seq<Answer<S>>)
    ensures DistinctSubsts(r)
    ensures Substs(r) == Substs(answers) - seen
    ensures forall a :: a in r ==> a in answers
    decreases |answers|
  {
    if answers == [] then []
    else
      var a := answers[0];
      var rest := answers[1..];
      assert answers == [a] + rest;
      assert Substs(answers) == {a.subst} + Substs(rest);
      if a.subst in seen then FirstOccurrences(seen, rest)
      else
        var tail := FirstOccurrences(seen + {a.subst}, rest);
        assert Substs([a] + tail) == {a.subst} + Substs(tail);
        [a] + tail
  }

  /** The position of the earliest answer in `answers` that carries substitution `s`. */
  ghost function FirstIndex<S>(answers: seq<Answer<S>>, s: S): (j: nat)
    requires s in Substs(answers)
    ensures j < |answers| && answers[j].subst == s
    ensures forall i :: 0 <= i < j ==> answers[i].subst != s
    decreases |answers|
  {
    if answers[0].subst == s then 0
    else
      assert s in Substs(answers[1..]) by {
        var a :| a in answers && a.subst == s;
        assert answers == [answers[0]] + answers[1..];
        assert a in answers[1..];
      }
      1 + FirstIndex(answers[1..], s)
  }

  /** Behind a first answer with another substitution, the earliest index moves back by one. */
  lemma FirstIndexCons<S>(answers: seq<Answer<S>>, s: S)
    requires |answers| > 0 && answers[0].subst != s && s in Substs(answers[1..])
    ensures s in Substs(answers)
    ensures FirstIndex(answers, s) == 1 + FirstIndex(answers[1..], s)
    ensures answers[FirstIndex(answers, s)] == answers[1..][FirstIndex(answers[1..], s)]
  {
    var a :| a in answers[1..] && a.subst == s;
    assert a in answers;
    var j, j' := FirstIndex(answers, s), FirstIndex(answers[1..], s);
    assert answers[1 + j'].subst == s;
    assert j > 0 && answers[1..][j - 1].subst == s;
  }

  /** The k-th kept answer is the earliest answer of `answers` carrying its substitution. */
  lemma {:induction false} FirstOccurrenceIsEarliest<S>(seen: set<S>, answers: seq<Answer<S>>, k: nat)
    requires k < |FirstOccurrences(seen, answers)|
    ensures var r := FirstOccurrences(seen, answers);
      r[k].subst in Substs(answers) && r[k] == answers[FirstIndex(answers, r[k].subst)]
    decreases |answers|
  {
    var r := FirstOccurrences(seen, answers);
    var a, rest := answers[0], answers[1..];
    var seen' := if a.subst in seen then seen else seen + {a.subst};
    var tail := FirstOccurrences(seen', rest);
    if a.subst !in seen && k == 0 {
      assert r[0] == a;
      assert a in answers;
      assert FirstIndex(answers, a.subst) == 0;
    } else {
      var k' := if a.subst in seen then k else k - 1;
      assert r[k] == tail[k'];
      FirstOccurrenceIsEarliest(seen', rest, k');
      assert tail[k'] in tail;
      assert tail[k'].subst in Substs(tail);
      FirstIndexCons(answers, tail[k'].subst);
    }
  }

  /** Kept answers appear in the order of their substitutions' earliest positions in `answers`. */
  lemma {:induction false} FirstOccurrencesInOrder<S>(seen: set<S>, answers: seq<Answer<S>>, k1: nat, k2: nat)
    requires k1 < k2 < |FirstOccurrences(seen, answers)|
    ensures var r := FirstOccurrences(seen, answers);
      && r[k1].subst in Substs(answers) && r[k2].subst in Substs(answers)
      && FirstIndex(answers, r[k1].subst) < FirstIndex(answers, r[k2].subst)
    decreases |answers|
  {
    var r := FirstOccurrences(seen, answers);
    var a, rest := answers[0], answers[1..];
    var seen' := if a.subst in seen then seen else seen + {a.subst};
    var tail := FirstOccurrences(seen', rest);
    var k2' := if a.subst in seen then k2 else k2 - 1;
    assert r[k2] == tail[k2'];
    assert tail[k2'] in tail;
    assert tail[k2'].subst in Substs(tail);
    FirstIndexCons(answers, tail[k2'].subst);
    if a.subst !in seen && k1 == 0 {
      assert r[0] == a;
      assert a in answers;
      assert FirstIndex(answers, a.subst) == 0;
    } else {
      var k1' := if a.subst in seen then k1 else k1 - 1;
      assert r[k1] == tail[k1'];
      FirstOccurrencesInOrder(seen', rest, k1', k2');
      assert tail[k1'] in tail;
      assert tail[k1'].subst in Substs(tail);
      FirstIndexCons(answers, tail[k1'].subst);
    }
  }

  /**
   `FirstOccurrences` keeps, for each substitution it keeps, the earliest answer of
   `answers` carrying it, and keeps those answers in input order.
   */
  lemma FirstOccurrencesKeepsEarliestInOrder<S>(seen: set<S>, answers: seq<Answer<S>>)
    ensures var r := FirstOccurrences(seen, answers);
      forall k :: 0 <= k < |r| ==>
        r[k].subst in Substs(answers) && r[k] == answers[FirstIndex(answers, r[k].subst)]
    ensures var r := FirstOccurrences(seen, answers);
      forall k1, k2 :: 0 <= k1 < k2 < |r| ==>
        r[k1].subst in Substs(answers) && r[k2].subst in Substs(answers) &&
        FirstIndex(answers, r[k1].subst) < FirstIndex(answers, r[k2].subst)
  {
    var r := FirstOccurrences(seen, answers);
    forall k | 0 <= k < |r|
      ensures r[k].subst in Substs(answers) && r[k] == answers[FirstIndex(answers, r[k].subst)]
    {
      FirstOccurrenceIsEarliest(seen, answers, k);
    }
    forall k1, k2 | 0 <= k1 < k2 < |r|
      ensures r[k1].subst in Substs(answers) && r[k2].subst in Substs(answers)
      ensures FirstIndex(answers, r[k1].subst) < FirstIndex(answers, r[k2].subst)
    {
      FirstOccurrencesInOrder(seen, answers, k1, k2);
    }
  }

  /**
   Of several answers with the same substitution only the first is kept: a series of
   pushes appends exactly the first occurrences of the substitutions not yet recorded.
   */
  lemma {:induction false} PushAnswersKeepsFirstOccurrences<S, St>(
    t: TableState<S, St>, answers: seq<Answer<S>>, t': TableState<S, St>, rs: seq<bool>)
    requires PushAnswers(t, answers) == Some((t', rs))
    ensures t'.answers == t.answers + FirstOccurrences(t.answersHash.Keys, answers)
    decreases |answers|
  {
    if answers != [] {
      var p := PushAnswerStep(t, answers[0]);
      var rest := PushAnswers(p.0, answers[1..]).value;
      PushAnswersKeepsFirstOccurrences(p.0, answers[1..], t', rest.1);
      if p.1 {
        assert p.0.answers == t.answers + [answers[0]];
      }
    }
  }

  /**
   Starting from a new table, the stored answers are the first answer for each distinct
   substitution pushed, in push order, and their number is the number of true results.
   */
  lemma NewTableStoresEachSubstitutionOnce<S, St>(answers: seq<Answer<S>>, t': TableState<S, St>, rs: seq<bool>)
    requires PushAnswers(EmptyState<S, St>(), answers) == Some((t', rs))
    ensures t'.answers == FirstOccurrences({}, answers)
    ensures Substs(t'.answers) == Substs(answers)
    ensures |t'.answers| == CountTrue(rs)
  {
    PushAnswersKeepsFirstOccurrences(EmptyState<S, St>(), answers, t', rs);
    PushAnswersCountsAdded(EmptyState<S, St>(), answers, t', rs);
    assert EmptyState<S, St>().answersHash.Keys == {};
  }

  /** The first answer pushed into a new table is stored at index ZERO. */
  lemma FirstAnswerGetsIndexZero<S, St>(answer: Answer<S>)
    ensures PushAnswers(EmptyState<S, St>(), [answer]).Some?
    ensures var (t', rs) := PushAnswers(EmptyState<S, St>(), [answer]).value;
      rs == [true] && |t'.answers| == 1 && t'.answers[AnswerIndex.ZERO.value] == answer
  {
  }

  /** One push_answer followed by the rest of a series. */
  lemma PushAnswersCons<S, St>(
    t: TableState<S, St>, answer: Answer<S>, rest: seq<Answer<S>>, t': TableState<S, St>, rs: seq<bool>)
    requires CanPushAnswer(t, answer)
    requires PushAnswers(PushAnswerStep(t, answer).0, rest) == Some((t', rs))
    ensures PushAnswers(t, [answer] + rest) == Some((t', [PushAnswerStep(t, answer).1] + rs))
  {
    assert ([answer] + rest)[1..] == rest;
  }

  /**
   A duplicate unconditional answer is dropped and a new substitution gets the next
   index: pushing (s1, unconditional), (s1, unconditional), (s2, ambiguous) returns
   true, false, true and stores two answers.
   */
  lemma DuplicateAnswerDropped<S, St>(s1: S, s2: S)
    requires s1 != s2
    ensures var a1, a2 := Answer(s1, false), Answer(s2, true);
      PushAnswers(EmptyState<S, St>(), [a1, a1, a2])
        == Some((TableState(false, [a1, a2], map[s1 := false, s2 := true], []), [true, false, true]))
  {
    var a1, a2 := Answer(s1, false), Answer(s2, true);
    var t0 := EmptyState<S, St>();
    var t1 := TableState(false, [a1], map[s1 := false], []);
    var t2 := TableState(false, [a1, a2], map[s1 := false, s2 := true], []);
    assert [a1] + [a2] == [a1, a2];
    assert PushAnswerStep(t1, a2) == (t2, true);
    PushAnswersCons(t1, a2, [], t2, []);
    assert [a2] + [] == [a2] && [true] + [] == [true];
    assert PushAnswerStep(t1, a1) == (t1, false);
    PushAnswersCons(t1, a1, [a2], t2, [true]);
    assert [false] + [true] == [false, true];
    assert PushAnswerStep(t0, a1) == (t1, true);
    PushAnswersCons(t0, a1, [a1, a2], t2, [false, true]);
    assert [a1] + [a1, a2] == [a1, a1, a2];
    assert [true] + [false, true] == [true, false, true];
  }

  /** Pushing (s1, ambiguous) and then (s1, unconditional) aborts: an ambiguity regression. */
  lemma AmbiguityRegressionAborts<S, St>(s1: S)
    ensures PushAnswers(EmptyState<S, St>(), [Answer(s1, true), Answer(s1, false)]).None?
  {
  }
}
