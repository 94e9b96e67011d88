/**
 The memoized answer table of the tabling (SLG-style) resolution engine: everything
 the solver knows about one goal. A table holds a `floundered` flag, an append-only
 list of answers (their positions are the answer indices handed out to consumers),
 a map from substitution to the ambiguity flag it was first recorded with (used for
 duplicate detection) and a FIFO queue of strands still to be explored.

 The goal, substitution and strand types are type parameters: the table only stores
 goals and strands, and only compares substitutions for equality.

 `TableState` is the value of a table; each mutating operation has a step function on
 that value stating what the operation promises, and the class `Table` implements the
 operations in place with methods proved against those step functions.
 */
module Table {

  datatype Option<T> = None | Some(value: T)

  /** An answer: a canonical substitution plus the flag saying whether it is ambiguous. */
  datatype Answer<S> = Answer(subst: S, ambiguous: bool)
  {
    /** An answer is unconditional exactly when it is not ambiguous. */
    function IsUnconditional(): (r: bool)
      ensures r <==> !ambiguous
    {
      !ambiguous
    }
  }

  /** A position in a table's answer list. */
  datatype AnswerIndex = AnswerIndex(value: nat)
  {
    /** The first possible index. */
    static const ZERO: AnswerIndex := AnswerIndex(0)
  }

  /** The value of a table's mutable fields. */
  datatype TableState<S, St> = TableState(
    floundered: bool,
    answers: seq<Answer<S>>,
    answersHash: map<S, bool>,
    strands: seq<St>)

  /** No two stored answers carry the same substitution. */
  ghost predicate DistinctSubsts<S>(answers: seq<Answer<S>>)
  {
    forall i, j :: 0 <= i < j < |answers| ==> answers[i].subst != answers[j].subst
  }

  /** Every stored answer's substitution is a key of the map, recorded with that answer's flag. */
  ghost predicate Recorded<S>(answers: seq<Answer<S>>, answersHash: map<S, bool>)
  {
    forall i :: 0 <= i < |answers| ==>
      answers[i].subst in answersHash && answersHash[answers[i].subst] == answers[i].ambiguous
  }

  /** The invariant every reachable table state satisfies. */
  ghost predicate Consistent<S, St>(t: TableState<S, St>)
  {
    && DistinctSubsts(t.answers)
    && Recorded(t.answers, t.answersHash)
    && (t.floundered ==> t.answers == [])
  }

  /** The state of a freshly created table. */
  ghost function EmptyState<S, St>(): (t: TableState<S, St>)
    ensures Consistent(t)
  {
    TableState(false, [], map[], [])
  }

  /** `m2` keeps every entry of `m1` with the same value. */
  ghost predicate Extends<S>(m1: map<S, bool>, m2: map<S, bool>)
  {
    forall k :: k in m1 ==> k in m2 && m2[k] == m1[k]
  }

  /** push_strand: the strand goes to the back of the queue. */
  ghost function PushStrandStep<S, St>(t: TableState<S, St>, strand: St): (r: TableState<S, St>)
    ensures |r.strands| == |t.strands| + 1
    ensures r.strands[..|t.strands|] == t.strands && r.strands[|t.strands|] == strand
    ensures r == t.(strands := r.strands)
  {
    t.(strands := t.strands + [strand])
  }

  /**
   strands_mut: the caller edits the queued strands in place through a mutable
   iterator; the edit is given here as a function applied to each strand. Length and
   order of the queue are kept.
   */
  ghost function MapStrandsStep<S, St>(t: TableState<S, St>, update: St -> St): (r: TableState<S, St>)
    ensures |r.strands| == |t.strands|
    ensures forall i :: 0 <= i < |t.strands| ==> r.strands[i] == update(t.strands[i])
    ensures r == t.(strands := r.strands)
  {
    t.(strands := seq(|t.strands|, i requires 0 <= i < |t.strands| => update(t.strands[i])))
  }

  /** take_strands: the whole queue is handed out and the table is left with none. */
  ghost function TakeStrandsStep<S, St>(t: TableState<S, St>): (r: (TableState<S, St>, seq<St>))
    ensures r.1 == t.strands && r.0.strands == []
    ensures r.0 == t.(strands := [])
  {
    (t.(strands := []), t.strands)
  }

  /**
   pop_next_strand_if: only the front strand is examined. It is removed and returned
   when it passes the test; otherwise nothing is returned and the queue is as before,
   whatever the strands behind the front would do.
   */
  ghost function PopNextStrandIfStep<S, St>(t: TableState<S, St>, test: St -> bool): (r: (TableState<S, St>, Option<St>))
    ensures r.1.Some? <==> |t.strands| > 0 && test(t.strands[0])
    ensures r.1.Some? ==> [r.1.value] + r.0.strands == t.strands
    ensures r.1.None? ==> r.0 == t
    ensures r.0 == t.(strands := r.0.strands)
  {
    if |t.strands| == 0 then (t, None)
    else
      var strand := t.strands[0];
      var popped := t.(strands := t.strands[1..]);
      if test(strand) then (popped, Some(strand))
      else (popped.(strands := [strand] + popped.strands), None)
  }

  /**
   mark_floundered: the table becomes floundered and loses all answers and strands.
   The duplicate-detection map is left as it was.
   */
  ghost function MarkFlounderedStep<S, St>(t: TableState<S, St>): (r: TableState<S, St>)
    ensures r.floundered && r.answers == [] && r.strands == []
    ensures r.answersHash == t.answersHash
    ensures Consistent(r)
  {
    t.(floundered := true, strands := [], answers := [])
  }

  /**
   What push_answer asserts of its caller: the table is not floundered, and the
   answer does not claim to be unconditional for a substitution already recorded as
   ambiguous.
   */
  ghost predicate CanPushAnswer<S, St>(t: TableState<S, St>, answer: Answer<S>)
  {
    && !t.floundered
    && !(answer.subst in t.answersHash && t.answersHash[answer.subst] && answer.IsUnconditional())
  }

  /**
   push_answer: a substitution not yet recorded is recorded with the answer's flag and
   the answer is appended at the old answer count, and the result is true. A recorded
   substitution leaves the table exactly as it was (the map is never upgraded) and the
   result is false. True therefore means "newly added", never "replaced".
   */
  ghost function PushAnswerStep<S, St>(t: TableState<S, St>, answer: Answer<S>): (r: (TableState<S, St>, bool))
    requires CanPushAnswer(t, answer)
    ensures r.1 <==> answer.subst !in t.answersHash
    ensures r.1 ==> |r.0.answers| == |t.answers| + 1 && r.0.answers[|t.answers|] == answer
    ensures r.1 ==> r.0.answers[..|t.answers|] == t.answers
    ensures r.1 ==> r.0.answersHash.Keys == t.answersHash.Keys + {answer.subst}
    ensures r.1 ==> r.0.answersHash[answer.subst] == answer.ambiguous
    ensures Extends(t.answersHash, r.0.answersHash)
    ensures !r.1 ==> r.0 == t
    ensures r.0.floundered == t.floundered && r.0.strands == t.strands
    ensures Consistent(t) ==> Consistent(r.0)
  {
    if answer.subst in t.answersHash then (t, false)
    else
      (t.(answersHash := t.answersHash[answer.subst := answer.ambiguous],
          answers := t.answers + [answer]), true)
  }

  /** One table: the memo entry for the goal `tableGoal`. */
  class Table<G, S(==), St> {
    const tableGoal: G
    const coinductiveGoal: bool
    var floundered: bool
    var answers: seq<Answer<S>>
    var answersHash: map<S, bool>
    var strands: seq<St>

    ghost function State(): TableState<S, St>
      reads this
    {
      TableState(floundered, answers, answersHash, strands)
    }

    ghost predicate Valid()
      reads this
    {
      Consistent(State())
    }

    /** new: a non-floundered table with no answers, no recorded substitutions and no strands. */
    constructor (goal: G, coinductive: bool)
      ensures tableGoal == goal && coinductiveGoal == coinductive
      ensures !floundered && answers == [] && answersHash == map[] && strands == []
      ensures State() == EmptyState() && Valid()
      ensures NextAnswerIndex() == AnswerIndex.ZERO
    {
      tableGoal := goal;
      coinductiveGoal := coinductive;
      answers := [];
      floundered := false;
      answersHash := map[];
      strands := [];
    }

    method PushStrand(strand: St)
      requires Valid()
      modifies this
      ensures Valid()
      ensures State() == PushStrandStep(old(State()), strand)
    {
      strands := strands + [strand];
    }

    method StrandsMut(update: St -> St)
      requires Valid()
      modifies this
      ensures Valid()
      ensures State() == MapStrandsStep(old(State()), update)
    {
      var i := 0;
      while i < |strands|
        invariant 0 <= i <= |strands| == |old(strands)|
        invariant forall k :: 0 <= k < i ==> strands[k] == update(old(strands)[k])
        invariant strands[i..] == old(strands)[i..]
        invariant floundered == old(floundered) && answers == old(answers)
        invariant answersHash == old(answersHash)
      {
        strands := strands[i := update(strands[i])];
        i := i + 1;
      }
    }

    method TakeStrands() returns (taken: seq<St>)
      requires Valid()
      modifies this
      ensures Valid()
      ensures (State(), taken) == TakeStrandsStep(old(State()))
    {
      taken := strands;
      strands := [];
    }

    method PopNextStrandIf(test: St -> bool) returns (r: Option<St>)
      requires Valid()
      modifies this
      ensures Valid()
      ensures (State(), r) == PopNextStrandIfStep(old(State()), test)
    {
      if |strands| > 0 {
        var strand := strands[0];
        strands := strands[1..];
        if test(strand) {
          return Some(strand);
        }
        strands := [strand] + strands;
      }
      return None;
    }

    method MarkFloundered()
      requires Valid()
      modifies this
      ensures Valid()
      ensures State() == MarkFlounderedStep(old(State()))
    {
      floundered := true;
      strands := [];
      answers := [];
    }

    /** is_floundered; a floundered table holds no answers. */
    function IsFloundered(): (r: bool)
      reads this
      ensures r <==> floundered
      ensures Valid() && r ==> NumCachedAnswers() == 0
    {
      floundered
    }

    method PushAnswer(answer: Answer<S>) returns (added: bool)
      requires Valid()
      requires CanPushAnswer(State(), answer)
      modifies this
      ensures Valid()
      ensures (State(), added) == PushAnswerStep(old(State()), answer)
      ensures added ==> AnswerAt(old(NextAnswerIndex())) == Some(answer)
    {
      if answer.subst in answersHash {
        var wasAmbiguous := answersHash[answer.subst];
        if wasAmbiguous && !answer.ambiguous {
          assert false;
        }
        added := false;
      } else {
        answersHash := answersHash[answer.subst := answer.ambiguous];
        added := true;
      }
      if added {
        answers := answers + [answer];
      }
    }

    /** answer: the stored answer at `index`, or None when no answer has that index yet. */
    function AnswerAt(index: AnswerIndex): (r: Option<Answer<S>>)
      reads this
      ensures r.Some? <==> index.value < |answers|
      ensures r.Some? ==> r.value == answers[index.value]
    {
      if index.value < |answers| then Some(answers[index.value]) else None
    }

    /** num_cached_answers: the number of stored answers. */
    function NumCachedAnswers(): (n: nat)
      reads this
      ensures n == |answers|
    {
      |answers|
    }

    /**
     next_answer_index: the index the next added answer will receive, which is the
     first index at which no answer is stored.
     */
    function NextAnswerIndex(): (r: AnswerIndex)
      reads this
      ensures r.value == NumCachedAnswers()
      ensures AnswerAt(r).None?
      ensures forall i :: 0 <= i < r.value ==> AnswerAt(AnswerIndex(i)).Some?
    {
      AnswerIndex(|answers|)
    }
  }
}
