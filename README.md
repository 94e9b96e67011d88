# Answer table of the chalk tabling engine, in Dafny

This project models `Table` from `chalk-engine/src/table.rs`, the memoized answer
table of chalk's SLG-style tabling resolution engine. One table holds everything the
solver knows about one goal:

- a `floundered` flag;
- an append-only list of answers, where each answer is a substitution plus an
  ambiguity flag, and its position in the list is its `AnswerIndex`;
- `answersHash`, which maps each substitution to the flag it was first recorded with
  and is used to detect duplicates;
- a first-in-first-out queue of strands, the pending partial derivations.

The goal, substitution and strand types are type parameters. Substitutions are only
compared for equality.

`table.dfy` (module `Table`) holds the data types and `TableState`, the value of a
table's mutable fields. Each mutating operation has a step function on `TableState`
whose contract states what the operation promises. The class `Table` has the Rust
struct's fields, and its methods update them in place. Each method is proved to take
the state to its step function's result and to keep the object invariant `Valid()`:

- the substitutions of the stored answers are pairwise distinct;
- each one is a key of `answersHash`, with that answer's own flag;
- a floundered table holds no answers.

The read-only accessors are functions on the object.

`table_runs.dfy` (module `TableRuns`) reasons about whole series of calls:

- the invariant holds after any run;
- floundering is permanent;
- `answersHash` only grows;
- answers are only appended unless the table flounders;
- strands are served first in, first out;
- taking the strands and pushing them back restores the table;
- a series of `push_answer` calls hands out indices in discovery order and keeps only
  the first answer for each substitution. This is shown against an independent
  reference definition, `FirstOccurrences`.

The two fatal conditions of `push_answer` are preconditions of the method and of its
step function: the `assert!(!self.floundered)` and the ambiguity-regression `panic!`
(an unconditional answer for a substitution already recorded as ambiguous). In a
series of calls, a call that would abort makes the whole run `None`.

Where the source's comments and its code differ, the model follows the code:

- The doc comment on `answers_hash` (table.rs:26-30) says entries are discarded when
  better answers arrive. No code removes or updates an entry, so the model never does,
  and `RunHashOnlyGrows` proves the map only grows.
- `push_strand` (table.rs:59-61) has no floundering guard, so a floundered table can
  still queue strands (`FlounderedTableStillQueuesStrands`). Only `push_answer`'s
  assertion keeps answers out once the table has floundered.

## Model

| member | source | states |
|---|---|---|
| `Table.Answer.IsUnconditional` | chalk-engine/src/table.rs:160-165 | an answer is unconditional exactly when it is not ambiguous |
| `Table.EmptyState` | chalk-engine/src/table.rs:45-57 | the state of a new table satisfies the table invariant |
| `Table.PushStrandStep` | chalk-engine/src/table.rs:59-61 | the queue grows by one, the new strand is at the back, the earlier strands keep their order, and nothing else changes |
| `Table.MapStrandsStep` | chalk-engine/src/table.rs:63-65 | editing strands in place keeps the queue's length and order; each slot holds the edited version of the strand that was there, and nothing else changes |
| `Table.TakeStrandsStep` | chalk-engine/src/table.rs:67-69 | returns exactly the previous queue in order and leaves the queue empty; answers, map and flag are untouched |
| `Table.PopNextStrandIfStep` | chalk-engine/src/table.rs:71-83 | returns a strand exactly when the queue is non-empty and its front passes the test; a returned strand followed by the new queue is the old queue; on None the table is exactly as before |
| `Table.MarkFlounderedStep` | chalk-engine/src/table.rs:85-91 | the table becomes floundered with no answers and no strands, keeps its duplicate map, and satisfies the invariant |
| `Table.PushAnswerStep` | chalk-engine/src/table.rs:98-140 | returns true exactly when the substitution is not yet recorded; then the answer lands at the old answer count, earlier answers are kept, and the substitution is recorded with the answer's flag; otherwise the table is unchanged; the map only grows; the invariant is kept |
| `Table.Table.constructor` | chalk-engine/src/table.rs:45-57 | stores goal and coinductive flag unchanged; not floundered, no answers, empty map, no strands; next answer index is ZERO |
| `Table.Table.PushStrand` | chalk-engine/src/table.rs:59-61 | in-place push_back; new state is `PushStrandStep` of the old one, invariant kept |
| `Table.Table.StrandsMut` | chalk-engine/src/table.rs:63-65 | in-place edit of every queued strand, front to back; new state is `MapStrandsStep` of the old one |
| `Table.Table.TakeStrands` | chalk-engine/src/table.rs:67-69 | replaces the queue with an empty one and returns the old queue, as `TakeStrandsStep` |
| `Table.Table.PopNextStrandIf` | chalk-engine/src/table.rs:71-83 | pop_front, then push_front of the same strand when the test fails; result and new state as `PopNextStrandIfStep` |
| `Table.Table.MarkFloundered` | chalk-engine/src/table.rs:85-91 | sets the flag and clears strands and answers, as `MarkFlounderedStep`, invariant kept |
| `Table.Table.IsFloundered` | chalk-engine/src/table.rs:93-96 | reports the flag; on a valid table a floundered one has no cached answers |
| `Table.Table.PushAnswer` | chalk-engine/src/table.rs:98-140 | requires not floundered and no ambiguity regression; result and new state as `PushAnswerStep`; an added answer is found at the old next answer index |
| `Table.Table.AnswerAt` | chalk-engine/src/table.rs:142-144 | Some exactly when the index is below the answer count, and then it is the stored answer at that index |
| `Table.Table.NumCachedAnswers` | chalk-engine/src/table.rs:146-149 | the number of stored answers |
| `Table.Table.NextAnswerIndex` | chalk-engine/src/table.rs:151-153 | its value equals the cached-answer count; no answer is stored at it and one is stored at every smaller index |
| `TableRuns.Step` | chalk-engine/src/table.rs:59-140 | a call aborts exactly when it is a push_answer that violates its assertions; otherwise it keeps the invariant, keeps a floundered table floundered, only extends the map, and only appends answers unless the table ends up floundered |
| `TableRuns.RunPreservesConsistent` | chalk-engine/src/table.rs:117-139 | over any series of calls, answers keep pairwise-distinct substitutions, each recorded in the map with its own flag |
| `TableRuns.RunKeepsFloundered` | chalk-engine/src/table.rs:87-109 | once floundered, a table stays floundered across any series of calls |
| `TableRuns.RunHashOnlyGrows` | chalk-engine/src/table.rs:117-130 | no entry of the duplicate map is ever removed or changed across any series of calls |
| `TableRuns.RunAnswersAppendOnly` | chalk-engine/src/table.rs:136-138 | unless the table flounders, the answers before a run are a prefix of the answers after it, so issued indices stay valid |
| `TableRuns.FlounderedRejectsAnswers` | chalk-engine/src/table.rs:109 | push_answer on a floundered table always aborts |
| `TableRuns.MarkFlounderedIdempotent` | chalk-engine/src/table.rs:87-91 | marking a table floundered twice gives the same state as marking it once |
| `TableRuns.FlounderingClearsState` | chalk-engine/src/table.rs:85-91 | after floundering: flag set, zero answers, and a pop with an always-true test finds nothing |
| `TableRuns.FlounderedTableStillQueuesStrands` | chalk-engine/src/table.rs:59-61 | push_strand on a floundered table succeeds and queues the strand |
| `TableRuns.AmbiguousAnswersNeverRegress` | chalk-engine/src/table.rs:123-127 | an ambiguous answer pushed into a non-floundered table never triggers the regression abort |
| `TableRuns.PushStrandsAppends` | chalk-engine/src/table.rs:59-61 | pushing a list of strands one by one appends exactly that list at the back |
| `TableRuns.TakeThenPushBackRestores` | chalk-engine/src/table.rs:67-69 | taking all strands and pushing them back in the order received gives back the original table |
| `TableRuns.DrainServesQueueInOrder` | chalk-engine/src/table.rs:71-83 | popping with an always-true test until nothing is returned serves exactly the queue, front first, and leaves it empty |
| `TableRuns.PushedStrandsServedFifo` | chalk-engine/src/table.rs:59-83 | strands pushed into an empty queue are served in push order |
| `TableRuns.PopInspectsOnlyFront` | chalk-engine/src/table.rs:71-83 | with a, b, c queued, a test only c passes returns None and leaves a, b, c; a test a passes returns a and leaves b, c |
| `TableRuns.PushAnswersCountsAdded` | chalk-engine/src/table.rs:98-140 | after a series of push_answer calls the answer count grew by exactly the number of true results, and earlier answers are a prefix |
| `TableRuns.PushAnswersIndexOf` | chalk-engine/src/table.rs:136-153 | the k-th call, when it returns true, stores its answer at the old count plus the number of earlier true results |
| `TableRuns.FirstOccurrences` | chalk-engine/src/table.rs:117-130 | reference deduplication: the kept answers have distinct substitutions, cover every substitution not already seen, and come from the input |
| `TableRuns.FirstIndex` | chalk-engine/src/table.rs:117-130 | the position of the earliest answer carrying a substitution: it carries it, and no earlier answer does |
| `TableRuns.FirstOccurrenceIsEarliest` | chalk-engine/src/table.rs:117-130 | each kept answer is the earliest answer of the input carrying its substitution, so a later duplicate is never the one kept |
| `TableRuns.FirstOccurrencesInOrder` | chalk-engine/src/table.rs:117-138 | kept answers appear in the order in which their substitutions first occur in the input |
| `TableRuns.FirstOccurrencesKeepsEarliestInOrder` | chalk-engine/src/table.rs:117-138 | together for all kept answers: each is its substitution's earliest answer, and input order is kept |
| `TableRuns.PushAnswersKeepsFirstOccurrences` | chalk-engine/src/table.rs:117-139 | a series of push_answer calls appends exactly the first answer for each substitution not already recorded, in push order |
| `TableRuns.NewTableStoresEachSubstitutionOnce` | chalk-engine/src/table.rs:117-139 | from a new table, the stored answers are the first answer for each distinct substitution pushed, and their number is the number of true results |
| `TableRuns.FirstAnswerGetsIndexZero` | chalk-engine/src/table.rs:156-158 | the first answer pushed into a new table is accepted and stored at index ZERO |
| `TableRuns.DuplicateAnswerDropped` | chalk-engine/src/table.rs:117-139 | pushing (s1, unconditional) twice and then (s2, ambiguous) returns true, false, true and stores two answers |
| `TableRuns.AmbiguityRegressionAborts` | chalk-engine/src/table.rs:123-127 | pushing (s1, ambiguous) and then (s1, unconditional) aborts instead of returning false |

## Left out

- chalk-solve/src/display/goals.rs and tests/display/goals.rs are not part of this model. The first is a pretty-printer whose rendering lives in code not shown here; the second holds reparse tests of that printer.
- The logging in `push_answer` (`debug_heading!`, `debug!`, `info!`) is left out because it has no effect on the table.
- `Table.Table.StrandsMut`: Rust hands out a mutable iterator, and the caller's loop edits the strands. Dafny values cannot be aliased, so the caller's edit is modelled as one function applied to each strand, front to back. Edits that depend on the order of visiting, or on state outside the strand, are not captured.
- `AnswerIndex.value` is a Rust `usize`; the model uses an unbounded `nat`. A `Vec` cannot hold enough answers to overflow it.
- The internals of strands, goals and substitutions are left out: canonicalization, unification, and the hashing done by `FxHashMap`. They are type parameters, and the hash map is a Dafny `map`.
- The external registry that keeps one table per goal is left out. It belongs to the search driver, not to `Table`.
- The `Option<&Answer>` returned by `answer` is modelled as a copy of the answer, since answers are immutable values.
