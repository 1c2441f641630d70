/**
 * The search box of the task list screen (src/screens/Ler/Read.tsx): the
 * shown tasks are those whose lower-cased title contains the lower-cased
 * query.
 */
module TaskSearch {
  import opened SeqFilter
  import opened TarefaRepository

  /** `toLowerCase` on one character, ASCII only: A-Z become a-z, all else is kept. */
  function LowerChar(c: char): char
  {
    if 'A' <= c <= 'Z' then (c as int + 32) as char else c
  }

  function ToLower(s: string): (r: string)
    ensures |r| == |s|
    ensures forall i :: 0 <= i < |s| ==> r[i] == LowerChar(s[i])
    ensures forall i :: 0 <= i < |r| ==> !('A' <= r[i] <= 'Z')
  {
    if s == [] then [] else [LowerChar(s[0])] + ToLower(s[1..])
  }

  /** `s.includes(q)`: `q` starts at some position of `s` (the empty string everywhere). */
  predicate Includes(s: string, q: string)
    ensures Includes(s, q) ==> |q| <= |s|
  {
    q <= s || (s != [] && Includes(s[1..], q))
  }

  /** `q` occurs in `s` starting at index `i`. */
  predicate OccursAt(s: string, q: string, i: int)
  {
    0 <= i && i + |q| <= |s| && s[i..i + |q|] == q
  }

  /** Dropping the first character moves every occurrence one index left. */
  lemma OccursShift(s: string, q: string, i: int)
    requires s != [] && 0 <= i
    ensures OccursAt(s[1..], q, i) <==> OccursAt(s, q, i + 1)
  {
    if i + |q| <= |s| - 1 {
      assert s[1..][i..i + |q|] == s[i + 1..i + 1 + |q|];
    }
  }

  /** An occurrence at any index makes `includes` hold. */
  lemma {:induction false} OccursImpliesIncludes(s: string, q: string, i: int)
    requires OccursAt(s, q, i)
    ensures Includes(s, q)
    decreases i
  {
    if i == 0 {
      assert q <= s;
    } else {
      OccursShift(s, q, i - 1);
      OccursImpliesIncludes(s[1..], q, i - 1);
    }
  }

  /** When `includes` holds, the query occurs at some index. */
  lemma {:induction false} IncludesImpliesOccurs(s: string, q: string)
    requires Includes(s, q)
    ensures exists i :: OccursAt(s, q, i)
    decreases |s|
  {
    if q <= s {
      assert OccursAt(s, q, 0);
    } else {
      IncludesImpliesOccurs(s[1..], q);
      var i :| OccursAt(s[1..], q, i);
      OccursShift(s, q, i);
    }
  }

  /** Includes agrees with the index-based reading: `q` occurs at some index of `s`. */
  lemma IncludesIffOccurs(s: string, q: string)
    ensures Includes(s, q) <==> exists i :: OccursAt(s, q, i)
  {
    if Includes(s, q) {
      IncludesImpliesOccurs(s, q);
    }
    if exists i :: OccursAt(s, q, i) {
      var i :| OccursAt(s, q, i);
      OccursImpliesIncludes(s, q, i);
    }
  }

  /** The test the `filter` callback applies to one task. */
  function Matches(query: string): Tarefa -> bool
  {
    (task: Tarefa) => Includes(ToLower(task.titulo), ToLower(query))
  }

  /** A task passes the callback exactly when the lowered query occurs at some index of its lowered title. */
  lemma MatchesIffOccurs(query: string, task: Tarefa)
    ensures Matches(query)(task) <==> exists i :: OccursAt(ToLower(task.titulo), ToLower(query), i)
  {
    assert Matches(query)(task) == Includes(ToLower(task.titulo), ToLower(query));
    IncludesIffOccurs(ToLower(task.titulo), ToLower(query));
  }

  /** `filteredTasks`: the tasks whose title matches the query, no false positives and no false negatives, every copy of a matching task kept. */
  function FilteredTasks(tasks: seq<Tarefa>, query: string): (r: seq<Tarefa>)
    ensures |r| <= |tasks|
    ensures forall i :: 0 <= i < |r| ==> r[i] in tasks && Includes(ToLower(r[i].titulo), ToLower(query))
    ensures forall i :: 0 <= i < |tasks| && Includes(ToLower(tasks[i].titulo), ToLower(query)) ==> tasks[i] in r
    ensures forall x :: multiset(r)[x] == if Includes(ToLower(x.titulo), ToLower(query)) then multiset(tasks)[x] else 0
  {
    var r := Filter(tasks, Matches(query));
    assert forall i :: 0 <= i < |r| ==> Matches(query)(r[i]);
    assert forall i :: 0 <= i < |tasks| && Includes(ToLower(tasks[i].titulo), ToLower(query)) ==> Matches(query)(tasks[i]);
    r
  }

  /** The shown tasks keep their relative order. */
  lemma FilteredIsSubsequence(tasks: seq<Tarefa>, query: string)
    ensures IsSubsequence(FilteredTasks(tasks, query), tasks)
  {
    FilterIsSubsequence(tasks, Matches(query));
  }

  /**
   * An empty query keeps every task, so recomputing the filter right after
   * the fetch agrees with setting `filteredTasks` to the fetched list.
   */
  lemma EmptyQueryKeepsAll(tasks: seq<Tarefa>)
    ensures FilteredTasks(tasks, "") == tasks
  {
    forall i | 0 <= i < |tasks| ensures Matches("")(tasks[i]) {
      assert ToLower("") == "";
      assert "" <= ToLower(tasks[i].titulo);
    }
    FilterKeepsAll(tasks, Matches(""));
  }

  /** Lower-casing twice is lower-casing once. */
  lemma {:induction false} ToLowerIdempotent(s: string)
    ensures ToLower(ToLower(s)) == ToLower(s)
  {
    var l := ToLower(s);
    var ll := ToLower(l);
    forall i | 0 <= i < |s| ensures ll[i] == l[i] {
      assert !('A' <= l[i] <= 'Z');
    }
  }

  /** Case does not matter: a query and its lower-cased form select the same tasks. */
  lemma QueryCaseIrrelevant(tasks: seq<Tarefa>, query: string)
    ensures FilteredTasks(tasks, ToLower(query)) == FilteredTasks(tasks, query)
  {
    ToLowerIdempotent(query);
    assert Matches(ToLower(query)) == Matches(query);
  }
}
