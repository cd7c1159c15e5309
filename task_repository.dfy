/** The `findByProject` query of the task repository: a conjunction of a
    project test and four optional filters, each ignored when its parameter is
    null. A comparison with a null column is UNKNOWN in SQL and a row is kept
    only when the whole condition is TRUE; since the condition has no negation,
    treating UNKNOWN as false keeps exactly the same rows. */
module TaskRepository {
  import opened Wrappers
  import opened JavaText
  import opened Entities

  /** SQL `LIKE` without an escape character: `%` matches any run of
      characters, `_` exactly one, anything else itself. */
  function Like(s: string, pattern: string): bool
    decreases |s| + |pattern|
  {
    if pattern == [] then s == []
    else if pattern[0] == '%' then Like(s, pattern[1..]) || (s != [] && Like(s[1..], pattern))
    else if pattern[0] == '_' then s != [] && Like(s[1..], pattern[1..])
    else s != [] && s[0] == pattern[0] && Like(s[1..], pattern[1..])
  }

  predicate NoWildcards(q: string)
  {
    '%' !in q && '_' !in q
  }

  /** `q` occurs in `s` as a contiguous run. */
  predicate Contains(s: string, q: string)
  {
    exists i :: 0 <= i <= |s| && q <= s[i..]
  }

  lemma {:induction false} PercentMatchesAll(s: string)
    ensures Like(s, "%")
  {
    if s != [] {
      PercentMatchesAll(s[1..]);
    }
  }

  /** `q%` is a prefix test when `q` is free of wildcards. */
  lemma {:induction false} LikePrefix(s: string, q: string)
    requires NoWildcards(q)
    ensures Like(s, q + "%") <==> q <= s
  {
    if q == [] {
      assert q + "%" == "%";
      PercentMatchesAll(s);
    } else {
      assert (q + "%")[0] == q[0] && (q + "%")[1..] == q[1..] + "%";
      if s != [] {
        LikePrefix(s[1..], q[1..]);
      }
    }
  }

  /** A leading `%` tries the rest of the pattern at every position. */
  lemma {:induction false} LikeLeadingPercent(s: string, rest: string)
    ensures Like(s, "%" + rest) <==> exists i :: 0 <= i <= |s| && Like(s[i..], rest)
  {
    assert ("%" + rest)[1..] == rest;
    if s == [] {
      assert s[0..] == s;
    } else {
      LikeLeadingPercent(s[1..], rest);
      assert s[0..] == s;
      assert forall i :: 1 <= i <= |s| ==> s[1..][i - 1..] == s[i..];
      if exists i :: 0 <= i <= |s| && Like(s[i..], rest) {
        var i :| 0 <= i <= |s| && Like(s[i..], rest);
        if i > 0 {
          assert Like(s[1..][i - 1..], rest);
        }
      }
    }
  }

  /** With a wildcard-free `q`, the pattern `%q%` is substring containment. */
  lemma SurroundedPatternIsContainment(s: string, q: string)
    requires NoWildcards(q)
    ensures Like(s, "%" + q + "%") <==> Contains(s, q)
  {
    assert "%" + q + "%" == "%" + (q + "%");
    LikeLeadingPercent(s, q + "%");
    forall i | 0 <= i <= |s| ensures Like(s[i..], q + "%") <==> q <= s[i..] {
      LikePrefix(s[i..], q);
    }
  }

  /** The search criteria `findByProject` is called with. */
  datatype Criteria = Criteria(
    project: nat,
    query: Option<string>,
    completed: Option<bool>,
    dueDateFrom: Option<Date>,
    dueDateTo: Option<Date>)

  predicate ColumnLike(column: Option<string>, pattern: string)
  {
    column.Some? && Like(ToLowerCase(column.value), pattern)
  }

  predicate TextMatches(t: Task, query: Option<string>)
  {
    query.None? || ColumnLike(t.title, query.value) || ColumnLike(t.description, query.value)
  }

  predicate CompletedMatches(t: Task, completed: Option<bool>)
  {
    completed.None? || t.completed == completed.value
  }

  /** Both bounds are inclusive, and a task without a due date fails any bound. */
  predicate DueDateMatches(t: Task, from: Option<Date>, to: Option<Date>)
  {
    && (from.None? || (t.dueDate.Some? && t.dueDate.value >= from.value))
    && (to.None? || (t.dueDate.Some? && t.dueDate.value <= to.value))
  }

  /** The `WHERE` clause. */
  predicate Matches(t: Task, c: Criteria)
  {
    && t.projectId == c.project
    && TextMatches(t, c.query)
    && CompletedMatches(t, c.completed)
    && DueDateMatches(t, c.dueDateFrom, c.dueDateTo)
  }

  /** The rows of `rows` the query selects, in their original order. */
  function FindByProject(rows: seq<Task>, c: Criteria): (r: seq<Task>)
    ensures |r| <= |rows|
    ensures forall t :: t in r <==> t in rows && Matches(t, c)
  {
    if rows == [] then []
    else
      var tail := FindByProject(rows[1..], c);
      assert forall t :: t in rows <==> t == rows[0] || t in rows[1..];
      if Matches(rows[0], c) then [rows[0]] + tail else tail
  }

  predicate NoFilters(c: Criteria)
  {
    c.query.None? && c.completed.None? && c.dueDateFrom.None? && c.dueDateTo.None?
  }

  /** With every filter null, the query returns every task of the project, in
      order. */
  lemma {:induction false} NoFiltersSelectsProject(rows: seq<Task>, c: Criteria)
    requires NoFilters(c)
    requires forall i :: 0 <= i < |rows| ==> rows[i].projectId == c.project
    ensures FindByProject(rows, c) == rows
  {
    if rows != [] {
      NoFiltersSelectsProject(rows[1..], c);
    }
  }

  /** Equal bounds select exactly the tasks whose stored due date is that
      instant, although the filter record refuses equal bounds. */
  lemma EqualBoundsSelectThatDay(t: Task, c: Criteria, d: Date)
    requires c.dueDateFrom == Some(d) && c.dueDateTo == Some(d)
    ensures DueDateMatches(t, c.dueDateFrom, c.dueDateTo) <==> t.dueDate == Some(d)
  {
  }

  /** The bounds are parsed from `yyyy-MM-dd`, so they are midnights, and a
      stored due date is its day's midnight: the filter keeps a task exactly
      when the day it was given falls between the two bound days, both
      included, whatever time of day the request carried. */
  lemma DayBoundsSelectByDay(t: Task, due: Date, from: Date, to: Date)
    requires t.dueDate == StoredDueDate(Some(due))
    ensures DueDateMatches(t, Some(StartOfDay(from)), Some(StartOfDay(to))) <==> Day(from) <= Day(due) <= Day(to)
    ensures DueDateMatches(t, None, Some(StartOfDay(to))) <==> Day(due) <= Day(to)
  {
    StartOfDayMonotone(from, due);
    StartOfDayMonotone(due, to);
  }

  /** `_` is a wildcard for exactly one character... */
  lemma UnderscoreIsWildcard(s: string)
    ensures Like(s, "_") <==> |s| == 1
  {
    assert "_"[1..] == [];
  }

  /** ...so `%_%` matches every non-empty string. */
  lemma {:induction false} SurroundedUnderscoreMatchesNonEmpty(s: string)
    ensures Like(s, "%_%") <==> s != []
  {
    assert "%_%" == "%" + "_%";
    LikeLeadingPercent(s, "_%");
    assert "_%"[1..] == "%";
    if s != [] {
      assert s[0..] == s;
      PercentMatchesAll(s[1..]);
    }
  }
}
