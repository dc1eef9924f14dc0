/** Option and Result values shared by the whole model.  `None` stands for a
    Java `null`; `Fail` stands for a `System.exit(1)`, a thrown exception or a
    failed Python `assert`, with a short reason. */
module Wrappers {
  datatype Option<T> = None | Some(value: T)

  datatype Result<T> = Ok(value: T) | Fail(reason: string)
  {
    predicate IsFailure() { Fail? }
  }

  /** A set of numbers (tags, edges) with no member is empty: the fact a
      loop needs before it picks some element of a non-empty set. */
  lemma NoMember(s: set<int>)
    ensures (forall y :: y !in s) ==> s == {}
  {
    if forall y :: y !in s {
      assert s == {};
    }
  }

  /** Moving one element from the set still to visit to the set visited
      keeps the two a partition of `all` and shrinks the first. */
  lemma MoveOne(todo: set<int>, done: set<int>, all: set<int>, t: int)
    requires t in todo && todo <= all && done == all - todo
    ensures todo - {t} <= all && done + {t} == all - (todo - {t})
    ensures |todo - {t}| < |todo|
  {
  }
}
