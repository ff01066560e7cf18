/** Types and a search shared by the other modules. */
module Basics {
  /** A symbol of the symbol table, by its index; attribute sets and scopes are sorted by it. */
  type Symbol = nat

  /** A name as written, where the order of symbols does not matter. */
  type Name = string

  datatype Option<+T> = None | Some(value: T)

  /** The outcome of a computation that may throw. */
  datatype Result<+T, +E> = Success(value: T) | Failure(error: E) {
    predicate IsFailure() { Failure? }

    function PropagateFailure<U>(): Result<U, E>
      requires Failure?
    {
      Failure(error)
    }

    function Extract(): T
      requires Success?
    {
      value
    }
  }

  predicate Distinct<T(==)>(s: seq<T>) { forall i, j :: 0 <= i < j < |s| ==> s[i] != s[j] }

  /** `std::lower_bound` in a sequence sorted by a key. */
  method LowerBound<T>(s: seq<T>, key: T -> Symbol, name: Symbol) returns (lo: nat)
    requires forall i, j :: 0 <= i < j < |s| ==> key(s[i]) < key(s[j])
    ensures lo <= |s| && forall k :: 0 <= k < lo ==> key(s[k]) < name
    ensures forall k :: lo <= k < |s| ==> name <= key(s[k])
  {
    lo := 0;
    var hi := |s|;
    while lo < hi
      invariant lo <= hi <= |s|
      invariant forall k :: 0 <= k < lo ==> key(s[k]) < name
      invariant forall k :: hi <= k < |s| ==> name <= key(s[k])
    {
      var mid := (lo + hi) / 2;
      if key(s[mid]) < name { lo := mid + 1; } else { hi := mid; }
    }
  }
}
