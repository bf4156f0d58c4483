/** Result types, the sentinel errors and the string tests shared by every component. */
module Basics {

  datatype Option<+T> = None | Some(value: T)

  /** The sentinel errors of the engine and its stores. */
  datatype Error =
    | InvalidRole
    | RoleExists
    | RoleNotFound
    | ParentNotFound
    | CycleDetected
    | RoleInUse
    | InvalidPolicy
    | Cancelled
    | PermissionDenied
    | RulesDisabled

  datatype Result<+T> = Ok(value: T) | Err(error: Error)

  /** Unicode white space, as the source's trimming function understands it. */
  predicate IsSpace(c: char) {
    || ('\t' <= c <= '\r') || c == ' ' || c == '\U{85}' || c == '\U{A0}' || c == '\U{1680}'
    || '\U{2000}' <= c <= '\U{200A}' || c == '\U{2028}' || c == '\U{2029}'
    || c == '\U{202F}' || c == '\U{205F}' || c == '\U{3000}'
  }

  /** True when trimming `s` leaves nothing. */
  predicate Blank(s: string) {
    forall i :: 0 <= i < |s| ==> IsSpace(s[i])
  }

  /** The elements of a sequence. */
  function Elements<T>(s: seq<T>): set<T> {
    set x | x in s
  }

  lemma ElementsOfConcat<T>(a: seq<T>, b: seq<T>)
    ensures Elements(a + b) == Elements(a) + Elements(b)
  {
  }

  lemma CardOfDifference<T>(a: set<T>, b: set<T>)
    requires b <= a
    ensures |a - b| == |a| - |b|
  {
    assert a == (a - b) + b;
  }
}
