/** Nodes in an arena: pointers are indices, with 0 for the null pointer. */
module Arenas {

  type Ref = nat
  const NIL: Ref := 0

  /** `g` is `h` with entries added, and otherwise changed in `rs` only. */
  ghost predicate Within<T>(h: seq<T>, g: seq<T>, rs: set<Ref>) {
    |h| <= |g| && forall i :: 0 <= i < |h| && i !in rs ==> g[i] == h[i]
  }

  /** What is used afterwards was used before or is new. */
  ghost predicate OldOrNew<T>(h: seq<T>, before: set<Ref>, after: set<Ref>) {
    forall i :: i in after ==> i in before || i >= |h|
  }
}
