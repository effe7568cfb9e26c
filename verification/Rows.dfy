/** Brackets in a chain of rows do not matter. */
module Rows {

  lemma Shift<T>(a: seq<T>, b: seq<T>, c: seq<T>)
    ensures (a + b) + c == a + (b + c)
  { }

  lemma Rebracket<T>(a: seq<T>, b: seq<T>, c: seq<T>, d: seq<T>, e: seq<T>)
    ensures a + (b + c + d) + e == a + b + (c + d + e)
    ensures a + (b + c + d) + e == a + b + (c + (d + e))
    ensures a + (b + c + d) + e == (a + b + c) + d + e
    ensures a + b + c + d + e == a + (b + (c + (d + e)))
  { }
}
