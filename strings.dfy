/** Regrouping of string concatenations, used where a proof needs it as one step. */
module Strings {
  lemma Regroup(a: string, b: string, c: string)
    ensures a + b + c == a + (b + c)
  {
  }

  lemma Regroup4(a: string, b: string, c: string, d: string)
    ensures a + b + (c + d) == a + (b + c) + d
    ensures a + (b + c + d) == a + b + c + d
  {
  }
}
