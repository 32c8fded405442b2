/** Facts about sequences that the solver needs to be told. */
module Sequences {

  lemma ConcatAssoc<T>(a: seq<T>, b: seq<T>, c: seq<T>)
    ensures a + (b + c) == (a + b) + c
  {
  }

  lemma NothingFollows<T>(s: seq<T>, none: seq<T>)
    ensures none == [] ==> s + none == s
  {
  }
}
