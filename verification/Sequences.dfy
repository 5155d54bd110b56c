/** Facts about sequences that proofs by parts keep needing. */
module Sequences {

  lemma ConcatTail<T>(s: seq<T>, t: seq<T>)
    requires s != []
    ensures (s + t)[0] == s[0] && (s + t)[1..] == s[1..] + t
  {
  }

  lemma ConcatAssociates<T>(a: seq<T>, b: seq<T>, c: seq<T>)
    ensures (a + b) + c == a + (b + c)
  {
  }

  lemma ConcatNothing<T>(s: seq<T>)
    ensures [] + s == s && s + [] == s
  {
  }
}
