/** Facts about sequences that the encoders and their readers share. */
module Sequences {
  datatype Option<T> = None | Some(value: T)

  lemma Associative<T>(a: seq<T>, b: seq<T>, c: seq<T>)
    ensures a + b + c == a + (b + c)
  {}

  lemma LastFirst<T>(s: seq<T>, more: seq<T>)
    requires s != []
    ensures s[..|s| - 1] + ([s[|s| - 1]] + more) == s + more
  {}

  lemma HeadTail<T>(s: seq<T>)
    requires s != []
    ensures [s[0]] + s[1..] == s
  {}

  lemma DropPrefix<T>(a: seq<T>, b: seq<T>)
    ensures (a + b)[|a|..] == b && (a + b)[..|a|] == a
  {}

  lemma NothingFirst<T>(s: seq<T>)
    ensures [] + s == s
  {}

  /** What stands behind all parts stands behind the last one. */
  lemma Regroup<T>(a: seq<T>, b: seq<T>, c: seq<T>, d: seq<T>)
    ensures (a + (b + c)) + d == a + (b + (c + d))
  {}

  lemma RegroupFour<T>(a: seq<T>, b: seq<T>, c: seq<T>, d: seq<T>, e: seq<T>)
    ensures (a + (b + (c + d))) + e == a + (b + (c + (d + e)))
  {}
}
