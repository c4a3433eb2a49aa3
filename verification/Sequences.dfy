/** Facts about concatenation that longer proofs name instead of leaving to the prover. */
module Sequences {

  lemma {:induction false} Reassociate<T>(a: seq<T>, b: seq<T>, c: seq<T>)
    ensures a + b + c == a + (b + c)
  {
  }

  lemma {:induction false} Regroup<T>(a: seq<T>, b: seq<T>, c: seq<T>, d: seq<T>)
    ensures a + b + c + d == a + (b + (c + d))
  {
  }

  lemma {:induction false} Framed<T>(q: seq<T>, a: seq<T>, c: seq<T>, b: seq<T>)
    ensures q + (a + c + b) + q == (q + a) + c + (b + q)
  {
  }

  lemma {:induction false} Separated<T>(a: seq<T>, s: seq<T>, b: seq<T>, c: seq<T>)
    ensures a + s + (b + s + c) == (a + s + b) + s + c
  {
    Reassociate(a + s, b + s, c);
    Reassociate(a + s, b, s);
  }

  lemma {:induction false} BagOfConcat<T>(a: seq<T>, b: seq<T>)
    ensures multiset(a + b) == multiset(a) + multiset(b)
  {
  }

  lemma {:induction false} Split<T>(a: seq<T>, b: seq<T>)
    ensures (a + b)[..|a|] == a && (a + b)[|a|..] == b
  {
  }
}
