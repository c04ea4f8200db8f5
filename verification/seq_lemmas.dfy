/** Small facts about slices and concatenation of sequences, stated once so
    that the tokenizer proofs can cite them instead of re-deriving them. */
module SeqLemmas {

  lemma ConsTail<T>(s: seq<T>)
    requires |s| > 0
    ensures [s[0]] + s[1..] == s
  {
  }

  lemma DropConcat<T>(a: seq<T>, w: seq<T>, b: seq<T>, m: nat)
    requires m <= |a|
    ensures (a + w + b)[m..] == a[m..] + w + b
  {
  }

  lemma TakeConcat<T>(a: seq<T>, w: seq<T>, b: seq<T>, m: nat)
    requires m <= |a|
    ensures (a + w + b)[..m] == a[..m]
  {
  }

  lemma TakeDrop<T>(s: seq<T>, n: nat)
    requires n <= |s|
    ensures [] + s[..n] + s[n..] == s
  {
  }

  lemma EmptyDrop<T>(s: seq<T>)
    ensures s[|s|..] == []
  {
  }

  lemma SliceToEnd<T>(s: seq<T>, start: nat)
    requires start <= |s|
    ensures s[start..] == s[start..|s|]
  {
  }

  lemma AppendAssoc<T>(a: seq<T>, b: seq<T>, c: seq<T>)
    ensures a + (b + c) == (a + b) + c
  {
  }
}
