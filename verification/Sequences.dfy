/** Small facts about sequences, each proved where nothing else is in sight. */
module Sequences {

  lemma {:induction false} TakeDrop<T>(a: seq<T>, b: seq<T>)
    ensures (a + b)[..|a|] == a && (a + b)[|a|..] == b
  {
  }

  lemma {:induction false} SliceOfConcat<T>(a: seq<T>, b: seq<T>, j: nat)
    requires j <= |b|
    ensures (a + b)[..|a| + j] == a + b[..j] && (a + b)[|a| + j..] == b[j..]
  {
  }

  lemma {:induction false} DropTwice<T>(s: seq<T>, i: nat, j: nat)
    requires i + j <= |s|
    ensures s[i..][j..] == s[i + j..]
  {
  }

  lemma {:induction false} TakeHead<T>(s: seq<T>, n: nat)
    requires 0 < n <= |s|
    ensures s[..n] == [s[0]] + s[1..][..n - 1]
  {
  }

  /** The sequence around one of its elements. */
  lemma {:induction false} SplitAround<T>(s: seq<T>, k: nat)
    requires k < |s|
    ensures s == s[..k] + ([s[k]] + s[k + 1..])
  {
  }

  lemma {:induction false} Associative<T>(a: seq<T>, b: seq<T>, c: seq<T>)
    ensures a + b + c == a + (b + c)
  {
  }

  /** `ab` stands for `a + b`: replaces the middle of a concatenation. */
  lemma {:induction false} Glue<T>(a: seq<T>, b: seq<T>, ab: seq<T>, c: seq<T>, d: seq<T>)
    requires a + b == ab
    ensures a + (b + (c + d)) == ab + c + d
  {
  }
}
