// Shared value types.
module Prelude {
  datatype Option<+T> = None | Some(value: T)

  type Byte = x: int | 0 <= x < 256

  lemma AnElement<T>(s: set<T>) returns (x: T)
    requires s != {}
    ensures x in s
  {
    x :| x in s;
  }

  lemma Regroup<T>(a: seq<T>, b: seq<T>, c: seq<T>)
    ensures a + (b + c) == (a + b) + c
  {
  }

  lemma OneMore<T>(s: seq<T>, i: nat)
    requires i < |s|
    ensures s[..i + 1] == s[..i] + [s[i]]
  {
  }

  lemma DropTwice<T>(s: seq<T>, n: nat, k: nat)
    requires n <= k <= |s|
    ensures s[n..][k - n..] == s[k..]
  {
  }
}
