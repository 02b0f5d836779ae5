/** Sorting client messages ascending by timestamp (`sort((a, b) => a.ts - b.ts)`). */
module Sorting {
  import opened Store

  /** Timestamps never decrease along `s`. */
  predicate SortedByTs(s: seq<ClientMessage>)
  {
    forall i, j :: 0 <= i < j < |s| ==> s[i].ts <= s[j].ts
  }

  /** Insert `x` in front of the first element with a timestamp at least its own. */
  function Insert(x: ClientMessage, s: seq<ClientMessage>): seq<ClientMessage>
  {
    if s == [] then [x]
    else if x.ts <= s[0].ts then [x] + s
    else [s[0]] + Insert(x, s[1..])
  }

  /** Insertion adds exactly `x`, and the result starts with `x` or with the old head. */
  lemma {:induction false} InsertPermutation(x: ClientMessage, s: seq<ClientMessage>)
    ensures multiset(Insert(x, s)) == multiset(s) + multiset{x}
    ensures |Insert(x, s)| == |s| + 1
    ensures Insert(x, s)[0] == x || (s != [] && Insert(x, s)[0] == s[0])
  {
    if s != [] {
      assert s == [s[0]] + s[1..];
      if x.ts > s[0].ts {
        InsertPermutation(x, s[1..]);
      }
    }
  }

  /** Insertion into a sorted sequence keeps it sorted. */
  lemma {:induction false} InsertSorted(x: ClientMessage, s: seq<ClientMessage>)
    requires SortedByTs(s)
    ensures SortedByTs(Insert(x, s))
  {
    if s != [] && x.ts > s[0].ts {
      var rest := Insert(x, s[1..]);
      InsertSorted(x, s[1..]);
      InsertPermutation(x, s[1..]);
      assert s[0].ts <= rest[0].ts;
      var r := [s[0]] + rest;
      forall i, j | 0 <= i < j < |r|
        ensures r[i].ts <= r[j].ts
      {
        if i == 0 && j > 1 {
          assert rest[0].ts <= rest[j - 1].ts;
        }
      }
      assert Insert(x, s) == r;
    }
  }

  /** Sort by timestamp: the result is sorted and a permutation of the input. */
  function SortByTs(s: seq<ClientMessage>): (r: seq<ClientMessage>)
    ensures SortedByTs(r)
    ensures multiset(r) == multiset(s)
  {
    if s == [] then []
    else
      assert s == [s[0]] + s[1..];
      var rest := SortByTs(s[1..]);
      InsertSorted(s[0], rest);
      InsertPermutation(s[0], rest);
      Insert(s[0], rest)
  }
}
