/** The two LINQ operators the generator applies to sequences: `OrderBy`
    (a stable sort on a key) and `Chunk` (cutting into fixed-size groups). */
module Sorting {

  /** `leq` orders keys totally, ties allowed (what a comparer must do). */
  ghost predicate TotalPreorder<K(!new)>(leq: (K, K) -> bool)
  {
    && (forall a, b :: leq(a, b) || leq(b, a))
    && (forall a, b, c :: leq(a, b) && leq(b, c) ==> leq(a, c))
  }

  ghost predicate SortedBy<T, K>(s: seq<T>, key: T -> K, leq: (K, K) -> bool)
  {
    forall i, j :: 0 <= i < j < |s| ==> leq(key(s[i]), key(s[j]))
  }

  /** Inserts `x` in front of the first element it does not sort after. */
  function Insert<T, K>(x: T, s: seq<T>, key: T -> K, leq: (K, K) -> bool): (r: seq<T>)
    ensures multiset(r) == multiset(s) + multiset{x}
  {
    if s == [] || leq(key(x), key(s[0])) then [x] + s
    else
      assert s == [s[0]] + s[1..];
      [s[0]] + Insert(x, s[1..], key, leq)
  }

  /** `s.OrderBy(key)`: insertion sort from the back, which keeps elements
      with equivalent keys in their original order. */
  function SortBy<T, K>(s: seq<T>, key: T -> K, leq: (K, K) -> bool): (r: seq<T>)
    ensures multiset(r) == multiset(s)
    ensures |r| == |s|
  {
    if s == [] then []
    else
      assert s == [s[0]] + s[1..];
      Insert(s[0], SortBy(s[1..], key, leq), key, leq)
  }

  lemma {:induction false} InsertSorted<T, K(!new)>(x: T, s: seq<T>, key: T -> K, leq: (K, K) -> bool)
    requires TotalPreorder(leq)
    requires SortedBy(s, key, leq)
    ensures SortedBy(Insert(x, s, key, leq), key, leq)
    decreases |s|
  {
    if s == [] || leq(key(x), key(s[0])) {
    } else {
      var tail := Insert(x, s[1..], key, leq);
      InsertSorted(x, s[1..], key, leq);
      assert multiset(tail) == multiset(s[1..]) + multiset{x};
      forall j | 0 <= j < |tail| ensures leq(key(s[0]), key(tail[j])) {
        assert tail[j] in multiset(tail);
        if tail[j] != x {
          assert tail[j] in multiset(s[1..]);
          var m :| 0 <= m < |s[1..]| && s[1..][m] == tail[j];
          assert s[m + 1] == tail[j];
        }
      }
    }
  }

  /** The result of `SortBy` is sorted. */
  lemma {:induction false} SortBySorted<T, K(!new)>(s: seq<T>, key: T -> K, leq: (K, K) -> bool)
    requires TotalPreorder(leq)
    ensures SortedBy(SortBy(s, key, leq), key, leq)
    decreases |s|
  {
    if s != [] {
      SortBySorted(s[1..], key, leq);
      InsertSorted(s[0], SortBy(s[1..], key, leq), key, leq);
    }
  }

  /** The elements of `s` whose key is equivalent to `k`, in order. */
  function Tied<T, K>(s: seq<T>, key: T -> K, leq: (K, K) -> bool, k: K): (r: seq<T>)
    ensures |r| <= |s|
  {
    if s == [] then []
    else (if leq(key(s[0]), k) && leq(k, key(s[0])) then [s[0]] else []) + Tied(s[1..], key, leq, k)
  }

  lemma {:induction false} InsertTied<T, K(!new)>(x: T, s: seq<T>, key: T -> K, leq: (K, K) -> bool, k: K)
    requires TotalPreorder(leq)
    ensures Tied(Insert(x, s, key, leq), key, leq, k) == Tied([x] + s, key, leq, k)
    decreases |s|
  {
    if s == [] || leq(key(x), key(s[0])) {
    } else {
      InsertTied(x, s[1..], key, leq, k);
      var r := Insert(x, s, key, leq);
      assert r[1..] == Insert(x, s[1..], key, leq);
      assert ([x] + s[1..])[1..] == s[1..];
      assert ([x] + s)[1..] == s;
    }
  }

  /** `SortBy` is stable: the elements tied with any key keep their order. */
  lemma {:induction false} SortByStable<T, K(!new)>(s: seq<T>, key: T -> K, leq: (K, K) -> bool, k: K)
    requires TotalPreorder(leq)
    ensures Tied(SortBy(s, key, leq), key, leq, k) == Tied(s, key, leq, k)
    decreases |s|
  {
    if s != [] {
      var rest := SortBy(s[1..], key, leq);
      SortByStable(s[1..], key, leq, k);
      InsertTied(s[0], rest, key, leq, k);
      assert ([s[0]] + rest)[1..] == rest;
    }
  }

  /** A sequence that is already in order is left as it is. */
  lemma {:induction false} SortBySortedIsIdentity<T, K>(s: seq<T>, key: T -> K, leq: (K, K) -> bool)
    requires SortedBy(s, key, leq)
    ensures SortBy(s, key, leq) == s
    decreases |s|
  {
    if s != [] {
      SortBySortedIsIdentity(s[1..], key, leq);
      assert s == [s[0]] + s[1..];
    }
  }

  // ----- Chunk -----

  function Flatten<T>(chunks: seq<seq<T>>): seq<T>
  {
    if chunks == [] then [] else chunks[0] + Flatten(chunks[1..])
  }

  lemma {:induction false} FlattenAppend<T>(chunks: seq<seq<T>>, last: seq<T>)
    ensures Flatten(chunks + [last]) == Flatten(chunks) + last
    decreases |chunks|
  {
    if chunks == [] {
      assert [last][1..] == [];
    } else {
      assert (chunks + [last])[1..] == chunks[1..] + [last];
      FlattenAppend(chunks[1..], last);
    }
  }

  /** `s.Chunk(size)`: consecutive groups of `size`, the last one possibly
      shorter; no group is empty. */
  function Chunk<T>(s: seq<T>, size: nat): (chunks: seq<seq<T>>)
    requires size > 0
    ensures Flatten(chunks) == s
    ensures forall i :: 0 <= i < |chunks| ==> 0 < |chunks[i]| <= size
    ensures forall i :: 0 <= i < |chunks| - 1 ==> |chunks[i]| == size
    ensures |chunks| == CeilDiv(|s|, size)
    decreases |s|
  {
    if s == [] then []
    else if |s| <= size then [s]
    else
      var rest := Chunk(s[size..], size);
      assert s == s[..size] + s[size..];
      [s[..size]] + rest
  }

  /** The number of groups of `size` needed for `n` elements, counted one
      group at a time. */
  function CeilDiv(n: nat, size: nat): nat
    requires size > 0
    decreases n
  {
    if n == 0 then 0 else if n <= size then 1 else 1 + CeilDiv(n - size, size)
  }

  /** For 50 elements per group, the count is the rounded-up quotient. */
  lemma {:induction false} CeilDiv50(n: nat)
    ensures CeilDiv(n, 50) == (n + 49) / 50
    decreases n
  {
    if n > 50 {
      CeilDiv50(n - 50);
    }
  }

  /** Chunk `c` starts at position `c * size` of the chunked sequence. */
  lemma {:induction false} ChunkAt<T>(s: seq<T>, size: nat, c: nat, j: nat)
    requires size > 0
    requires c < |Chunk(s, size)| && j < |Chunk(s, size)[c]|
    ensures c * size + j < |s|
    ensures Chunk(s, size)[c][j] == s[c * size + j]
    decreases c
  {
    if c > 0 {
      var rest := ChunkTail(s, size);
      ChunkAt(s[size..], size, c - 1, j);
      ShiftByChunk(s, size, c, j);
    } else {
      ChunkHead(s, size, j);
    }
  }

  /** Past the first chunk, the chunks are those of the rest. */
  lemma ChunkTail<T>(s: seq<T>, size: nat) returns (rest: seq<seq<T>>)
    requires size > 0 && |Chunk(s, size)| > 1
    ensures |s| > size && rest == Chunk(s[size..], size)
    ensures |rest| == |Chunk(s, size)| - 1
    ensures forall c :: 0 < c < |Chunk(s, size)| ==> Chunk(s, size)[c] == rest[c - 1]
  {
    rest := Chunk(s[size..], size);
  }

  lemma ChunkHead<T>(s: seq<T>, size: nat, j: nat)
    requires size > 0 && 0 < |Chunk(s, size)| && j < |Chunk(s, size)[0]|
    ensures j < |s| && Chunk(s, size)[0][j] == s[j]
  {
    assert Chunk(s, size)[0] == s[..|Chunk(s, size)[0]|];
  }

  lemma ShiftByChunk<T>(s: seq<T>, size: nat, c: nat, j: nat)
    requires 0 < size < |s| && c > 0 && (c - 1) * size + j < |s[size..]|
    ensures c * size + j < |s| && s[size..][(c - 1) * size + j] == s[c * size + j]
  {
    assert (c - 1) * size + size == c * size;
  }
}
