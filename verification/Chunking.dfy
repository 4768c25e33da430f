/** Slices that are cut into consecutive pieces of one size. */
module Chunking {
  /** Consecutive pieces of `size`, the last one possibly shorter. */
  function Chunks<T>(items: seq<T>, size: nat): (chunks: seq<seq<T>>)
    requires size > 0
    ensures forall i :: 0 <= i < |chunks| ==> 0 < |chunks[i]| <= size
    ensures forall i :: 0 <= i < |chunks| - 1 ==> |chunks[i]| == size
    ensures items == [] <==> chunks == []
  {
    if items == [] then []
    else if |items| <= size then [items]
    else [items[..size]] + Chunks(items[size..], size)
  }

  function Joined<T>(chunks: seq<seq<T>>): seq<T> {
    if chunks == [] then [] else chunks[0] + Joined(chunks[1..])
  }

  lemma {:induction false} ChunksJoin<T>(items: seq<T>, size: nat)
    requires size > 0
    ensures Joined(Chunks(items, size)) == items
  {
    if |items| > size {
      ChunksJoin(items[size..], size);
    }
  }

  /** The number of pieces is the quotient rounded up. */
  lemma {:induction false} ChunksCount<T>(items: seq<T>, size: nat)
    requires size > 0
    ensures |Chunks(items, size)| == (|items| + size - 1) / size
  {
    if |items| > size {
      ChunksCount(items[size..], size);
      RoundUp(|items[size..]| + size - 1, size);
    } else if items != [] {
      RoundUp(|items| - 1, size);
    }
  }

  lemma RoundUp(n: nat, size: nat)
    requires size > 0
    ensures (n + size) / size == n / size + 1
  {
    Quotient(n + size, size, n / size + 1, n % size);
  }

  lemma Quotient(n: nat, d: nat, q: nat, r: nat)
    requires r < d && n == q * d + r
    ensures n / d == q
  {
    var q' := n / d;
    assert n == q' * d + n % d;
    Times(q' + 1, q, d);
    Times(q + 1, q', d);
  }

  lemma Times(a: nat, b: nat, d: nat)
    ensures a <= b ==> a * d <= b * d
  {
  }

  lemma ChunkNext<T>(items: seq<T>, size: nat, i: nat, n: nat)
    requires size > 0 && i < |items| && n == if i + size < |items| then i + size else |items|
    ensures Chunks(items[i..], size) == [items[i..n]] + Chunks(items[n..], size)
  {
    var rest := items[i..];
    assert rest[..n - i] == items[i..n] && rest[n - i..] == items[n..];
    if |rest| <= size {
      assert rest == items[i..n] && items[n..] == [];
    }
  }

  lemma {:induction false} JoinedNext<T>(lists: seq<seq<T>>, last: seq<T>)
    ensures Joined(lists + [last]) == Joined(lists) + last
  {
    if lists != [] {
      JoinedNext(lists[1..], last);
      assert (lists + [last])[1..] == lists[1..] + [last];
    }
  }
}
