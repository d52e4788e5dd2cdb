/** list_chunks(lst, n): the comprehension
    [lst[i:i + n] for i in range(0, len(lst), n)], used to cut the backlog's
    insert values into batches of 40 and the geometry check's id list into
    SODA queries of 500. */
module Chunks {
  import opened Common

  function Min(a: int, b: int): int { if a <= b then a else b }

  /** How many values range(0, len, n) produces. */
  function ChunkCount(len: nat, n: nat): nat
    requires n > 0
  {
    (len + n - 1) / n
  }

  /** The comprehension itself: chunk i is lst[i*n : i*n + n], which Python
      clips at the end of the list. */
  function ListChunks<T>(lst: seq<T>, n: nat): seq<seq<T>>
    requires n > 0
  {
    seq(ChunkCount(|lst|, n), i requires 0 <= i < ChunkCount(|lst|, n) => Chunk(lst, n, i))
  }

  /** lst[i*n : i*n + n], clipped. */
  function Chunk<T>(lst: seq<T>, n: nat, i: nat): seq<T>
  {
    lst[Min(i * n, |lst|)..Min(i * n + n, |lst|)]
  }

  function Flatten<T>(ss: seq<seq<T>>): seq<T>
  {
    if ss == [] then [] else ss[0] + Flatten(ss[1..])
  }

  /** Concatenation distributes over appending lists of lists. */
  lemma {:induction false} FlattenAppend<T>(a: seq<seq<T>>, b: seq<seq<T>>)
    ensures Flatten(a + b) == Flatten(a) + Flatten(b)
  {
    if a != [] {
      assert (a + b)[1..] == a[1..] + b;
      FlattenAppend(a[1..], b);
    } else {
      assert a + b == b;
    }
  }

  lemma FlattenCons<T>(x: seq<T>, rest: seq<seq<T>>)
    ensures Flatten([x] + rest) == x + Flatten(rest)
  {
    assert ([x] + rest)[1..] == rest;
  }

  /** Every piece occurs in the concatenation. */
  lemma {:induction false} FlattenContains(ss: seq<string>, k: nat)
    requires k < |ss|
    ensures Contains(Flatten(ss), ss[k])
  {
    if k == 0 {
      ContainsPart([], ss[0], Flatten(ss[1..]));
      assert [] + ss[0] + Flatten(ss[1..]) == Flatten(ss);
    } else {
      FlattenContains(ss[1..], k - 1);
      ContainsIn(ss[0], Flatten(ss[1..]), [], ss[k]);
      assert ss[0] + Flatten(ss[1..]) + [] == Flatten(ss);
    }
  }

  /** The concatenation ends with the last piece. */
  lemma {:induction false} FlattenEndsWith<T>(ss: seq<seq<T>>)
    requires ss != []
    ensures var f, l := Flatten(ss), ss[|ss| - 1]; |l| <= |f| && f[|f| - |l|..] == l
  {
    if |ss| == 1 {
      assert Flatten(ss) == ss[0] + [];
    } else {
      FlattenEndsWith(ss[1..]);
      assert ss[1..][|ss[1..]| - 1] == ss[|ss| - 1];
    }
  }

  lemma CountStep(len: nat, n: nat)
    requires n > 0 && len > n
    ensures ChunkCount(len, n) == 1 + ChunkCount(len - n, n)
  {
    var x := len - n + n - 1;
    var q, r := x / n, x % n;
    assert x + n == (q + 1) * n + r;
    DivUnique(x + n, n, q + 1, r);
  }

  lemma DivUnique(x: int, n: int, q: int, r: int)
    requires n > 0 && 0 <= r < n && x == q * n + r
    ensures x / n == q
  {
    var q', r' := x / n, x % n;
    assert q' * n + r' == q * n + r;
    assert (q + 1) * n == q * n + n && (q' + 1) * n == q' * n + n;
    if q' > q {
      MulMono(q + 1, q', n);
      assert false;
    } else if q' < q {
      MulMono(q' + 1, q, n);
      assert false;
    }
  }

  lemma CountZero(n: nat)
    requires n > 0
    ensures ChunkCount(0, n) == 0
  {
    DivUnique(n - 1, n, 0, n - 1);
  }

  lemma CountSmall(len: nat, n: nat)
    requires n > 0 && 0 < len <= n
    ensures ChunkCount(len, n) == 1
  {
  }

  /** Once a first chunk of n has been cut, the remaining chunks are the
      chunks of what is left. */
  lemma {:induction false} ListChunksStep<T>(lst: seq<T>, n: nat)
    requires n > 0 && |lst| > n
    ensures ListChunks(lst, n) == [lst[..n]] + ListChunks(lst[n..], n)
  {
    CountStep(|lst|, n);
    var rest := lst[n..];
    var a, b := ListChunks(lst, n), [lst[..n]] + ListChunks(rest, n);
    assert |a| == |b|;
    forall i | 0 <= i < |a| ensures a[i] == b[i] {
      if i == 0 {
        assert 0 * n == 0;
        assert Chunk(lst, n, 0) == lst[..n];
      } else {
        ChunkOfRest(lst, n, i - 1);
      }
    }
  }

  /** Chunk j of lst[n..] is chunk j + 1 of lst. */
  lemma ChunkOfRest<T>(lst: seq<T>, n: nat, j: nat)
    requires n > 0 && |lst| > n && j < ChunkCount(|lst| - n, n)
    ensures ListChunks(lst[n..], n)[j] == Chunk(lst, n, j + 1)
  {
    var p := j * n;
    assert (j + 1) * n == p + n by {
      MulSucc(j, n);
    }
    assert p < |lst| - n by {
      DivBound(|lst| - n + n - 1, n, j + 1);
    }
    ShiftedSlice(lst, n, p);
  }

  lemma MulSucc(j: nat, n: nat)
    ensures (j + 1) * n == j * n + n
  {
  }

  /** Cutting [p, p + n) out of lst[n..] is cutting [p + n, p + 2n) out of
      lst, both clipped. */
  lemma ShiftedSlice<T>(lst: seq<T>, n: nat, p: nat)
    requires n < |lst| && p < |lst| - n
    ensures lst[n..][Min(p, |lst| - n)..Min(p + n, |lst| - n)] == lst[Min(p + n, |lst|)..Min(p + n + n, |lst|)]
  {
    var rest := lst[n..];
    var hi := Min(p + n, |rest|);
    assert rest[p..hi] == lst[p + n..hi + n];
  }

  lemma DivBound(x: nat, n: nat, q: nat)
    requires n > 0 && x / n >= q
    ensures q * n <= x
  {
    assert (x / n) * n <= x;
    assert q * n <= (x / n) * n by {
      MulMono(q, x / n, n);
    }
  }

  lemma MulMono(a: int, b: int, n: nat)
    requires a <= b
    ensures a * n <= b * n
  {
    assert b * n == a * n + (b - a) * n;
  }

  /** A list no longer than n is its own single chunk. */
  lemma ListChunksSmall<T>(lst: seq<T>, n: nat)
    requires n > 0 && 0 < |lst| <= n
    ensures ListChunks(lst, n) == [lst]
  {
    CountSmall(|lst|, n);
    assert 0 * n == 0;
    assert Chunk(lst, n, 0) == lst[0..|lst|] == lst;
  }

  /** Concatenating the chunks gives back the list. */
  lemma {:induction false} FlattenListChunks<T>(lst: seq<T>, n: nat)
    requires n > 0
    ensures Flatten(ListChunks(lst, n)) == lst
    decreases |lst|
  {
    if lst == [] {
      CountZero(n);
    } else if |lst| <= n {
      ListChunksSmall(lst, n);
      FlattenCons(lst, []);
    } else {
      ListChunksStep(lst, n);
      FlattenListChunks(lst[n..], n);
      FlattenCons(lst[..n], ListChunks(lst[n..], n));
      assert lst[..n] + lst[n..] == lst;
    }
  }

  /** Every chunk is non-empty and at most n long; all but the last are
      exactly n long; and there are ceil(len / n) of them, none for []. */
  lemma {:induction false} ChunkSizes<T>(lst: seq<T>, n: nat)
    requires n > 0
    ensures |ListChunks(lst, n)| == (|lst| + n - 1) / n
    ensures lst == [] <==> ListChunks(lst, n) == []
    ensures forall i :: 0 <= i < |ListChunks(lst, n)| ==> 0 < |ListChunks(lst, n)[i]| <= n
    ensures forall i :: 0 <= i < |ListChunks(lst, n)| - 1 ==> |ListChunks(lst, n)[i]| == n
    decreases |lst|
  {
    if lst == [] {
      CountZero(n);
    } else if |lst| <= n {
      ListChunksSmall(lst, n);
    } else {
      ListChunksStep(lst, n);
      var rest := ListChunks(lst[n..], n);
      ChunkSizes(lst[n..], n);
      CountStep(|lst|, n);
      var cs := [lst[..n]] + rest;
      assert forall i :: 1 <= i < |cs| ==> cs[i] == rest[i - 1];
    }
  }
}
