/** Contiguous runs inside a sequence: where one list sits inside another. */
module Blocks {

  /** `block` sits in `s` starting at index `i`: its first element at `i`,
      the rest from `i + 1` on. */
  predicate BlockAt<T(==)>(s: seq<T>, i: int, block: seq<T>)
    decreases |block|
  {
    && 0 <= i && i + |block| <= |s|
    && (|block| == 0 || (s[i] == block[0] && BlockAt(s, i + 1, block[1..])))
  }

  /** Element by element: `s[i + k] == block[k]` for every index of `block`. */
  lemma {:induction false} BlockAtIff<T>(s: seq<T>, i: int, block: seq<T>)
    ensures BlockAt(s, i, block) <==>
      0 <= i && i + |block| <= |s| && forall k :: 0 <= k < |block| ==> s[i + k] == block[k]
    decreases |block|
  {
    if |block| > 0 && 0 <= i && i + |block| <= |s| {
      var tail := block[1..];
      BlockAtIff(s, i + 1, tail);
      if forall k :: 0 <= k < |block| ==> s[i + k] == block[k] {
        assert s[i + 0] == block[0];
        forall k | 0 <= k < |tail|
          ensures s[i + 1 + k] == tail[k]
        {
          assert s[i + (k + 1)] == block[k + 1];
        }
      }
      if BlockAt(s, i, block) {
        forall k | 0 <= k < |block|
          ensures s[i + k] == block[k]
        {
          if k > 0 {
            assert s[i + 1 + (k - 1)] == tail[k - 1];
          }
        }
      }
    }
  }

  lemma BlockWhole<T>(s: seq<T>)
    ensures BlockAt(s, 0, s)
  {
    BlockAtIff(s, 0, s);
  }

  lemma BlockAtFront<T>(whole: seq<T>, head: seq<T>, rest: seq<T>)
    requires whole == head + rest
    ensures BlockAt(whole, 0, head)
  {
    BlockAtIff(whole, 0, head);
  }

  lemma BlockAfter<T>(whole: seq<T>, head: seq<T>, rest: seq<T>, j: int, block: seq<T>) returns (at: nat)
    requires whole == head + rest && BlockAt(rest, j, block)
    ensures at == |head| + j && BlockAt(whole, at, block)
  {
    at := |head| + j;
    BlockAtIff(rest, j, block);
    BlockAtIff(whole, at, block);
    forall k | 0 <= k < |block|
      ensures whole[at + k] == block[k]
    {
      assert rest[j + k] == block[k];
    }
  }

  /** Past the head of a block `[x] + rest` starts the block `rest`. */
  lemma BlockAfterHead<T>(s: seq<T>, i: int, x: T, rest: seq<T>) returns (at: nat)
    requires BlockAt(s, i, [x] + rest)
    ensures at == i + 1 && BlockAt(s, at, rest)
  {
    at := i + 1;
    assert ([x] + rest)[1..] == rest;
  }

  /** A block of a block is a block of the whole. */
  lemma BlockWithin<T>(s: seq<T>, i: int, b: seq<T>, j: int, c: seq<T>) returns (at: nat)
    requires BlockAt(s, i, b) && BlockAt(b, j, c)
    ensures at == i + j && BlockAt(s, at, c)
  {
    at := i + j;
    BlockAtIff(s, i, b);
    BlockAtIff(b, j, c);
    BlockAtIff(s, at, c);
    forall k | 0 <= k < |c|
      ensures s[at + k] == c[k]
    {
      assert c[k] == b[j + k] == s[i + (j + k)];
    }
  }
}
