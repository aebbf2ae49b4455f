/**
 * The `Skip(skip).Take(take).ToList()` chain on an in-memory list.
 *
 * `Skip(n)` with `n <= 0` returns the whole list and with `n >= |s|` the
 * empty list; `Take(n)` with `n <= 0` returns the empty list and with
 * `n >= |s|` the whole list. `ToList` copies the elements in order, which on
 * values is the identity.
 */
module Pagination {

  function Min(a: int, b: int): int { if a <= b then a else b }
  function Max(a: int, b: int): int { if a <= b then b else a }

  function Skip<T>(s: seq<T>, count: int): (r: seq<T>)
    ensures |r| == |s| - Min(Max(count, 0), |s|)
    ensures forall k :: 0 <= k < |r| ==> r[k] == s[Max(count, 0) + k]
  {
    if count <= 0 then s
    else if count >= |s| then []
    else s[count..]
  }

  function Take<T>(s: seq<T>, count: int): (r: seq<T>)
    ensures |r| == Min(Max(count, 0), |s|)
    ensures forall k :: 0 <= k < |r| ==> r[k] == s[k]
  {
    if count <= 0 then []
    else if count >= |s| then s
    else s[..count]
  }

  /** One page: at most `take` elements, starting at index `skip`. */
  function Window<T>(s: seq<T>, skip: int, take: int): (r: seq<T>)
    ensures |r| == Min(Max(take, 0), Max(0, |s| - Max(skip, 0)))
    ensures forall k :: 0 <= k < |r| ==> r[k] == s[Max(skip, 0) + k]
  {
    Take(Skip(s, skip), take)
  }

  /** A page is the contiguous slice between its clamped bounds. */
  lemma WindowIsSlice<T>(s: seq<T>, skip: int, take: int)
    ensures var lo := Min(Max(skip, 0), |s|);
            Window(s, skip, take) == s[lo..Min(lo + Max(take, 0), |s|)]
  {
    var lo := Min(Max(skip, 0), |s|);
    var w := Window(s, skip, take);
    var slice := s[lo..Min(lo + Max(take, 0), |s|)];
    assert |w| == |slice|;
    forall k | 0 <= k < |w| ensures w[k] == slice[k] {
    }
  }

  /** Two consecutive pages make up the page that spans both. */
  lemma WindowsAdjoin<T>(s: seq<T>, skip: nat, a: nat, b: nat)
    ensures Window(s, skip, a) + Window(s, skip + a, b) == Window(s, skip, a + b)
  {
    var first, second, whole := Window(s, skip, a), Window(s, skip + a, b), Window(s, skip, a + b);
    assert |first| + |second| == |whole|;
    forall k | 0 <= k < |whole| ensures (first + second)[k] == whole[k] {
      if k >= |first| {
        assert (first + second)[k] == second[k - |first|];
      }
    }
  }

  /** The first `n` pages of size `size`, requested one after another. */
  function Pages<T>(s: seq<T>, size: nat, n: nat): seq<T>
  {
    if n == 0 then [] else Pages(s, size, n - 1) + Window(s, (n - 1) * size, size)
  }

  /** Paging through a list visits its elements once each, in order. */
  lemma {:induction false} PagesAreAPrefix<T>(s: seq<T>, size: nat, n: nat)
    ensures Pages(s, size, n) == Window(s, 0, n * size)
  {
    if n > 0 {
      PagesAreAPrefix(s, size, n - 1);
      WindowsAdjoin(s, 0, (n - 1) * size, size);
      assert (n - 1) * size + size == n * size;
    }
  }

  /** Enough pages cover the whole list. */
  lemma PagesCoverAll<T>(s: seq<T>, size: nat, n: nat)
    requires n * size >= |s|
    ensures Pages(s, size, n) == s
  {
    PagesAreAPrefix(s, size, n);
    WindowIsSlice(s, 0, n * size);
  }
}
