/** The `Batch` extension: splits a sequence into consecutive batches whose
    lengths are given by a sequence of batch sizes, each batch starting where
    the previous one ended. */
module Linq {
  import opened Wrappers

  function Min(a: int, b: int): int { if a <= b then a else b }
  function Max(a: int, b: int): int { if a <= b then b else a }

  /** The sum of the positive batch sizes: how many elements the sizes ask for. */
  function SumPositive(sizes: seq<int>): nat
  {
    if sizes == [] then 0 else Max(sizes[0], 0) + SumPositive(sizes[1..])
  }

  /** All batches joined end to end. */
  function Flatten<T>(batches: seq<seq<T>>): seq<T>
  {
    if batches == [] then [] else batches[0] + Flatten(batches[1..])
  }

  /** The batches `Batch` produces, fully materialised. A size of zero or less
      gives an empty batch and consumes nothing; a positive size takes up to
      that many of the remaining elements, or gives no batch at all once the
      source is exhausted. */
  function BatchSpec<T>(source: seq<T>, sizes: seq<int>): (r: seq<seq<T>>)
    ensures |r| <= |sizes|
    ensures sizes == [] ==> r == []
  {
    if sizes == [] then []
    else if sizes[0] <= 0 then [[]] + BatchSpec(source, sizes[1..])
    else if source == [] then BatchSpec(source, sizes[1..])
    else
      var n := Min(sizes[0], |source|);
      [source[..n]] + BatchSpec(source[n..], sizes[1..])
  }

  /** The number of non-positive sizes. */
  function CountNonPositive(sizes: seq<int>): nat
  {
    if sizes == [] then 0 else (if sizes[0] <= 0 then 1 else 0) + CountNonPositive(sizes[1..])
  }

  /** Concatenating the batches gives the source's prefix of the length the
      sizes ask for (or all of it): batches are consecutive, in order, and
      nothing is skipped or repeated. */
  lemma {:induction false} BatchFlattensToPrefix<T>(source: seq<T>, sizes: seq<int>)
    ensures Flatten(BatchSpec(source, sizes)) == source[..Min(|source|, SumPositive(sizes))]
    decreases |sizes|
  {
    var r := BatchSpec(source, sizes);
    if sizes == [] {
    } else if sizes[0] <= 0 {
      BatchFlattensToPrefix(source, sizes[1..]);
      assert r[1..] == BatchSpec(source, sizes[1..]);
    } else if source == [] {
      BatchFlattensToPrefix(source, sizes[1..]);
    } else {
      var n := Min(sizes[0], |source|);
      BatchFlattensToPrefix(source[n..], sizes[1..]);
      assert r[1..] == BatchSpec(source[n..], sizes[1..]);
      var m := Min(|source| - n, SumPositive(sizes[1..]));
      assert source[n..][..m] == source[n..n + m];
      assert source[..n] + source[n..n + m] == source[..n + m];
    }
  }

  /** When the sizes ask for no more than the source holds, there is one batch
      per size and each batch has exactly its size (zero for a size of zero
      or less). */
  lemma {:induction false} BatchExactSizes<T>(source: seq<T>, sizes: seq<int>)
    requires SumPositive(sizes) <= |source|
    ensures |BatchSpec(source, sizes)| == |sizes|
    ensures forall i | 0 <= i < |sizes| :: |BatchSpec(source, sizes)[i]| == Max(sizes[i], 0)
    decreases |sizes|
  {
    var r := BatchSpec(source, sizes);
    if sizes == [] {
    } else if sizes[0] <= 0 {
      BatchExactSizes(source, sizes[1..]);
      assert r[1..] == BatchSpec(source, sizes[1..]);
      forall i | 0 <= i < |sizes| ensures |r[i]| == Max(sizes[i], 0) {
        if i > 0 { assert r[i] == r[1..][i - 1]; }
      }
    } else {
      var n := sizes[0];
      BatchExactSizes(source[n..], sizes[1..]);
      assert r[1..] == BatchSpec(source[n..], sizes[1..]);
      forall i | 0 <= i < |sizes| ensures |r[i]| == Max(sizes[i], 0) {
        if i > 0 { assert r[i] == r[1..][i - 1]; }
      }
    }
  }

  /** Batching an empty source gives one empty batch per non-positive size and
      nothing for the positive ones. */
  lemma {:induction false} BatchEmptySource<T>(sizes: seq<int>)
    ensures |BatchSpec<T>([], sizes)| == CountNonPositive(sizes)
    ensures forall b | b in BatchSpec<T>([], sizes) :: b == []
    decreases |sizes|
  {
    if sizes != [] {
      BatchEmptySource<T>(sizes[1..]);
    }
  }

  /** The library's own examples: an empty source gives no batches and empty
      sizes give no batches. */
  lemma BatchExamplesEmpty()
    ensures BatchSpec("", [1, 2, 3]) == []
    ensures BatchSpec("abcdefg", []) == []
  {
  }

  /** "abcdefg" with sizes 1, -1, 2, -2, 3: the sizes ask for fewer elements
      than the source holds, so the trailing "g" is not in any batch. */
  lemma BatchExampleShort()
    ensures BatchSpec("abcdefg", [1, -1, 2, -2, 3]) == ["a", "", "bc", "", "def"]
  {
    assert BatchSpec("defg", [3]) == ["def"] by {
      assert "defg"[..3] == "def";
      assert [3][1..] == [];
    }
    assert BatchSpec("bcdefg", [2, -2, 3]) == ["bc", "", "def"] by {
      assert "bcdefg"[..2] == "bc" && "bcdefg"[2..] == "defg";
      assert [2, -2, 3][1..] == [-2, 3] && [-2, 3][1..] == [3];
    }
    assert "abcdefg"[..1] == "a" && "abcdefg"[1..] == "bcdefg";
    assert [1, -1, 2, -2, 3][1..] == [-1, 2, -2, 3] && [-1, 2, -2, 3][1..] == [2, -2, 3];
  }

  /** "abcdefg" with sizes 1, -1, 2, -2, 3, 7, 3: the size 7 meets only "g",
      which becomes the final batch, and the last size 3 gives no batch. */
  lemma BatchExampleLong()
    ensures BatchSpec("abcdefg", [1, -1, 2, -2, 3, 7, 3]) == ["a", "", "bc", "", "def", "g"]
  {
    assert BatchSpec("g", [7, 3]) == ["g"] by {
      assert "g"[..1] == "g" && "g"[1..] == [];
      assert [7, 3][1..] == [3] && [3][1..] == [];
    }
    assert BatchSpec("defg", [3, 7, 3]) == ["def", "g"] by {
      assert "defg"[..3] == "def" && "defg"[3..] == "g";
      assert [3, 7, 3][1..] == [7, 3];
    }
    assert BatchSpec("bcdefg", [2, -2, 3, 7, 3]) == ["bc", "", "def", "g"] by {
      assert "bcdefg"[..2] == "bc" && "bcdefg"[2..] == "defg";
      assert [2, -2, 3, 7, 3][1..] == [-2, 3, 7, 3] && [-2, 3, 7, 3][1..] == [3, 7, 3];
    }
    assert "abcdefg"[..1] == "a" && "abcdefg"[1..] == "bcdefg";
    assert [1, -1, 2, -2, 3, 7, 3][1..] == [-1, 2, -2, 3, 7, 3];
    assert [-1, 2, -2, 3, 7, 3][1..] == [2, -2, 3, 7, 3];
  }

  /** Once a batch has taken the rest of the source, a later size of zero or
      less still yields an empty batch: only positive sizes are dropped. */
  lemma BatchExampleAfterExhaustion()
    ensures BatchSpec("abc", [5, 0]) == ["abc", ""]
  {
    assert "abc"[..3] == "abc" && "abc"[3..] == [];
    assert [5, 0][1..] == [0] && [0][1..] == [];
  }

  /** A forward-only cursor over a sequence, with the protocol of a .NET
      enumerator: `index` is -1 before the first `MoveNext`, the position of
      `Current` while one is available, and `|items|` once exhausted. */
  class Enumerator<T> {
    const items: seq<T>
    var index: int

    ghost predicate Valid()
      reads this
    {
      -1 <= index <= |items|
    }

    /** How many elements have been reached so far (the current one included). */
    function Reached(): (n: nat)
      reads this
      requires Valid()
      ensures n <= |items|
    {
      if index < |items| then index + 1 else |items|
    }

    constructor (items: seq<T>)
      ensures Valid() && this.items == items && index == -1 && Reached() == 0
    {
      this.items := items;
      index := -1;
    }

    /** Advances to the next element; false once there is none. */
    method MoveNext() returns (more: bool)
      requires Valid()
      modifies this`index
      ensures Valid()
      ensures more <==> old(Reached()) < |items|
      ensures more ==> index == old(Reached()) && Reached() == old(Reached()) + 1
      ensures !more ==> index == |items| && Reached() == |items|
    {
      if index < |items| {
        index := index + 1;
      }
      more := index < |items|;
    }

    function Current(): T
      reads this
      requires 0 <= index < |items|
    {
      items[index]
    }
  }

  /** Fills one batch starting at the enumerator's current element: takes up to
      `count` elements, advancing the enumerator past all but the last one
      taken, and stopping early when the source runs out. */
  method GetBatch<T>(source: Enumerator<T>, count: int) returns (batch: seq<T>)
    requires source.Valid()
    requires count > 0 ==> 0 <= source.index < |source.items|
    modifies source`index
    ensures source.Valid()
    ensures count <= 0 ==> batch == [] && source.index == old(source.index)
    ensures count > 0 ==>
      var start := old(source.index);
      var n := Min(count, |source.items| - start);
      batch == source.items[start..start + n] && source.Reached() == start + n
  {
    if count <= 0 {
      return [];
    }
    ghost var start := source.index;
    var left := count;
    batch := [];
    while true
      invariant source.Valid()
      invariant start <= source.index < |source.items|
      invariant batch == source.items[start..source.index]
      invariant left == count - |batch| > 0
      decreases left
    {
      batch := batch + [source.Current()];
      left := left - 1;
      if left <= 0 {
        break;
      }
      var more := source.MoveNext();
      if !more {
        break;
      }
    }
  }

  /** The batching loop: one shared enumerator over the source, one step per
      batch size. */
  method BatchImpl<T>(target: seq<T>, batchSizes: seq<int>) returns (batches: seq<seq<T>>)
    ensures batches == BatchSpec(target, batchSizes)
  {
    var source := new Enumerator(target);
    batches := [];
    for i := 0 to |batchSizes|
      invariant source.Valid() && source.items == target
      invariant batches + BatchSpec(target[source.Reached()..], batchSizes[i..])
             == BatchSpec(target, batchSizes)
    {
      ghost var rest := target[source.Reached()..];
      assert batchSizes[i..][1..] == batchSizes[i + 1..];
      var batchSize := batchSizes[i];
      assert batchSizes[i..][0] == batchSize;
      if batchSize <= 0 {
        assert BatchSpec(rest, batchSizes[i..]) == [[]] + BatchSpec(rest, batchSizes[i + 1..]);
        batches := batches + [[]];
      } else {
        var more := source.MoveNext();
        if more {
          var batch := GetBatch(source, batchSize);
          var n := Min(batchSize, |rest|);
          assert batch == rest[..n];
          assert rest[n..] == target[source.Reached()..];
          assert BatchSpec(rest, batchSizes[i..]) == [rest[..n]] + BatchSpec(rest[n..], batchSizes[i + 1..]);
          batches := batches + [batch];
        } else {
          assert rest == [];
          assert BatchSpec(rest, batchSizes[i..]) == BatchSpec(rest, batchSizes[i + 1..]);
        }
      }
    }
    assert batchSizes[|batchSizes|..] == [];
  }

  /** The public entry point: a null source or null sizes is rejected before
      anything is enumerated, the source first. */
  method Batch<T>(target: Option<seq<T>>, batchSizes: Option<seq<int>>)
    returns (r: Result<seq<seq<T>>>)
    ensures target.None? ==> r == Err(ArgumentNull("target"))
    ensures target.Some? && batchSizes.None? ==> r == Err(ArgumentNull("batchSizes"))
    ensures target.Some? && batchSizes.Some? ==>
      r == Ok(BatchSpec(target.value, batchSizes.value))
  {
    if target.None? {
      return Err(ArgumentNull("target"));
    }
    if batchSizes.None? {
      return Err(ArgumentNull("batchSizes"));
    }
    var batches := BatchImpl(target.value, batchSizes.value);
    r := Ok(batches);
  }
}
