/** The MSI registry form of a GUID: the 32 hex digits of the GUID are cut into
    groups of 8, 4, 4 and eight groups of 2, and each group is reversed in
    place. Reversing the same groups again restores the original, so one
    operation converts in both directions. */
module Windows {
  import opened Linq

  /** The group sizes the conversion batches the 32 digits by. */
  const GroupSizes: seq<int> := [8, 4, 4, 2, 2, 2, 2, 2, 2, 2, 2]

  function Reverse<T>(s: seq<T>): (r: seq<T>)
    ensures |r| == |s|
  {
    if s == [] then [] else Reverse(s[1..]) + [s[0]]
  }

  /** Every group reversed, then joined end to end. */
  function ConcatReversed<T>(groups: seq<seq<T>>): seq<T>
  {
    if groups == [] then [] else Reverse(groups[0]) + ConcatReversed(groups[1..])
  }

  /** The conversion, on the 32-digit form of the GUID. */
  function Convert(digits: seq<char>): (r: seq<char>)
    requires |digits| == 32
    ensures |r| == 32
  {
    GroupSizesPartition32();
    ReverseGroupsLength(digits, GroupSizes);
    ConcatReversed(BatchSpec(digits, GroupSizes))
  }

  /** The sizes cut a sequence of length `n` into whole groups: every size is
      positive and they add up to exactly `n`. */
  predicate Partitions(sizes: seq<int>, n: int)
  {
    if sizes == [] then n == 0 else 0 < sizes[0] <= n && Partitions(sizes[1..], n - sizes[0])
  }

  /** Where group `j` starts. */
  function Offset(sizes: seq<int>, j: nat): int
    requires j <= |sizes|
  {
    if j == 0 then 0 else sizes[0] + Offset(sizes[1..], j - 1)
  }

  /** Element `i` of the reversal is element `|s| - 1 - i` of the original. */
  lemma {:induction false} ReverseAt<T>(s: seq<T>, i: int)
    requires 0 <= i < |s|
    ensures Reverse(s)[i] == s[|s| - 1 - i]
  {
    if i < |s| - 1 {
      ReverseAt(s[1..], i);
    }
  }

  lemma ReverseInvolutive<T>(s: seq<T>)
    ensures Reverse(Reverse(s)) == s
  {
    var r := Reverse(s);
    forall i | 0 <= i < |s| ensures Reverse(r)[i] == s[i] {
      ReverseAt(r, i);
      ReverseAt(s, |s| - 1 - i);
    }
  }

  lemma {:induction false} ReversePermutes<T>(s: seq<T>)
    ensures multiset(Reverse(s)) == multiset(s)
  {
    if s != [] {
      ReversePermutes(s[1..]);
      assert s == [s[0]] + s[1..];
    }
  }

  /** Unfolds batching over whole groups: the first group is exactly the
      first `sizes[0]` elements. */
  lemma BatchFirstGroup<T>(s: seq<T>, sizes: seq<int>)
    requires sizes != [] && Partitions(sizes, |s|)
    ensures BatchSpec(s, sizes) == [s[..sizes[0]]] + BatchSpec(s[sizes[0]..], sizes[1..])
  {
  }

  /** Reversing whole groups keeps the length. */
  lemma {:induction false} ReverseGroupsLength<T>(s: seq<T>, sizes: seq<int>)
    requires Partitions(sizes, |s|)
    ensures |ConcatReversed(BatchSpec(s, sizes))| == |s|
    decreases |sizes|
  {
    if sizes != [] {
      var k := sizes[0];
      BatchFirstGroup(s, sizes);
      ReverseGroupsLength(s[k..], sizes[1..]);
      assert BatchSpec(s, sizes)[1..] == BatchSpec(s[k..], sizes[1..]);
    }
  }

  /** Reversing whole groups only rearranges the elements. */
  lemma {:induction false} ReverseGroupsPermutes<T>(s: seq<T>, sizes: seq<int>)
    requires Partitions(sizes, |s|)
    ensures multiset(ConcatReversed(BatchSpec(s, sizes))) == multiset(s)
    decreases |sizes|
  {
    if sizes != [] {
      var k := sizes[0];
      BatchFirstGroup(s, sizes);
      ReverseGroupsPermutes(s[k..], sizes[1..]);
      ReversePermutes(s[..k]);
      assert BatchSpec(s, sizes)[1..] == BatchSpec(s[k..], sizes[1..]);
      assert s == s[..k] + s[k..];
    }
  }

  /** Reversing whole groups: the first group reversed, then the rest. */
  lemma ReverseGroupsUnfold<T>(s: seq<T>, sizes: seq<int>)
    requires sizes != [] && Partitions(sizes, |s|)
    ensures ConcatReversed(BatchSpec(s, sizes))
         == Reverse(s[..sizes[0]]) + ConcatReversed(BatchSpec(s[sizes[0]..], sizes[1..]))
  {
    BatchFirstGroup(s, sizes);
    assert BatchSpec(s, sizes)[1..] == BatchSpec(s[sizes[0]..], sizes[1..]);
  }

  /** Reversing the same whole groups twice gives back the original. */
  lemma {:induction false} ReverseGroupsInvolutive<T>(s: seq<T>, sizes: seq<int>)
    requires Partitions(sizes, |s|)
    ensures ConcatReversed(BatchSpec(ConcatReversed(BatchSpec(s, sizes)), sizes)) == s
    decreases |sizes|
  {
    if sizes != [] {
      var k := sizes[0];
      var head := Reverse(s[..k]);
      var tail := ConcatReversed(BatchSpec(s[k..], sizes[1..]));
      var t := ConcatReversed(BatchSpec(s, sizes));
      ReverseGroupsUnfold(s, sizes);
      assert t == head + tail;
      ReverseGroupsLength(s, sizes);
      assert t[..k] == head && t[k..] == tail;
      ReverseGroupsUnfold(t, sizes);
      ReverseGroupsInvolutive(s[k..], sizes[1..]);
      ReverseInvolutive(s[..k]);
      assert s == s[..k] + s[k..];
    }
  }

  /** Group `j` of a partition is non-empty and lies within the whole. */
  lemma {:induction false} GroupInBounds(sizes: seq<int>, n: int, j: nat)
    requires Partitions(sizes, n) && j < |sizes|
    ensures 0 < sizes[j] && 0 <= Offset(sizes, j) && Offset(sizes, j) + sizes[j] <= n
    decreases j
  {
    if j > 0 {
      GroupInBounds(sizes[1..], n - sizes[0], j - 1);
    }
  }

  lemma SliceAfterPrefix<T>(a: seq<T>, b: seq<T>, lo: int, hi: int)
    requires 0 <= lo <= hi <= |b|
    ensures (a + b)[|a| + lo..|a| + hi] == b[lo..hi]
  {
  }

  /** Group `j` of the result is group `j` of the input, reversed. */
  lemma {:induction false} ReverseGroupsAt<T>(s: seq<T>, sizes: seq<int>, j: nat)
    requires Partitions(sizes, |s|) && j < |sizes|
    ensures var o, m, t := Offset(sizes, j), sizes[j], ConcatReversed(BatchSpec(s, sizes));
      |t| == |s| && 0 <= o && 0 < m && o + m <= |s| && t[o..o + m] == Reverse(s[o..o + m])
    decreases j
  {
    var k := sizes[0];
    GroupInBounds(sizes, |s|, j);
    ReverseGroupsLength(s, sizes);
    var t := ConcatReversed(BatchSpec(s, sizes));
    var tail := ConcatReversed(BatchSpec(s[k..], sizes[1..]));
    ReverseGroupsUnfold(s, sizes);
    if j == 0 {
      assert t[0..k] == Reverse(s[..k]);
      assert s[0..k] == s[..k];
    } else {
      ReverseGroupsAt(s[k..], sizes[1..], j - 1);
      var o := Offset(sizes[1..], j - 1);
      var m := sizes[j];
      assert sizes[1..][j - 1] == m;
      SliceAfterPrefix(Reverse(s[..k]), tail, o, o + m);
      assert s[k..][o..o + m] == s[k + o..k + o + m];
    }
  }

  lemma PartitionsCons(size: int, rest: seq<int>, n: int)
    requires 0 < size <= n && Partitions(rest, n - size)
    ensures Partitions([size] + rest, n)
  {
    assert ([size] + rest)[1..] == rest;
  }

  /** The group sizes add up to the 32 digits of a GUID: each step puts one
      more size in front, from the last to the first. */
  lemma GroupSizesPartition32()
    ensures Partitions(GroupSizes, 32)
  {
    PartitionsCons(2, [], 2);
    PartitionsCons(2, [2], 4);
    PartitionsCons(2, [2, 2], 6);
    PartitionsCons(2, [2, 2, 2], 8);
    PartitionsCons(2, [2, 2, 2, 2], 10);
    PartitionsCons(2, [2, 2, 2, 2, 2], 12);
    PartitionsCons(2, [2, 2, 2, 2, 2, 2], 14);
    PartitionsCons(2, [2, 2, 2, 2, 2, 2, 2], 16);
    PartitionsCons(4, [2, 2, 2, 2, 2, 2, 2, 2], 20);
    PartitionsCons(4, [4, 2, 2, 2, 2, 2, 2, 2, 2], 24);
    PartitionsCons(8, [4, 4, 2, 2, 2, 2, 2, 2, 2, 2], 32);
  }


  /** The result has the input's length and the same digits, rearranged, so
      hex digits stay hex digits. */
  lemma ConvertPermutes(digits: seq<char>)
    requires |digits| == 32
    ensures |Convert(digits)| == 32
    ensures multiset(Convert(digits)) == multiset(digits)
  {
    GroupSizesPartition32();
    ReverseGroupsPermutes(digits, GroupSizes);
  }

  /** Converting twice gives back the original: the conversion is its own
      inverse. */
  lemma ConvertInvolutive(digits: seq<char>)
    requires |digits| == 32
    ensures |Convert(digits)| == 32
    ensures Convert(Convert(digits)) == digits
  {
    GroupSizesPartition32();
    ConvertPermutes(digits);
    ReverseGroupsInvolutive(digits, GroupSizes);
  }

  /** Each of the 11 groups of the result is the same group of the input,
      reversed; the groups start at 0, 8, 12, 16, 18, ..., 30. */
  lemma ConvertReversesGroup(digits: seq<char>, j: nat)
    requires |digits| == 32 && j < 11
    ensures var o, m := Offset(GroupSizes, j), GroupSizes[j];
      0 <= o && 0 < m && o + m <= 32 && Convert(digits)[o..o + m] == Reverse(digits[o..o + m])
  {
    GroupSizesPartition32();
    ReverseGroupsAt(digits, GroupSizes, j);
  }

  lemma SplitAt<T>(e: seq<T>, k: int)
    requires 0 <= k <= |e|
    ensures e == e[..k] + e[k..]
  {
  }

  /** `e` is `s` with each of the groups `sizes` cuts it into reversed. */
  ghost predicate GroupsReversed<T>(s: seq<T>, sizes: seq<int>, e: seq<T>)
  {
    if sizes == [] then s == [] && e == []
    else
      0 < sizes[0] <= |s| && sizes[0] <= |e|
      && Reverse(s[..sizes[0]]) == e[..sizes[0]]
      && GroupsReversed(s[sizes[0]..], sizes[1..], e[sizes[0]..])
  }

  /** Reversing whole groups gives exactly the sequence whose groups are the
      reversed groups of the input. */
  lemma {:induction false} ReverseGroupsMatch<T>(s: seq<T>, sizes: seq<int>, e: seq<T>)
    requires GroupsReversed(s, sizes, e)
    ensures Partitions(sizes, |s|)
    ensures ConcatReversed(BatchSpec(s, sizes)) == e
    decreases |sizes|
  {
    if sizes != [] {
      var k := sizes[0];
      ReverseGroupsMatch(s[k..], sizes[1..], e[k..]);
      SplitAt(e, k);
      ReverseGroupsUnfold(s, sizes);
    }
  }

  /** Puts one more group in front: group `g` of the input, reversed, is
      group `r` of the output. */
  lemma GroupsReversedCons<T>(g: seq<T>, r: seq<T>, s: seq<T>, sizes: seq<int>, e: seq<T>)
    requires g != [] && Reverse(g) == r && GroupsReversed(s, sizes, e)
    ensures GroupsReversed(g + s, [|g|] + sizes, r + e)
  {
    assert (g + s)[..|g|] == g && (g + s)[|g|..] == s;
    assert (r + e)[..|g|] == r && (r + e)[|g|..] == e;
    assert ([|g|] + sizes)[1..] == sizes;
  }

  /** The two-digit groups of the documented example: each one reversed is
      the matching group of the converted identifier. */
  lemma ExampleShortGroups()
    ensures GroupsReversed("AE" + ("20" + ("3C" + ("5E" + ("2E" + ("70" + ("40" + ("77" + []))))))),
                           [2] + ([2] + ([2] + ([2] + ([2] + ([2] + ([2] + ([2] + []))))))),
                           "EA" + ("02" + ("C3" + ("E5" + ("E2" + ("07" + ("04" + ("77" + []))))))))
  {
    var s: seq<char>, sizes: seq<int>, e: seq<char> := [], [], [];
    assert GroupsReversed(s, sizes, e);
    GroupsReversedCons("77", "77", s, sizes, e);
    s, sizes, e := "77" + s, [2] + sizes, "77" + e;
    GroupsReversedCons("40", "04", s, sizes, e);
    s, sizes, e := "40" + s, [2] + sizes, "04" + e;
    GroupsReversedCons("70", "07", s, sizes, e);
    s, sizes, e := "70" + s, [2] + sizes, "07" + e;
    GroupsReversedCons("2E", "E2", s, sizes, e);
    s, sizes, e := "2E" + s, [2] + sizes, "E2" + e;
    GroupsReversedCons("5E", "E5", s, sizes, e);
    s, sizes, e := "5E" + s, [2] + sizes, "E5" + e;
    GroupsReversedCons("3C", "C3", s, sizes, e);
    s, sizes, e := "3C" + s, [2] + sizes, "C3" + e;
    GroupsReversedCons("20", "02", s, sizes, e);
    s, sizes, e := "20" + s, [2] + sizes, "02" + e;
    GroupsReversedCons("AE", "EA", s, sizes, e);
    s, sizes, e := "AE" + s, [2] + sizes, "EA" + e;
  }

  /** The whole documented example, group by group, putting the three long
      groups in front of the short ones from the last to the first. */
  lemma ExampleGroups()
    ensures GroupsReversed("5C6F5296" + ("AC5D" + ("40FD" + ("AE" + ("20" + ("3C" + ("5E" + ("2E" + ("70" + ("40" + ("77" + [])))))))))),
                           [8] + ([4] + ([4] + ([2] + ([2] + ([2] + ([2] + ([2] + ([2] + ([2] + ([2] + [])))))))))),
                           "6925F6C5" + ("D5CA" + ("DF04" + ("EA" + ("02" + ("C3" + ("E5" + ("E2" + ("07" + ("04" + ("77" + [])))))))))))
  {
    ExampleShortGroups();
    var s: seq<char>, sizes: seq<int>, e: seq<char> :=
      "AE" + ("20" + ("3C" + ("5E" + ("2E" + ("70" + ("40" + ("77" + []))))))),
      [2] + ([2] + ([2] + ([2] + ([2] + ([2] + ([2] + ([2] + []))))))),
      "EA" + ("02" + ("C3" + ("E5" + ("E2" + ("07" + ("04" + ("77" + [])))))));
    GroupsReversedCons("40FD", "DF04", s, sizes, e);
    s, sizes, e := "40FD" + s, [4] + sizes, "DF04" + e;
    GroupsReversedCons("AC5D", "D5CA", s, sizes, e);
    s, sizes, e := "AC5D" + s, [4] + sizes, "D5CA" + e;
    GroupsReversedCons("5C6F5296", "6925F6C5", s, sizes, e);
    s, sizes, e := "5C6F5296" + s, [8] + sizes, "6925F6C5" + e;
  }


  /** The documented example: 5C6F5296-AC5D-40FD-AE20-3C5E2E704077 converts
      to 6925F6C5-D5CA-DF04-EA02-C3E5E2070477 (shown without hyphens). The
      "N" format writes lowercase digits; case does not matter, since the
      conversion only moves characters and never looks at them. */
  lemma ConvertExample(digits: seq<char>, expected: seq<char>)
    requires digits == "5C6F5296AC5D40FDAE203C5E2E704077"
    requires expected == "6925F6C5D5CADF04EA02C3E5E2070477"
    ensures Convert(digits) == expected
  {
    assert digits == "5C6F5296" + ("AC5D" + ("40FD" + ("AE" + ("20" + ("3C" + ("5E" + ("2E" + ("70" + ("40" + ("77" + []))))))))));
    assert expected == "6925F6C5" + ("D5CA" + ("DF04" + ("EA" + ("02" + ("C3" + ("E5" + ("E2" + ("07" + ("04" + ("77" + []))))))))));
    assert GroupSizes == [8] + ([4] + ([4] + ([2] + ([2] + ([2] + ([2] + ([2] + ([2] + ([2] + ([2] + []))))))))));
    ExampleGroups();
    ReverseGroupsMatch(digits, GroupSizes, expected);
  }

  /** A hexadecimal digit, in either case. */
  predicate IsHexDigit(c: char)
  {
    '0' <= c <= '9' || 'a' <= c <= 'f' || 'A' <= c <= 'F'
  }

  /** A GUID's digits convert to hex digits again. */
  lemma ConvertKeepsHexDigits(digits: seq<char>)
    requires |digits| == 32
    requires forall i | 0 <= i < 32 :: IsHexDigit(digits[i])
    ensures forall i | 0 <= i < 32 :: IsHexDigit(Convert(digits)[i])
  {
    ConvertPermutes(digits);
    var r := Convert(digits);
    forall i | 0 <= i < 32 ensures IsHexDigit(r[i]) {
      assert r[i] in multiset(r);
      assert r[i] in multiset(digits);
      var k :| 0 <= k < 32 && digits[k] == r[i];
    }
  }
}
