/** The bottom-up merge sort that sorting an array uses (src/util/Util.h), and why it is stable
    although the comparator it is given is a strict order. */
module MergeSort {
  import opened Limits
  import opened Sequences

  /** The comparators for which the standard fixes the outcome of a sort. */
  ghost predicate IsStrictWeakOrder<T(!new)>(less: (T, T) -> bool) {
    && (forall a, b, c :: less(a, b) && less(b, c) ==> less(a, c))
    && (forall a, b, c :: !less(a, b) && !less(b, c) ==> !less(a, c))
    && (forall a :: !less(a, a))
  }

  /** Inserts `x` before the first element it is less than. */
  function Insert<T>(s: seq<T>, x: T, less: (T, T) -> bool): (r: seq<T>)
    ensures |r| == |s| + 1
  {
    if s == [] then [x]
    else if less(x, s[0]) then [x] + s
    else [s[0]] + Insert(s[1..], x, less)
  }

  /** Insertion sort from left to right, the reference: equal elements keep their order because
      each goes behind those already there. */
  function StableSort<T>(s: seq<T>, less: (T, T) -> bool): (r: seq<T>)
    ensures |r| == |s|
  {
    if s == [] then [] else Insert(StableSort(s[..|s| - 1], less), s[|s| - 1], less)
  }

  /** No element is less than one before it. */
  ghost predicate IsSorted<T>(s: seq<T>, less: (T, T) -> bool) {
    forall i, j :: 0 <= i < j < |s| ==> !less(s[j], s[i])
  }

  /** `y` itself if `less` cannot tell it from `x`. */
  ghost function Tie<T>(y: T, x: T, less: (T, T) -> bool): seq<T> {
    if less(y, x) || less(x, y) then [] else [y]
  }

  /** The elements of `s` that `less` cannot tell from `x`, in order. */
  ghost function Ties<T>(s: seq<T>, x: T, less: (T, T) -> bool): seq<T> {
    if s == [] then [] else Tie(s[0], x, less) + Ties(s[1..], x, less)
  }

  lemma TiesOfCons<T>(h: T, t: seq<T>, x: T, less: (T, T) -> bool)
    ensures Ties([h] + t, x, less) == Tie(h, x, less) + Ties(t, x, less)
  {
    assert ([h] + t)[1..] == t;
  }

  lemma {:induction false} InsertKeepsSorted<T(!new)>(s: seq<T>, x: T, less: (T, T) -> bool)
    requires IsStrictWeakOrder(less) && IsSorted(s, less)
    ensures IsSorted(Insert(s, x, less), less)
    ensures forall y :: y in Insert(s, x, less) ==> y == x || y in s
  {
    if s != [] && !less(x, s[0]) {
      InsertKeepsSorted(s[1..], x, less);
      var t := Insert(s[1..], x, less);
      forall j | 0 <= j < |t| ensures !less(t[j], s[0]) {
        assert t[j] in t;
        if t[j] != x {
          var k :| 1 <= k < |s| && s[k] == t[j];
        }
      }
    } else if s != [] {
      forall j | 0 <= j < |s| ensures !less(s[j], x) {}
    }
  }

  lemma {:induction false} NoTiesAbove<T(!new)>(s: seq<T>, x: T, less: (T, T) -> bool)
    requires forall i :: 0 <= i < |s| ==> less(x, s[i])
    ensures Ties(s, x, less) == []
  {
    if s != [] {
      NoTiesAbove(s[1..], x, less);
    }
  }

  lemma {:induction false} InsertKeepsTies<T(!new)>(s: seq<T>, x: T, y: T, less: (T, T) -> bool)
    requires IsStrictWeakOrder(less) && IsSorted(s, less)
    ensures Ties(Insert(s, x, less), y, less) == Ties(s, y, less) + Tie(x, y, less)
  {
    if s == [] {
      TiesOfCons(x, [], y, less);
      assert [x] + [] == [x];
    } else if less(x, s[0]) {
      TiesOfCons(x, s, y, less);
      if !less(x, y) && !less(y, x) {
        forall i | 0 <= i < |s| ensures less(y, s[i]) {}
        NoTiesAbove(s, y, less);
      }
    } else {
      InsertKeepsTies(s[1..], x, y, less);
      TiesOfCons(s[0], Insert(s[1..], x, less), y, less);
      Associative(Tie(s[0], y, less), Ties(s[1..], y, less), Tie(x, y, less));
    }
  }

  lemma {:induction false} TiesOfSnoc<T>(s: seq<T>, x: T, y: T, less: (T, T) -> bool)
    ensures Ties(s + [x], y, less) == Ties(s, y, less) + Tie(x, y, less)
  {
    if s == [] {
      TiesOfCons(x, [], y, less);
      assert s + [x] == [x] + [];
    } else {
      TiesOfSnoc(s[1..], x, y, less);
      assert s + [x] == [s[0]] + (s[1..] + [x]);
      TiesOfCons(s[0], s[1..] + [x], y, less);
      Associative(Tie(s[0], y, less), Ties(s[1..], y, less), Tie(x, y, less));
    }
  }

  /** The reference sorts, and elements the comparator cannot tell apart keep their order. */
  lemma {:induction false} StableSortIsStable<T(!new)>(s: seq<T>, less: (T, T) -> bool)
    requires IsStrictWeakOrder(less)
    ensures IsSorted(StableSort(s, less), less)
    ensures forall y :: Ties(StableSort(s, less), y, less) == Ties(s, y, less)
  {
    if s != [] {
      var rest, x := s[..|s| - 1], s[|s| - 1];
      StableSortIsStable(rest, less);
      InsertKeepsSorted(StableSort(rest, less), x, less);
      assert s == rest + [x];
      forall y ensures Ties(StableSort(s, less), y, less) == Ties(s, y, less) {
        InsertKeepsTies(StableSort(rest, less), x, y, less);
        TiesOfSnoc(rest, x, y, less);
      }
    }
  }

  /** Merges two runs, taking from the right one only what is strictly less. */
  function MergeRuns<T>(a: seq<T>, b: seq<T>, less: (T, T) -> bool): (r: seq<T>)
    ensures |r| == |a| + |b|
    decreases |a| + |b|
  {
    if b == [] then a
    else if a == [] then b
    else if less(b[0], a[0]) then [b[0]] + MergeRuns(a, b[1..], less)
    else [a[0]] + MergeRuns(a[1..], b, less)
  }

  /** One round: merges neighbouring runs of length `width`. */
  function MergeRound<T>(s: seq<T>, width: nat, less: (T, T) -> bool): (r: seq<T>)
    requires 0 < width
    ensures |r| == |s|
    decreases |s|
  {
    if s == [] then []
    else
      var middle, end := Min(width, |s|), Min(2 * width, |s|);
      MergeRuns(s[..middle], s[middle..end], less) + MergeRound(s[end..], width, less)
  }

  /** All rounds, the width doubling. */
  function MergeRounds<T>(s: seq<T>, width: nat, less: (T, T) -> bool): seq<T>
    requires 0 < width
    decreases |s| - width
  {
    if |s| <= width then s else MergeRounds(MergeRound(s, width, less), 2 * width, less)
  }

  /** Whatever the comparator answers, merging only rearranges. */
  lemma {:induction false} MergeRunsPermutes<T>(a: seq<T>, b: seq<T>, less: (T, T) -> bool)
    ensures multiset(MergeRuns(a, b, less)) == multiset(a) + multiset(b)
    decreases |a| + |b|
  {
    if a != [] && b != [] {
      var r := MergeRuns(a, b, less);
      MultisetUncons(r);
      if less(b[0], a[0]) {
        MergeRunsPermutes(a, b[1..], less);
        MultisetUncons(b);
        assert r[0] == b[0] && r[1..] == MergeRuns(a, b[1..], less);
      } else {
        MergeRunsPermutes(a[1..], b, less);
        MultisetUncons(a);
        assert r[0] == a[0] && r[1..] == MergeRuns(a[1..], b, less);
      }
    }
  }

  lemma {:induction false} MergeRoundPermutes<T>(s: seq<T>, width: nat, less: (T, T) -> bool)
    requires 0 < width
    ensures multiset(MergeRound(s, width, less)) == multiset(s)
    decreases |s|
  {
    if s != [] {
      var middle, end := Min(width, |s|), Min(2 * width, |s|);
      MergeRunsPermutes(s[..middle], s[middle..end], less);
      MergeRoundPermutes(s[end..], width, less);
      Thirds(s, middle, end);
    }
  }

  /** Whatever the comparator answers, sorting only rearranges. */
  lemma {:induction false} MergeSortPermutes<T>(s: seq<T>, width: nat, less: (T, T) -> bool)
    requires 0 < width
    ensures multiset(MergeRounds(s, width, less)) == multiset(s)
    decreases |s| - width
  {
    if width < |s| {
      MergeRoundPermutes(s, width, less);
      MergeSortPermutes(MergeRound(s, width, less), 2 * width, less);
    }
  }

  lemma InsertCons<T>(h: T, t: seq<T>, x: T, less: (T, T) -> bool)
    ensures Insert([h] + t, x, less) == if less(x, h) then [x, h] + t else [h] + Insert(t, x, less)
  {
    assert ([h] + t)[1..] == t && [x] + ([h] + t) == [x, h] + t;
  }

  /** Inserting into the right run and merging is merging and inserting. */
  lemma {:induction false} MergeOfInsert<T(!new)>(a: seq<T>, b: seq<T>, x: T, less: (T, T) -> bool)
    requires IsStrictWeakOrder(less)
    ensures MergeRuns(a, Insert(b, x, less), less) == Insert(MergeRuns(a, b, less), x, less)
    decreases |a| + |b|
  {
    if a != [] && b != [] {
      if !less(x, b[0]) && less(b[0], a[0]) {
        MergeOfInsert(a, b[1..], x, less);
        InsertCons(b[0], MergeRuns(a, b[1..], less), x, less);
        assert ([b[0]] + Insert(b[1..], x, less))[1..] == Insert(b[1..], x, less);
      } else if !less(x, a[0]) {
        MergeOfInsert(a[1..], b, x, less);
        InsertCons(a[0], MergeRuns(a[1..], b, less), x, less);
      } else {
        assert ([x] + b)[1..] == b;
      }
    } else if a != [] {
      if !less(x, a[0]) {
        MergeOfInsert(a[1..], b, x, less);
      }
      assert [x][1..] == [];
    }
  }

  /** Merging two stably sorted runs sorts their concatenation stably. */
  lemma {:induction false} MergeOfSorted<T(!new)>(a: seq<T>, b: seq<T>, less: (T, T) -> bool)
    requires IsStrictWeakOrder(less)
    ensures MergeRuns(StableSort(a, less), StableSort(b, less), less) == StableSort(a + b, less)
    decreases |b|
  {
    if b == [] {
      assert a + b == a;
    } else {
      var rest, x := b[..|b| - 1], b[|b| - 1];
      MergeOfSorted(a, rest, less);
      MergeOfInsert(StableSort(a, less), StableSort(rest, less), x, less);
      assert (a + b)[..|a + b| - 1] == a + rest;
    }
  }

  /** `s` with every run of length `width` stably sorted. */
  function SortRuns<T>(s: seq<T>, width: nat, less: (T, T) -> bool): (r: seq<T>)
    requires 0 < width
    ensures |r| == |s|
    decreases |s|
  {
    if s == [] then []
    else
      var end := Min(width, |s|);
      StableSort(s[..end], less) + SortRuns(s[end..], width, less)
  }

  /** The first two runs, when there are two. */
  lemma FirstTwoRuns<T>(s: seq<T>, width: nat, less: (T, T) -> bool)
    requires 0 < width < |s|
    ensures var end := Min(2 * width, |s|);
      SortRuns(s, width, less) ==
        StableSort(s[..width], less) + (StableSort(s[width..end], less) + SortRuns(s[end..], width, less))
  {
    var end, t := Min(2 * width, |s|), s[width..];
    assert SortRuns(t, width, less) == StableSort(t[..end - width], less) + SortRuns(t[end - width..], width, less);
    assert t[..end - width] == s[width..end] && t[end - width..] == s[end..] by {
      CutOfDrop(s, width, end, end);
    }
  }

  /** A round, cut where its first two runs end. */
  lemma RoundCut<T>(s: seq<T>, middle: nat, end: nat, width: nat, less: (T, T) -> bool)
    requires s != [] && 0 < width && middle == Min(width, |s|) && end == Min(2 * width, |s|)
    ensures MergeRound(s, width, less) ==
      MergeRuns(s[..middle], s[middle..end], less) + MergeRound(s[end..], width, less)
  {
  }

  /** A round over two runs and a rest. */
  lemma RoundOfJoined<T>(a: seq<T>, b: seq<T>, rest: seq<T>, width: nat, less: (T, T) -> bool)
    requires 0 < width == |a| && 0 < |b| <= width && (|b| < width ==> rest == [])
    ensures MergeRound(a + (b + rest), width, less) == MergeRuns(a, b, less) + MergeRound(rest, width, less)
  {
    Joints(a, b, rest);
    RoundCut(a + (b + rest), |a|, |a| + |b|, width, less);
  }

  lemma FirstTwoRunsMerge<T(!new)>(s: seq<T>, end: nat, width: nat, less: (T, T) -> bool)
    requires IsStrictWeakOrder(less) && 0 < width < |s| && end == Min(2 * width, |s|)
    ensures MergeRound(SortRuns(s, width, less), width, less) ==
      StableSort(s[..end], less) + MergeRound(SortRuns(s[end..], width, less), width, less)
  {
    FirstTwoRuns(s, width, less);
    RoundOfJoined(StableSort(s[..width], less), StableSort(s[width..end], less), SortRuns(s[end..], width, less),
      width, less);
    MergeOfSorted(s[..width], s[width..end], less);
    assert s[..width] + s[width..end] == s[..end];
  }

  lemma RoundOfOne<T>(t: seq<T>, width: nat, less: (T, T) -> bool)
    requires 0 < |t| <= width
    ensures MergeRound(t, width, less) == t
  {
    assert t[..|t|] == t && t[|t|..|t|] == [] && t[|t|..] == [];
  }

  lemma OneRun<T>(s: seq<T>, width: nat, less: (T, T) -> bool)
    requires 0 < |s| <= width
    ensures SortRuns(s, width, less) == StableSort(s, less)
  {
    assert s[..|s|] == s && s[|s|..] == [];
  }

  /** A round doubles the length of the sorted runs. */
  lemma {:induction false} RoundDoublesRuns<T(!new)>(s: seq<T>, width: nat, less: (T, T) -> bool)
    requires IsStrictWeakOrder(less) && 0 < width
    ensures MergeRound(SortRuns(s, width, less), width, less) == SortRuns(s, 2 * width, less)
    decreases |s|
  {
    if width < |s| {
      var end := Min(2 * width, |s|);
      RoundDoublesRuns(s[end..], width, less);
      FirstTwoRunsMerge(s, end, width, less);
    } else if s != [] {
      OneRun(s, width, less);
      OneRun(s, 2 * width, less);
      RoundOfOne(StableSort(s, less), width, less);
    }
  }

  lemma {:induction false} RoundsSort<T(!new)>(s: seq<T>, width: nat, less: (T, T) -> bool)
    requires IsStrictWeakOrder(less) && 0 < width
    ensures MergeRounds(SortRuns(s, width, less), width, less) == StableSort(s, less)
    decreases |s| - width
  {
    if width < |s| {
      RoundDoublesRuns(s, width, less);
      RoundsSort(s, 2 * width, less);
    } else if s != [] {
      OneRun(s, width, less);
    }
  }

  lemma {:induction false} SinglesAreSorted<T>(s: seq<T>, less: (T, T) -> bool)
    ensures SortRuns(s, 1, less) == s
    decreases |s|
  {
    if s != [] {
      SinglesAreSorted(s[1..], less);
      assert s[..1] == [s[0]] && [s[0]][..0] == [];
      assert StableSort([s[0]], less) == Insert([], s[0], less);
    }
  }

  /** With a consistent comparator the merge sort is the stable sort. */
  lemma MergeSortIsStableSort<T(!new)>(s: seq<T>, less: (T, T) -> bool)
    requires IsStrictWeakOrder(less)
    ensures MergeRounds(s, 1, less) == StableSort(s, less)
  {
    SinglesAreSorted(s, less);
    RoundsSort(s, 1, less);
  }

  lemma MergeStep<T>(a: seq<T>, b: seq<T>, less: (T, T) -> bool)
    requires a != [] || b != []
    ensures MergeRuns(a, b, less) ==
      if b != [] && (a == [] || less(b[0], a[0])) then [b[0]] + MergeRuns(a, b[1..], less)
      else [a[0]] + MergeRuns(a[1..], b, less)
  {
  }

  lemma MergeSlices<T>(s: seq<T>, left: nat, leftEnd: nat, right: nat, rightEnd: nat, less: (T, T) -> bool)
    requires left <= leftEnd <= |s| && right <= rightEnd <= |s|
    requires left < leftEnd || right < rightEnd
    ensures MergeRuns(s[left..leftEnd], s[right..rightEnd], less) ==
      if right < rightEnd && (left == leftEnd || less(s[right], s[left]))
      then [s[right]] + MergeRuns(s[left..leftEnd], s[right + 1..rightEnd], less)
      else [s[left]] + MergeRuns(s[left + 1..leftEnd], s[right..rightEnd], less)
  {
    MergeStep(s[left..leftEnd], s[right..rightEnd], less);
    if right < rightEnd { TakeOfSlice(s, right, rightEnd); }
    if left < leftEnd { TakeOfSlice(s, left, leftEnd); }
  }

  /** What is written behind `done` once `left` and `right` have been reached. */
  function MergeInto<T>(done: seq<T>, s: seq<T>, left: nat, leftEnd: nat, right: nat, rightEnd: nat,
                        less: (T, T) -> bool): seq<T>
    requires left <= leftEnd <= |s| && right <= rightEnd <= |s|
    decreases leftEnd - left + rightEnd - right
  {
    if right < rightEnd && (left == leftEnd || less(s[right], s[left])) then
      MergeInto(done + [s[right]], s, left, leftEnd, right + 1, rightEnd, less)
    else if left < leftEnd then
      MergeInto(done + [s[left]], s, left + 1, leftEnd, right, rightEnd, less)
    else done
  }

  lemma MergeIntoStep<T>(done: seq<T>, s: seq<T>, left: nat, leftEnd: nat, right: nat, rightEnd: nat,
                         less: (T, T) -> bool)
    requires left <= leftEnd <= |s| && right <= rightEnd <= |s|
    requires left < leftEnd || right < rightEnd
    ensures MergeInto(done, s, left, leftEnd, right, rightEnd, less) ==
      if right < rightEnd && (left == leftEnd || less(s[right], s[left]))
      then MergeInto(done + [s[right]], s, left, leftEnd, right + 1, rightEnd, less)
      else MergeInto(done + [s[left]], s, left + 1, leftEnd, right, rightEnd, less)
  {
  }

  lemma {:induction false} MergeIntoIsMerge<T>(done: seq<T>, s: seq<T>, left: nat, leftEnd: nat, right: nat,
      rightEnd: nat, less: (T, T) -> bool)
    requires left <= leftEnd <= |s| && right <= rightEnd <= |s|
    ensures MergeInto(done, s, left, leftEnd, right, rightEnd, less) ==
      done + MergeRuns(s[left..leftEnd], s[right..rightEnd], less)
    decreases leftEnd - left + rightEnd - right
  {
    if left < leftEnd || right < rightEnd {
      MergeSlices(s, left, leftEnd, right, rightEnd, less);
      if right < rightEnd && (left == leftEnd || less(s[right], s[left])) {
        MergeIntoIsMerge(done + [s[right]], s, left, leftEnd, right + 1, rightEnd, less);
        Associative(done, [s[right]], MergeRuns(s[left..leftEnd], s[right + 1..rightEnd], less));
      } else {
        MergeIntoIsMerge(done + [s[left]], s, left + 1, leftEnd, right, rightEnd, less);
        Associative(done, [s[left]], MergeRuns(s[left + 1..leftEnd], s[right..rightEnd], less));
      }
    }
  }

  /** Writes one element behind those already written. */
  method Place<T>(dst: array<T>, at: nat, element: T)
    requires at < dst.Length
    modifies dst
    ensures dst[..at + 1] == old(dst[..at]) + [element]
  {
    dst[at] := element;
  }

  /** Takes the next element of the two runs, from the right one only if it is strictly less. */
  method TakeNext<T>(dst: array<T>, src: array<T>, dstIndex: nat, left: nat, leftEnd: nat, right: nat, rightEnd: nat,
                     less: (T, T) -> bool, ghost s: seq<T>, ghost merged: seq<T>)
    returns (nextLeft: nat, nextRight: nat)
    requires dst != src && dstIndex < dst.Length && s == src[..]
    requires left <= leftEnd <= |s| && right <= rightEnd <= |s| && (left < leftEnd || right < rightEnd)
    requires merged == MergeInto(dst[..dstIndex], s, left, leftEnd, right, rightEnd, less)
    modifies dst
    ensures left <= nextLeft <= leftEnd && right <= nextRight <= rightEnd && nextLeft + nextRight == left + right + 1
    ensures merged == MergeInto(dst[..dstIndex + 1], s, nextLeft, leftEnd, nextRight, rightEnd, less)
  {
    MergeIntoStep(dst[..dstIndex], s, left, leftEnd, right, rightEnd, less);
    assert left < leftEnd ==> src[left] == s[left];
    assert right < rightEnd ==> src[right] == s[right];
    nextLeft, nextRight := left, right;
    var element;
    if right < rightEnd && (left >= leftEnd || less(src[right], src[left])) {
      element := src[right];
      nextRight := right + 1;
    } else {
      element := src[left];
      nextLeft := left + 1;
    }
    Place(dst, dstIndex, element);
  }

  /** Merges the two runs that begin at `srcIndex`; `s` is what the source array holds. */
  method Merge<T>(dst: array<T>, src: array<T>, srcIndex: nat, width: nat, less: (T, T) -> bool,
                  ghost s: seq<T>, ghost middle: nat, ghost end: nat)
    requires dst != src && dst.Length == src.Length && srcIndex < src.Length && 0 < width
    requires s == src[..] && middle == Min(srcIndex + width, |s|) && end == Min(middle + width, |s|)
    modifies dst
    ensures dst[..end] == old(dst[..srcIndex]) + MergeRuns(s[srcIndex..middle], s[middle..end], less)
  {
    var left := srcIndex;
    var leftEnd := Min(left + width, src.Length);
    var right := leftEnd;
    var rightEnd := Min(right + width, src.Length);
    MergeIntoIsMerge(dst[..srcIndex], s, left, leftEnd, right, rightEnd, less);
    ghost var merged := MergeInto(dst[..srcIndex], s, left, leftEnd, right, rightEnd, less);
    var dstIndex := left;
    while dstIndex < rightEnd
      invariant srcIndex <= left <= leftEnd <= right <= rightEnd
      invariant srcIndex <= dstIndex <= rightEnd && dstIndex == left + (right - leftEnd)
      invariant merged == MergeInto(dst[..dstIndex], s, left, leftEnd, right, rightEnd, less)
    {
      left, right := TakeNext(dst, src, dstIndex, left, leftEnd, right, rightEnd, less, s, merged);
      dstIndex := dstIndex + 1;
    }
    assert left == leftEnd && right == rightEnd;
    assert merged == dst[..rightEnd];
  }

  lemma RoundStep<T>(s: seq<T>, i: nat, middle: nat, end: nat, width: nat, less: (T, T) -> bool)
    requires i < |s| && 0 < width && middle == Min(i + width, |s|) && end == Min(middle + width, |s|)
    ensures MergeRound(s[i..], width, less) ==
      MergeRuns(s[i..middle], s[middle..end], less) + MergeRound(s[end..], width, less)
  {
    var t, m, e := s[i..], middle - i, end - i;
    var a, b, rest := t[..m], t[m..e], t[e..];
    RoundCut(t, m, e, width, less);
    assert a == s[i..middle] && b == s[middle..end] && rest == s[end..] by {
      CutOfDrop(s, i, middle, end);
    }
  }

  /** One pair of runs is done. */
  lemma PassStep<T>(s: seq<T>, d: seq<T>, e: seq<T>, i: nat, middle: nat, end: nat, width: nat, less: (T, T) -> bool)
    requires i < |s| == |d| == |e| && 0 < width
    requires middle == Min(i + width, |s|) && end == Min(middle + width, |s|)
    requires e[..end] == d[..i] + MergeRuns(s[i..middle], s[middle..end], less)
    ensures d[..i] + MergeRound(s[i..], width, less) == e[..end] + MergeRound(s[end..], width, less)
  {
    RoundStep(s, i, middle, end, width, less);
    Associative(d[..i], MergeRuns(s[i..middle], s[middle..end], less), MergeRound(s[end..], width, less));
  }

  /** One pass over all pairs of runs. */
  method MergePass<T>(dst: array<T>, src: array<T>, width: nat, less: (T, T) -> bool)
    requires dst != src && dst.Length == src.Length && 0 < width
    modifies dst
    ensures dst[..] == MergeRound(src[..], width, less)
  {
    var srcIndex := 0;
    ghost var s, at := src[..], 0;
    assert s[0..] == s;
    while srcIndex < src.Length
      invariant 0 <= srcIndex && src[..] == s && at == Min(srcIndex, src.Length)
      invariant MergeRound(s, width, less) == dst[..at] + MergeRound(s[at..], width, less)
      decreases src.Length - srcIndex
    {
      ghost var before := dst[..];
      ghost var middle := Min(srcIndex + width, src.Length);
      at := Min(middle + width, src.Length);
      Merge(dst, src, srcIndex, width, less, s, middle, at);
      PassStep(s, before, dst[..], srcIndex, middle, at, width, less);
      srcIndex := srcIndex + 2 * width;
    }
    assert dst[..src.Length] == dst[..] && s[|s|..] == [];
  }

  /** Sorts the array, with a scratch array of the same length. */
  method Sort<T>(a: array<T>, scratch: array<T>, less: (T, T) -> bool)
    requires a != scratch && a.Length == scratch.Length
    modifies a, scratch
    ensures a[..] == MergeRounds(old(a[..]), 1, less)
  {
    var dst, src := scratch, a;
    var width := 1;
    while width < a.Length
      invariant 0 < width
      invariant (src == a && dst == scratch) || (src == scratch && dst == a)
      invariant MergeRounds(src[..], width, less) == MergeRounds(old(a[..]), 1, less)
      decreases a.Length - width
    {
      MergePass(dst, src, width, less);
      src, dst := dst, src;
      width := width * 2;
    }
    if src != a {
      var i := 0;
      ghost var sorted := src[..];
      while i < a.Length
        invariant 0 <= i <= a.Length && src[..] == sorted
        invariant a[..i] == sorted[..i]
      {
        a[i] := src[i];
        i := i + 1;
      }
      assert a[..] == a[..i] && sorted == sorted[..i];
    }
  }
}
