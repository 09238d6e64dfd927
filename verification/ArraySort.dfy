/** Array.prototype.sort (src/builtins/BuiltinArray.cpp) and the two ways it is carried out:
    on the present values only (src/runtime/Object.cpp), and on all slots of a fast-mode array at
    once (src/runtime/ArrayObject.cpp). */
module ArraySort {
  import opened Options
  import opened ArrayObjects
  import opened MergeSort
  import opened Sequences

  /** A slot as the comparator sees it: empty, undefined, or a value to compare. */
  datatype Slot<V> = Empty | Undefined | Value(value: V)

  /** The comparator of the builtin around the order `before` on values, which is either the
      order of their strings or the caller's function being negative. */
  function Compare<V>(before: (V, V) -> bool, a: Slot<V>, b: Slot<V>): bool {
    if a.Empty? && b.Undefined? then false
    else if a.Undefined? && b.Empty? then true
    else if a.Empty? || a.Undefined? then false
    else if b.Empty? || b.Undefined? then true
    else before(a.value, b.value)
  }

  function Comparator<V>(before: (V, V) -> bool): (Slot<V>, Slot<V>) -> bool {
    (a: Slot<V>, b: Slot<V>) => Compare(before, a, b)
  }

  /** Undefined values and empty slots fit behind any consistent order. */
  lemma ComparatorIsOrder<V(!new)>(before: (V, V) -> bool)
    requires IsStrictWeakOrder(before)
    ensures IsStrictWeakOrder(Comparator(before))
  {
    var less := Comparator(before);
    forall a, b, c | less(a, b) && less(b, c) ensures less(a, c) {
      assert Compare(before, a, b) && Compare(before, b, c);
    }
    forall a, b, c | !less(a, b) && !less(b, c) ensures !less(a, c) {
      assert !Compare(before, a, b) && !Compare(before, b, c);
    }
  }

  /** The values present in `[k, len)`, in index order. */
  function Present<V>(m: Elems<V>, k: nat, len: nat): (r: seq<V>)
    ensures k <= len ==> |r| <= len - k
    decreases len - k
  {
    if len <= k then []
    else if k in m then [m[k]] + Present(m, k + 1, len)
    else Present(m, k + 1, len)
  }

  lemma {:induction false} NonePresent<V>(m: Elems<V>, k: nat, next: nat, len: nat)
    requires k <= next <= len
    requires forall i: int :: k <= i < next ==> At(m, i) == None
    ensures Present(m, k, len) == Present(m, next, len)
    decreases next - k
  {
    if k < next {
      assert At(m, k) == None;
      NonePresent(m, k + 1, next, len);
    }
  }

  /** `r` is `m` with `values` packed at the front, holes up to `len` and nothing else changed. */
  ghost predicate IsPacked<V>(m: Elems<V>, len: nat, values: seq<V>, r: Elems<V>) {
    && (forall i: int {:trigger At(r, i)} :: 0 <= i < |values| ==> At(r, i) == Some(values[i]))
    && (forall i: int {:trigger At(r, i)} :: |values| <= i < len ==> At(r, i) == None)
    && (forall i: int {:trigger At(r, i)} :: i < 0 || len <= i ==> At(r, i) == At(m, i))
  }

  /** Collects the present values, jumping over holes. */
  method Collect<V>(O: ArrayObject<V>, length: nat) returns (selected: seq<V>)
    ensures selected == Present(O.elems, 0, length)
  {
    selected := [];
    var k := 0;
    while k < length
      invariant 0 <= k <= length
      invariant selected + Present(O.elems, k, length) == Present(O.elems, 0, length)
      decreases length - k
    {
      if O.Has(k) {
        Associative(selected, [O.Get(k)], Present(O.elems, k + 1, length));
        selected := selected + [O.Get(k)];
        k := k + 1;
      } else {
        var result := O.NextIndexForward(k, length);
        forall i: int | k <= i < result ensures At(O.elems, i) == None {}
        NonePresent(O.elems, k, result, length);
        k := result;
      }
    }
    assert selected + [] == selected;
  }

  /** Writes the sorted values back and deletes the rest, jumping over holes. */
  method WriteBack<V>(O: ArrayObject<V>, length: nat, selected: seq<V>)
    requires |selected| <= length
    modifies O`elems
    ensures IsPacked(old(O.elems), length, selected, O.elems)
  {
    ghost var was := O.elems;
    var i := 0;
    while i < |selected|
      invariant 0 <= i <= |selected|
      invariant forall j: int {:trigger At(O.elems, j)} :: 0 <= j < i ==> At(O.elems, j) == Some(selected[j])
      invariant forall j: int {:trigger At(O.elems, j)} :: j < 0 || i <= j ==> At(O.elems, j) == At(was, j)
    {
      O.Put(i, selected[i]);
      i := i + 1;
    }
    while i < length
      invariant |selected| <= i <= length
      invariant forall j: int {:trigger At(O.elems, j)} :: 0 <= j < |selected| ==> At(O.elems, j) == Some(selected[j])
      invariant forall j: int {:trigger At(O.elems, j)} :: |selected| <= j < i ==> At(O.elems, j) == None
      invariant forall j: int {:trigger At(O.elems, j)} :: j < 0 || length <= j ==> At(O.elems, j) == At(was, j)
      decreases length - i
    {
      if O.Has(i) {
        O.Delete(i);
        i := i + 1;
      } else {
        var result := O.NextIndexForward(i, length);
        forall j: int | i <= j < result ensures At(O.elems, j) == None {}
        i := result;
      }
    }
  }

  /** Values come in an order that `before` allows, then the undefined ones, then empty slots. */
  ghost predicate InOrder<V>(s: seq<Slot<V>>, before: (V, V) -> bool) {
    forall i, j :: 0 <= i < j < |s| ==>
      && (s[i].Value? && s[j].Value? ==> !before(s[j].value, s[i].value))
      && (s[i].Undefined? ==> !s[j].Value?)
      && (s[i].Empty? ==> s[j].Empty?)
  }

  /** The values that `before` cannot tell from `y`, in order. */
  ghost function Alike<V>(s: seq<Slot<V>>, y: V, before: (V, V) -> bool): seq<V> {
    if s == [] then []
    else
      (match s[0]
       case Value(v) => if before(v, y) || before(y, v) then [] else [v]
       case _ => [])
      + Alike(s[1..], y, before)
  }

  /** What sorting is for: `r` rearranges `source`, and if `before` is consistent it is in order
      and keeps the order of values that `before` cannot tell apart. */
  ghost predicate IsSortedOf<V(!new)>(source: seq<Slot<V>>, before: (V, V) -> bool, r: seq<Slot<V>>) {
    && multiset(r) == multiset(source)
    && (IsStrictWeakOrder(before) ==> InOrder(r, before) && forall y :: Alike(r, y, before) == Alike(source, y, before))
  }

  /** The values of slots. */
  ghost function Unwrapped<V>(s: seq<Slot<V>>): seq<V> {
    if s == [] then [] else (if s[0].Value? then [s[0].value] else []) + Unwrapped(s[1..])
  }

  lemma {:induction false} AlikeAreTies<V>(s: seq<Slot<V>>, y: V, before: (V, V) -> bool)
    ensures Alike(s, y, before) == Unwrapped(Ties(s, Value(y), Comparator(before)))
  {
    if s != [] {
      AlikeAreTies(s[1..], y, before);
      var tie, rest := Tie(s[0], Value(y), Comparator(before)), Ties(s[1..], Value(y), Comparator(before));
      assert tie == [s[0]] ==> (tie + rest)[0] == s[0] && (tie + rest)[1..] == rest;
      assert tie == [] ==> tie + rest == rest;
      assert [] + Alike(s[1..], y, before) == Alike(s[1..], y, before);
    }
  }

  lemma SortedIsInOrder<V>(s: seq<Slot<V>>, before: (V, V) -> bool)
    requires IsSorted(s, Comparator(before))
    ensures InOrder(s, before)
  {
    forall i, j | 0 <= i < j < |s|
      ensures !Compare(before, s[j], s[i])
    {
      assert !Comparator(before)(s[j], s[i]);
    }
  }

  /** Sorting rearranges whatever the comparator answers, and with a consistent one the result is
      the stable sort of the present values. */
  lemma SortedValues<V(!new)>(m: Elems<Slot<V>>, len: nat, before: (V, V) -> bool)
    ensures var present := Present(m, 0, len);
      var sorted := MergeRounds(present, 1, Comparator(before));
      && multiset(sorted) == multiset(present)
      && (IsStrictWeakOrder(before) ==>
            && sorted == StableSort(present, Comparator(before))
            && IsSorted(sorted, Comparator(before))
            && (forall y :: Ties(sorted, y, Comparator(before)) == Ties(present, y, Comparator(before))))
  {
    var present, less := Present(m, 0, len), Comparator(before);
    MergeSortPermutes(present, 1, less);
    if IsStrictWeakOrder(before) {
      ComparatorIsOrder(before);
      MergeSortIsStableSort(present, less);
      StableSortIsStable(present, less);
    }
  }

  /** The merge sort with the comparator of the builtin does what sorting is for. */
  lemma SortMeetsOrder<V(!new)>(source: seq<Slot<V>>, before: (V, V) -> bool)
    ensures IsSortedOf(source, before, MergeRounds(source, 1, Comparator(before)))
  {
    var less := Comparator(before);
    var r := MergeRounds(source, 1, less);
    MergeSortPermutes(source, 1, less);
    if IsStrictWeakOrder(before) {
      assert IsSorted(r, less) && forall y :: Ties(r, y, less) == Ties(source, y, less) by {
        ComparatorIsOrder(before);
        MergeSortIsStableSort(source, less);
        StableSortIsStable(source, less);
      }
      SortedIsInOrder(r, before);
      forall y ensures Alike(r, y, before) == Alike(source, y, before) {
        AlikeAreTies(r, y, before);
        AlikeAreTies(source, y, before);
      }
    }
  }

  lemma SameSize<V>(a: seq<V>, b: seq<V>)
    requires multiset(a) == multiset(b)
    ensures |a| == |b|
  {
    assert |multiset(a)| == |multiset(b)|;
  }

  /** Sorts the present values to the front; every element is a `Value` or `Undefined` slot. */
  method Sort<V(!new)>(O: ArrayObject<Slot<V>>, before: (V, V) -> bool) returns (ghost sorted: seq<Slot<V>>)
    modifies O`elems
    ensures sorted == MergeRounds(Present(old(O.elems), 0, O.length), 1, Comparator(before))
    ensures IsSortedOf(Present(old(O.elems), 0, O.length), before, sorted)
    ensures IsPacked(old(O.elems), O.length, sorted, O.elems)
  {
    var length := O.length;
    var selected := Collect(O, length);
    sorted := MergeRounds(selected, 1, Comparator(before));
    SortMeetsOrder(selected, before);
    SameSize(sorted, selected);
    if |selected| > 0 {
      var buffer := new Slot<V>[|selected|](i requires 0 <= i < |selected| => selected[i]);
      var tempSpace := new Slot<V>[|selected|](_ => Empty);
      assert buffer[..] == selected;
      MergeSort.Sort(buffer, tempSpace, Comparator(before));
      selected := buffer[..];
    }
    WriteBack(O, length, selected);
  }

  /** All slots of `[k, len)`, holes as empty slots: what the fast-mode path sorts. */
  function Slots<V>(m: Elems<Slot<V>>, k: nat, len: nat): (r: seq<Slot<V>>)
    ensures k <= len ==> |r| == len - k
    decreases len - k
  {
    if len <= k then [] else [if k in m then m[k] else Empty] + Slots(m, k + 1, len)
  }

  /** The slots that are not empty. */
  function Filled<V>(s: seq<Slot<V>>): seq<Slot<V>> {
    if s == [] then []
    else Filled(s[..|s| - 1]) + if s[|s| - 1].Empty? then [] else [s[|s| - 1]]
  }

  function Empties<V>(n: nat): (r: seq<Slot<V>>)
    ensures |r| == n && forall i :: 0 <= i < n ==> r[i] == Empty
  {
    seq(n, _ => Empty)
  }

  /** An empty slot goes last; anything else goes before all empty slots. */
  lemma {:induction false} InsertAmongEmpties<V>(s: seq<Slot<V>>, n: nat, x: Slot<V>, before: (V, V) -> bool)
    requires forall i :: 0 <= i < |s| ==> !s[i].Empty?
    ensures Insert(s + Empties(n), x, Comparator(before)) ==
      if x.Empty? then s + Empties(n + 1) else Insert(s, x, Comparator(before)) + Empties(n)
    decreases |s| + n
  {
    var less := Comparator(before);
    var all := s + Empties(n);
    if s != [] {
      assert all[1..] == s[1..] + Empties(n);
      assert less(x, s[0]) == Compare(before, x, s[0]);
      if !less(x, s[0]) {
        InsertAmongEmpties(s[1..], n, x, before);
      } else {
        assert [x] + (s + Empties(n)) == ([x] + s) + Empties(n);
      }
    } else if 0 < n {
      assert all[1..] == [] + Empties(n - 1);
      assert less(x, Empty) == Compare(before, x, Empty);
      InsertAmongEmpties([], n - 1, x, before);
      assert x.Empty? ==> [Empty] + ([] + Empties<V>(n)) == [] + Empties(n + 1);
    } else {
      assert all == [];
    }
  }

  lemma {:induction false} NoEmptyInserted<V>(s: seq<Slot<V>>, x: Slot<V>, less: (Slot<V>, Slot<V>) -> bool)
    requires !x.Empty? && forall i :: 0 <= i < |s| ==> !s[i].Empty?
    ensures forall i :: 0 <= i < |s| + 1 ==> !Insert(s, x, less)[i].Empty?
  {
    if s != [] && !less(x, s[0]) {
      NoEmptyInserted(s[1..], x, less);
    }
  }

  /** Sorting all slots at once sorts the filled ones and leaves the empty ones behind them. */
  lemma {:induction false} FastPathSort<V>(s: seq<Slot<V>>, before: (V, V) -> bool)
    ensures |Filled(s)| <= |s|
    ensures forall i :: 0 <= i < |Filled(s)| ==> !StableSort(Filled(s), Comparator(before))[i].Empty?
    ensures StableSort(s, Comparator(before)) ==
      StableSort(Filled(s), Comparator(before)) + Empties(|s| - |Filled(s)|)
  {
    if s != [] {
      var rest, x, less := s[..|s| - 1], s[|s| - 1], Comparator(before);
      FastPathSort(rest, before);
      InsertAmongEmpties(StableSort(Filled(rest), less), |rest| - |Filled(rest)|, x, before);
      if x.Empty? {
        assert Filled(s) == Filled(rest);
      } else {
        assert Filled(s)[..|Filled(s)| - 1] == Filled(rest);
        NoEmptyInserted(StableSort(Filled(rest), less), x, less);
      }
    }
  }

  lemma FilledAppend<V>(s: seq<Slot<V>>, x: Slot<V>)
    ensures Filled(s + [x]) == Filled(s) + if x.Empty? then [] else [x]
  {
    assert (s + [x])[..|s|] == s;
  }

  lemma {:induction false} FilledCons<V>(x: Slot<V>, s: seq<Slot<V>>)
    ensures Filled([x] + s) == (if x.Empty? then [] else [x]) + Filled(s)
  {
    if s == [] {
      assert [x] + s == [] + [x];
      FilledAppend([], x);
    } else {
      var rest, y := s[..|s| - 1], s[|s| - 1];
      FilledCons(x, rest);
      assert [x] + s == ([x] + rest) + [y];
      FilledAppend([x] + rest, y);
    }
  }

  lemma {:induction false} FilledSlotsArePresent<V>(m: Elems<Slot<V>>, k: nat, len: nat)
    requires forall i :: i in m ==> !m[i].Empty?
    ensures Filled(Slots(m, k, len)) == Present(m, k, len)
    decreases len - k
  {
    if k < len {
      FilledSlotsArePresent(m, k + 1, len);
      FilledCons(if k in m then m[k] else Empty, Slots(m, k + 1, len));
    }
  }

  /** The array that fast-mode storage stands for. */
  function FromSlots<V>(s: seq<Slot<V>>): Elems<Slot<V>> {
    map i: nat | i < |s| && !s[i].Empty? :: s[i]
  }

  /** The storage of an array, and back. */
  lemma {:induction false} SlotAt<V>(m: Elems<Slot<V>>, k: nat, len: nat, i: nat)
    requires k <= i < len
    ensures Slots(m, k, len)[i - k] == if i in m then m[i] else Empty
    decreases i - k
  {
    if k < i {
      SlotAt(m, k + 1, len, i);
    }
  }

  lemma SlotsRoundTrip<V>(m: Elems<Slot<V>>, len: nat)
    requires Below(m, len) && forall i :: i in m ==> !m[i].Empty?
    ensures FromSlots(Slots(m, 0, len)) == m
  {
    forall i: int ensures At(FromSlots(Slots(m, 0, len)), i) == At(m, i) {
      if 0 <= i < len {
        SlotAt(m, 0, len, i);
      }
    }
    Extensional(FromSlots(Slots(m, 0, len)), m);
  }

  /** Sorts fast-mode storage in a temporary buffer and writes it back. */
  method SortFastMode<V(!new)>(data: array<Slot<V>>, before: (V, V) -> bool)
    modifies data
    ensures data[..] == MergeRounds(old(data[..]), 1, Comparator(before))
    ensures IsSortedOf(old(data[..]), before, data[..])
  {
    SortMeetsOrder(data[..], before);
    if data.Length > 0 {
      ghost var was := data[..];
      var tempBuffer := new Slot<V>[data.Length](i requires 0 <= i < data.Length reads data => data[i]);
      var tempSpace := new Slot<V>[data.Length](_ => Empty);
      assert tempBuffer[..] == was;
      MergeSort.Sort(tempBuffer, tempSpace, Comparator(before));
      var i := 0;
      while i < data.Length
        invariant 0 <= i <= data.Length
        invariant data[..i] == tempBuffer[..i]
        invariant tempBuffer[..] == MergeRounds(was, 1, Comparator(before))
      {
        data[i] := tempBuffer[i];
        i := i + 1;
      }
      assert data[..] == data[..i] && tempBuffer[..] == tempBuffer[..i];
    }
  }

  lemma PackedFromSlots<V>(m: Elems<Slot<V>>, len: nat, sorted: seq<Slot<V>>)
    requires Below(m, len) && |sorted| <= len
    requires forall i :: 0 <= i < |sorted| ==> !sorted[i].Empty?
    ensures IsPacked(m, len, sorted, FromSlots(sorted + Empties(len - |sorted|)))
  {
    forall i: int | i < 0 || len <= i ensures At(m, i) == None {}
  }

  /** The fast-mode path and the path over present values give the same real array, holes
      included. */
  lemma FastPathAgrees<V(!new)>(m: Elems<Slot<V>>, len: nat, before: (V, V) -> bool)
    requires IsStrictWeakOrder(before) && Below(m, len) && forall i :: i in m ==> !m[i].Empty?
    ensures
      var less := Comparator(before);
      IsPacked(m, len, MergeRounds(Present(m, 0, len), 1, less),
               FromSlots(MergeRounds(Slots(m, 0, len), 1, less)))
  {
    var less, present, slots := Comparator(before), Present(m, 0, len), Slots(m, 0, len);
    var sorted := StableSort(present, less);
    assert MergeRounds(present, 1, less) == sorted && MergeRounds(slots, 1, less) == StableSort(slots, less) by {
      ComparatorIsOrder(before);
      MergeSortIsStableSort(present, less);
      MergeSortIsStableSort(slots, less);
    }
    FastPathSort(slots, before);
    FilledSlotsArePresent(m, 0, len);
    assert StableSort(slots, less) == sorted + Empties(len - |sorted|);
    PackedFromSlots(m, len, sorted);
  }
}
