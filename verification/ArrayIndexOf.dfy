/** Array.prototype.indexOf and lastIndexOf (src/builtins/BuiltinArray.cpp): searches that skip
    runs of holes. `same` is the strict equality comparison of the language. */
module ArrayIndexOf {
  import opened Options
  import opened ArrayObjects

  predicate Matches<V>(m: Elems<V>, same: (V, V) -> bool, target: V, i: int) {
    i in m && same(m[i], target)
  }

  /** The least matching index in `[from, len)`, or -1 exactly when there is none. */
  ghost predicate IsFirstMatch<V>(m: Elems<V>, same: (V, V) -> bool, target: V, from: int, len: int, res: int) {
    if res == -1 then forall i: int :: from <= i < len ==> !Matches(m, same, target, i)
    else
      && from <= res < len && Matches(m, same, target, res)
      && (forall i: int :: from <= i < res ==> !Matches(m, same, target, i))
  }

  /** The greatest matching index in `[0, from]`, or -1 exactly when there is none. */
  ghost predicate IsLastMatch<V>(m: Elems<V>, same: (V, V) -> bool, target: V, from: int, res: int) {
    if res == -1 then forall i: int :: 0 <= i <= from ==> !Matches(m, same, target, i)
    else
      && 0 <= res <= from && Matches(m, same, target, res)
      && (forall i: int :: res < i <= from ==> !Matches(m, same, target, i))
  }

  /** The linear scans of sections 22.1.3.12 and 22.1.3.17 of ECMA-262. */
  function ScanUp<V>(m: Elems<V>, same: (V, V) -> bool, target: V, k: nat, len: int): int
    decreases len - k
  {
    if len <= k then -1
    else if Matches(m, same, target, k) then k
    else ScanUp(m, same, target, k + 1, len)
  }

  function ScanDown<V>(m: Elems<V>, same: (V, V) -> bool, target: V, k: int): int
    decreases k + 1
  {
    if k < 0 then -1
    else if Matches(m, same, target, k) then k
    else ScanDown(m, same, target, k - 1)
  }

  /** The specification fixes the result, and it is the one the linear scan finds. */
  lemma {:induction false} FirstMatchIsScan<V>(m: Elems<V>, same: (V, V) -> bool, target: V, from: nat, len: int,
      res: int)
    ensures IsFirstMatch(m, same, target, from, len, res) <==> res == ScanUp(m, same, target, from, len)
    decreases len - from
  {
    if from < len && !Matches(m, same, target, from) {
      FirstMatchIsScan(m, same, target, from + 1, len, res);
    }
  }

  lemma {:induction false} LastMatchIsScan<V>(m: Elems<V>, same: (V, V) -> bool, target: V, from: int, res: int)
    ensures IsLastMatch(m, same, target, from, res) <==> res == ScanDown(m, same, target, from)
    decreases from + 1
  {
    if 0 <= from && !Matches(m, same, target, from) {
      LastMatchIsScan(m, same, target, from - 1, res);
    }
  }

  /** The first match never lies after the last one, and one is found exactly when the other is. */
  lemma FirstAndLast<V>(m: Elems<V>, same: (V, V) -> bool, target: V, len: nat, first: int, last: int)
    requires IsFirstMatch(m, same, target, 0, len, first) && IsLastMatch(m, same, target, len - 1, last)
    ensures first <= last && (first == -1 <==> last == -1)
  {
    if first != -1 {
      assert 0 <= first <= len - 1;
    }
    if last != -1 {
      assert 0 <= last < len;
    }
  }

  /** A match is a present value, never a hole. */
  lemma MatchesIff<V>(m: Elems<V>, same: (V, V) -> bool, target: V, i: int)
    ensures Matches(m, same, target, i) <==> exists v :: At(m, i) == Some(v) && same(v, target)
  {
    if Matches(m, same, target, i) {
      assert At(m, i) == Some(m[i]);
    }
  }

  method IndexOf<V>(O: ArrayObject<V>, same: (V, V) -> bool, target: V, fromIndex: Option<int>) returns (res: int)
    ensures fromIndex.Some? ==> LandsOn(fromIndex.value, O.length, Clamp(fromIndex.value, O.length))
    ensures IsFirstMatch(O.elems, same, target,
                         Clamp(if fromIndex.None? then 0 else fromIndex.value, O.length), O.length, res)
  {
    var len := O.length;
    if len == 0 {
      return -1;
    }
    var n := if fromIndex.None? then 0 else fromIndex.value;
    if n >= len {
      return -1;
    }
    var k;
    if n >= 0 {
      k := n;
    } else {
      k := len - (-n);
      if k < 0 {
        k := 0;
      }
    }
    ghost var start := k;
    while k < len
      invariant start <= k <= len
      invariant forall i: int :: start <= i < k ==> !Matches(O.elems, same, target, i)
    {
      if O.Has(k) {
        if same(O.Get(k), target) {
          return k;
        }
      } else {
        var result := O.NextIndexForward(k, len);
        k := result;
        continue;
      }
      k := k + 1;
    }
    return -1;
  }

  /** Where the downward search begins: at the last slot, unless `fromIndex` lands on an earlier
      one; below 0 when it is over before it starts. */
  function LastStart(fromIndex: Option<int>, len: nat): (k: int)
    ensures k < len
    ensures fromIndex.None? ==> k == len - 1
    ensures fromIndex.Some? && len <= fromIndex.value ==> k == len - 1
    ensures fromIndex.Some? && fromIndex.value < len && 0 <= k ==> LandsOn(fromIndex.value, len, k)
    ensures fromIndex.Some? && k < 0 ==> fromIndex.value + len < 0 || len == 0
    ensures fromIndex.Some? && fromIndex.value + len < 0 ==> k < 0
  {
    var n := if fromIndex.None? then len - 1 else fromIndex.value;
    if n < 0 then len + n else if n < len - 1 then n else len - 1
  }

  method LastIndexOf<V>(O: ArrayObject<V>, same: (V, V) -> bool, target: V, fromIndex: Option<int>) returns (res: int)
    ensures IsLastMatch(O.elems, same, target, LastStart(fromIndex, O.length), res)
  {
    var len := O.length;
    if len == 0 {
      return -1;
    }
    var n := if fromIndex.None? then len - 1 else fromIndex.value;
    var k;
    if n >= 0 {
      k := if n < len - 1 then n else len - 1;
    } else {
      k := len - (-n);
    }
    if k < 0 {
      return -1;
    }
    ghost var start := k;
    while k >= 0
      invariant -1 <= k <= start
      invariant forall i: int :: k < i <= start ==> !Matches(O.elems, same, target, i)
    {
      if O.Has(k) {
        if same(O.Get(k), target) {
          return k;
        }
      } else {
        var result := O.NextIndexBackward(k, -1);
        k := result;
        continue;
      }
      k := k - 1;
    }
    return -1;
  }
}
