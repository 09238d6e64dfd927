/** Array.prototype.unshift (src/builtins/BuiltinArray.cpp), which skips long runs of holes.

    With one item it does what the standard's loop does. With two or more it leaves old values
    behind the start of every long run it skips; this module says exactly where. */
module ArrayUnshift {
  import opened Limits
  import opened Options
  import opened ArrayObjects

  /** What section 22.1.3.31 of ECMA-262 asks for: the items in front, and every old slot below
      `len`, hole or not, moved up by their number. */
  ghost predicate IsUnshifted<V>(m: Elems<V>, len: nat, items: seq<V>, r: Elems<V>) {
    var n := |items|;
    && (forall i: int {:trigger At(r, i)} :: 0 <= i < n ==> At(r, i) == Some(items[i]))
    && (forall i: int {:trigger At(r, i)} :: n <= i < len + n ==> At(r, i) == At(m, i - n))
    && (forall i: int {:trigger At(r, i)} :: i < 0 || len + n <= i ==> At(r, i) == At(m, i))
  }

  /** More than `n` holes lie immediately before `k`. */
  ghost predicate LongHoleRun<V>(m: Elems<V>, n: nat, k: int) {
    n < k && forall i: int :: k - n - 1 <= i < k ==> At(m, i) == None
  }

  /** The loop jumps from `k`: the top of a run of more than `n` holes. */
  ghost predicate JumpsFrom<V>(m: Elems<V>, len: nat, n: nat, k: int) {
    k <= len && (k == len || k in m) && LongHoleRun(m, n, k)
  }

  /** Slot `i` is one that a jump skips although it may still hold an old value. */
  ghost predicate Skipped<V>(m: Elems<V>, len: nat, n: nat, i: int) {
    exists k :: JumpsFrom(m, len, n, k) && k <= i <= k + n - 2
  }

  /** What the loop with jumps does: as the standard asks, except that skipped slots keep what
      they held. */
  ghost predicate IsUnshiftedWithJumps<V>(m: Elems<V>, len: nat, items: seq<V>, r: Elems<V>) {
    var n := |items|;
    && (forall i: int {:trigger At(r, i)} :: 0 <= i < n ==> At(r, i) == Some(items[i]))
    && (forall i: int {:trigger At(r, i)} :: n <= i < len + n && Skipped(m, len, n, i) ==> At(r, i) == At(m, i))
    && (forall i: int {:trigger At(r, i)} :: n <= i < len + n && !Skipped(m, len, n, i) ==> At(r, i) == At(m, i - n))
    && (forall i: int {:trigger At(r, i)} :: i < 0 || len + n <= i ==> At(r, i) == At(m, i))
  }

  /** Every slot that a jump skips is a hole. */
  ghost predicate SkippedAreHoles<V>(m: Elems<V>, len: nat, n: nat) {
    forall k, i: int :: JumpsFrom(m, len, n, k) && k <= i <= k + n - 2 ==> At(m, i) == None
  }

  /** Exactly when `unshift` does what the standard asks. */
  lemma UnshiftMeetsStandardIff<V>(m: Elems<V>, len: nat, items: seq<V>, r: Elems<V>)
    requires IsUnshiftedWithJumps(m, len, items, r)
    ensures IsUnshifted(m, len, items, r) <==> SkippedAreHoles(m, len, |items|)
  {
    var n := |items|;
    forall i: int | n <= i < len + n && Skipped(m, len, n, i) ensures At(m, i - n) == None {
      var k :| JumpsFrom(m, len, n, k) && k <= i <= k + n - 2;
      assert k - n - 1 <= i - n < k;
    }
    if IsUnshifted(m, len, items, r) {
      forall k, i: int | JumpsFrom(m, len, n, k) && k <= i <= k + n - 2 ensures At(m, i) == None {
        assert Skipped(m, len, n, i);
        assert At(r, i) == At(m, i - n);
      }
    }
  }

  /** With one item there is nothing to skip. */
  lemma OneItemIsStandard<V>(m: Elems<V>, len: nat)
    ensures SkippedAreHoles(m, len, 1)
  {
  }

  /** On a real array and with two or more items, the standard is met exactly when no element
      sits right after a run of more holes than there are items. */
  lemma RealArrayMeetsStandardIff<V>(m: Elems<V>, len: nat, n: nat)
    requires 2 <= n && Below(m, len)
    ensures SkippedAreHoles(m, len, n) <==> forall k: nat :: k in m ==> !LongHoleRun(m, n, k)
  {
    if SkippedAreHoles(m, len, n) {
      forall k: nat | k in m ensures !LongHoleRun(m, n, k) {
        assert At(m, k).Some?;
        assert !JumpsFrom(m, len, n, k);
      }
    }
  }

  /** `[ , , , , v].unshift(a, b)` leaves `v` at index 4 besides moving it to index 6. */
  lemma TwoItemsBeforeFourHoles<V>(a: V, b: V, v: V, m: Elems<V>, items: seq<V>, r: Elems<V>)
    requires m == map[4 := v] && items == [a, b]
    requires IsUnshiftedWithJumps(m, 5, items, r)
    ensures r == map[0 := a, 1 := b, 4 := v, 6 := v]
    ensures !IsUnshifted(m, 5, items, r)
  {
    assert At(m, 4) == Some(v) && At(m, 2) == None;
    assert JumpsFrom(m, 5, 2, 4) && !LongHoleRun(m, 2, 5);
    assert Skipped(m, 5, 2, 4);
    assert forall i: int :: Skipped(m, 5, 2, i) ==> i == 4;
    assert At(r, 4) == At(m, 4);
    var q: Elems<V> := map[0 := a, 1 := b, 4 := v, 6 := v];
    assert At(r, 0) == Some(items[0]) && At(r, 1) == Some(items[1]);
    assert At(r, 2) == At(m, 0) && At(r, 3) == At(m, 1) && At(r, 5) == At(m, 3) && At(r, 6) == At(m, 4);
    forall i: int ensures At(r, i) == At(q, i) {
      assert i < 0 || 7 <= i ==> At(r, i) == At(m, i);
    }
    Extensional(r, q);
  }

  /** A real array stays one, under the new length, whatever was skipped. */
  lemma UnshiftedStaysBelow<V>(m: Elems<V>, len: nat, items: seq<V>, r: Elems<V>)
    requires Below(m, len) && IsUnshiftedWithJumps(m, len, items, r)
    ensures Below(r, len + |items|)
  {
    forall i | i in r ensures i < len + |items| {
      assert At(r, i).Some?;
    }
  }

  /** The standard's loop, which moves one slot at a time from the top. */
  function PlainUnshift<V>(m: Elems<V>, k: nat, n: nat): Elems<V>
    decreases k
  {
    if k == 0 then m
    else PlainUnshift(Assign(m, k + n - 1, At(m, k - 1)), k - 1, n)
  }

  lemma {:induction false} PlainUnshiftMovesRest<V>(m: Elems<V>, k: nat, n: nat)
    requires 0 < n
    ensures forall i: int {:trigger At(PlainUnshift(m, k, n), i)} :: n <= i < k + n ==>
      At(PlainUnshift(m, k, n), i) == At(m, i - n)
    ensures forall i: int {:trigger At(PlainUnshift(m, k, n), i)} :: i < n || k + n <= i ==>
      At(PlainUnshift(m, k, n), i) == At(m, i)
    decreases k
  {
    if 0 < k {
      var next := Assign(m, k + n - 1, At(m, k - 1));
      PlainUnshiftMovesRest(next, k - 1, n);
      assert PlainUnshift(m, k, n) == PlainUnshift(next, k - 1, n);
    }
  }

  /** The standard's second loop, which puts the items in front. */
  function PlainItems<V>(m: Elems<V>, items: seq<V>, j: nat): Elems<V>
    requires j <= |items|
    decreases |items| - j
  {
    if j == |items| then m else PlainItems(m[j := items[j]], items, j + 1)
  }

  lemma {:induction false} PlainItemsInFront<V>(m: Elems<V>, items: seq<V>, j: nat)
    requires j <= |items|
    ensures forall i: int {:trigger At(PlainItems(m, items, j), i)} ::
      At(PlainItems(m, items, j), i) == if j <= i < |items| then Some(items[i]) else At(m, i)
    decreases |items| - j
  {
    if j < |items| {
      PlainItemsInFront(m[j := items[j]], items, j + 1);
    }
  }

  /** What the standard asks for is what its two loops give. */
  lemma UnshiftedIsPlainUnshift<V>(m: Elems<V>, len: nat, items: seq<V>, r: Elems<V>)
    requires 0 < |items|
    ensures IsUnshifted(m, len, items, r) <==> r == PlainItems(PlainUnshift(m, len, |items|), items, 0)
  {
    var moved := PlainUnshift(m, len, |items|);
    var q := PlainItems(moved, items, 0);
    PlainUnshiftMovesRest(m, len, |items|);
    PlainItemsInFront(moved, items, 0);
    if IsUnshifted(m, len, items, r) {
      forall i: int ensures At(r, i) == At(q, i) {
        assert i >= |items| ==> At(q, i) == At(moved, i);
      }
      Extensional(r, q);
    }
  }

  /** What a backward scan says about the run of holes it crossed. */
  lemma JumpTest<V>(m: Elems<V>, len: nat, n: nat, k: nat, result: int)
    requires 0 < n && 0 < k && At(m, k - 1) == None
    requires IsNextBackward(m, k, -1, result)
    ensures result + 1 < k
    ensures forall i: int :: result < i < k ==> At(m, i) == None
    ensures k - (result + 1) > n <==> LongHoleRun(m, n, k)
  {
    forall i: int | result < i < k ensures At(m, i) == None {}
    if LongHoleRun(m, n, k) && result in m {
      assert At(m, result).Some?;
    }
  }

  /** The loop's state: slots from `k + n` up are final, those below still as they were, and `k`
      lies in no run that has been jumped over. */
  ghost predicate MovedFrom<V>(was: Elems<V>, len: nat, n: nat, k: int, now: Elems<V>) {
    && (forall i: int {:trigger At(now, i)} :: k + n <= i < len + n && Skipped(was, len, n, i) ==>
        At(now, i) == At(was, i))
    && (forall i: int {:trigger At(now, i)} :: k + n <= i < len + n && !Skipped(was, len, n, i) ==>
        At(now, i) == At(was, i - n))
    && (forall i: int {:trigger At(now, i)} :: i < k + n || len + n <= i ==> At(now, i) == At(was, i))
    && (forall top :: JumpsFrom(was, len, n, top) && k < top ==> k + n + 1 <= top)
    && (k == len || k in was || !LongHoleRun(was, n, k))
  }

  /** Moving or deleting one slot without a jump. */
  lemma StepMovesOn<V>(was: Elems<V>, len: nat, n: nat, k: nat, now: Elems<V>, next: Elems<V>)
    requires 0 < n && 0 < k <= len && MovedFrom(was, len, n, k, now)
    requires At(next, k + n - 1) == At(now, k - 1)
    requires forall i: int :: i != k + n - 1 ==> At(next, i) == At(now, i)
    requires !LongHoleRun(was, n, k)
    ensures MovedFrom(was, len, n, k - 1, next)
  {
    assert !Skipped(was, len, n, k + n - 1);
    if LongHoleRun(was, n, k - 1) && At(was, k - 1) == None {
      assert LongHoleRun(was, n, k);
    }
  }

  /** Jumping to the bottom of a long run of holes. */
  lemma JumpMovesOn<V>(was: Elems<V>, len: nat, n: nat, k: nat, r: nat, now: Elems<V>, next: Elems<V>)
    requires 0 < n && k <= len && r + n < k && MovedFrom(was, len, n, k, now)
    requires forall i: int :: r <= i < k ==> At(was, i) == None
    requires r == 0 || r - 1 in was
    requires At(next, k + n - 1) == None
    requires forall i: int :: i != k + n - 1 ==> At(next, i) == At(now, i)
    ensures MovedFrom(was, len, n, r, next)
  {
    assert JumpsFrom(was, len, n, k);
    assert !Skipped(was, len, n, k + n - 1);
    forall i: int | r + n <= i < k + n && !Skipped(was, len, n, i) ensures At(next, i) == At(was, i - n) {
      assert At(was, i - n) == None;
      assert i < k || i == k + n - 1;
    }
    forall top | JumpsFrom(was, len, n, top) && r < top ensures r + n + 1 <= top {
      assert top < k ==> At(was, top) == None;
    }
    assert r < len;
    assert 0 < r ==> At(was, r - 1).Some?;
  }

  /** A scan below `k` sees the original elements. */
  lemma BelowIsUntouched<V>(was: Elems<V>, len: nat, n: nat, k: nat, now: Elems<V>, result: int)
    requires 0 < n && forall i: int :: i < k ==> At(now, i) == At(was, i)
    requires IsNextBackward(now, k, -1, result)
    ensures IsNextBackward(was, k, -1, result)
  {
    forall i: nat | result < i < k ensures i !in was {
      assert At(now, i) == At(was, i);
    }
    if 0 <= result {
      assert At(now, result) == At(was, result);
    }
  }

  /** The first `j` items are in front of the moved slots. */
  ghost predicate ItemsInFront<V>(was: Elems<V>, len: nat, items: seq<V>, j: nat, now: Elems<V>)
    requires j <= |items|
  {
    var n := |items|;
    && (forall i: int {:trigger At(now, i)} :: 0 <= i < j ==> At(now, i) == Some(items[i]))
    && (forall i: int {:trigger At(now, i)} :: n <= i < len + n && Skipped(was, len, n, i) ==> At(now, i) == At(was, i))
    && (forall i: int {:trigger At(now, i)} :: n <= i < len + n && !Skipped(was, len, n, i) ==>
        At(now, i) == At(was, i - n))
    && (forall i: int {:trigger At(now, i)} :: i < 0 || len + n <= i ==> At(now, i) == At(was, i))
  }

  lemma AllMoved<V>(was: Elems<V>, len: nat, items: seq<V>, now: Elems<V>)
    requires MovedFrom(was, len, |items|, 0, now)
    ensures ItemsInFront(was, len, items, 0, now)
  {
  }

  lemma ItemWritten<V>(was: Elems<V>, len: nat, items: seq<V>, j: nat, now: Elems<V>, next: Elems<V>)
    requires j < |items| && ItemsInFront(was, len, items, j, now)
    requires At(next, j) == Some(items[j])
    requires forall i: int :: i != j ==> At(next, i) == At(now, i)
    ensures ItemsInFront(was, len, items, j + 1, next)
  {
  }

  lemma NoItems<V>(was: Elems<V>, len: nat)
    ensures IsUnshiftedWithJumps(was, len, [], was)
  {
    assert forall i: int :: !Skipped(was, len, 0, i);
  }

  /** Moves every slot up, from the top, jumping over long runs of holes. */
  method MoveUp<V>(O: ArrayObject<V>, len: nat, argCount: nat)
    requires 0 < argCount
    modifies O`elems
    ensures MovedFrom(old(O.elems), len, argCount, 0, O.elems)
  {
    var k := len;
    ghost var was := O.elems;
    while k > 0
      invariant 0 <= k <= len
      invariant MovedFrom(was, len, argCount, k, O.elems)
    {
      ghost var now := O.elems;
      var to := k + argCount - 1;
      var fromPresent := O.Has(k - 1);
      if fromPresent {
        var fromValue := O.Get(k - 1);
        O.Put(to, fromValue);
      } else {
        O.Delete(to);
      }
      if fromPresent {
        assert At(was, k - 1) == At(now, k - 1);
        StepMovesOn(was, len, argCount, k, now, O.elems);
        k := k - 1;
      } else {
        var result := O.NextIndexBackward(k, -1);
        var r := if result + 1 < result - argCount + 1 then result - argCount + 1 else result + 1;
        BelowIsUntouched(was, len, argCount, k, O.elems, result);
        JumpTest(was, len, argCount, k, result);
        if r < k && (if r < k then k - r else r - k) > argCount {
          JumpMovesOn(was, len, argCount, k, r, now, O.elems);
          k := r;
        } else {
          StepMovesOn(was, len, argCount, k, now, O.elems);
          k := k - 1;
        }
      }
    }
  }

  /** Puts the items in front of the moved slots. */
  method PutItems<V>(O: ArrayObject<V>, items: seq<V>, ghost was: Elems<V>, ghost len: nat)
    requires ItemsInFront(was, len, items, 0, O.elems)
    modifies O`elems
    ensures ItemsInFront(was, len, items, |items|, O.elems)
  {
    var j := 0;
    while j < |items|
      invariant 0 <= j <= |items|
      invariant ItemsInFront(was, len, items, j, O.elems)
    {
      ghost var now := O.elems;
      O.Put(j, items[j]);
      ItemWritten(was, len, items, j, now, O.elems);
      j := j + 1;
    }
  }

  /** Inserts items in front and returns the new length; refuses a length above the maximum
      beforehand, and one that a real array cannot have when all has been moved. */
  method Unshift<V>(O: ArrayObject<V>, items: seq<V>) returns (res: Result<nat>)
    modifies O
    ensures old(O.Valid()) ==> O.Valid()
    ensures var newLength := old(O.length) + |items|;
      if 0 < |items| && newLength > MAXIMUM_LENGTH then
        res == Err(TypeError) && O.elems == old(O.elems) && O.length == old(O.length)
      else
        && IsUnshiftedWithJumps(old(O.elems), old(O.length), items, O.elems)
        && (if O.isArray && newLength > MAXIMUM_ARRAY_LENGTH then res == Err(RangeError)
            else res == Ok(newLength) && O.length == newLength)
  {
    var len := O.length;
    var argCount := |items|;
    ghost var was := O.elems;
    if argCount > 0 {
      if len + argCount > MAXIMUM_LENGTH {
        return Err(TypeError);
      }
      MoveUp(O, len, argCount);
      AllMoved(was, len, items, O.elems);
      PutItems(O, items, was, len);
    } else {
      NoItems(was, len);
    }
    var ok := O.SetLength(len + argCount);
    return if ok then Ok(len + argCount) else Err(RangeError);
  }
}
