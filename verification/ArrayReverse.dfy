/** Array.prototype.reverse (src/builtins/BuiltinArray.cpp), which skips pairs of holes. */
module ArrayReverse {
  import opened ArrayObjects

  /** `r` is `m` seen in a mirror: presence and value at `i` are those of `len - 1 - i`, and
      nothing at or beyond `len` differs. */
  ghost predicate IsMirror<V>(m: Elems<V>, len: nat, r: Elems<V>) {
    && (forall i: int {:trigger At(r, i)} :: 0 <= i < len ==> At(r, i) == At(m, len - 1 - i))
    && (forall i: int {:trigger At(r, i)} :: !(0 <= i < len) ==> At(r, i) == At(m, i))
  }

  /** Reversing twice restores every value and every hole. */
  lemma MirrorTwice<V>(m: Elems<V>, len: nat, r: Elems<V>, q: Elems<V>)
    requires IsMirror(m, len, r) && IsMirror(r, len, q)
    ensures q == m
  {
    forall i: int ensures At(q, i) == At(m, i) {
      assert 0 <= i < len ==> At(r, len - 1 - i) == At(m, i);
    }
    Extensional(q, m);
  }

  /** One step of the standard's loop: exchange the pair at `lower` and `upper`. */
  function ExchangePair<V>(m: Elems<V>, lower: nat, upper: nat): Elems<V> {
    Assign(Assign(m, lower, At(m, upper)), upper, At(m, lower))
  }

  /** The standard's loop (section 22.1.3.23 of ECMA-262), which visits every pair. */
  function PlainReverse<V>(m: Elems<V>, lower: nat, len: nat): Elems<V>
    decreases len / 2 - lower
  {
    if len / 2 <= lower then m
    else PlainReverse(ExchangePair(m, lower, len - 1 - lower), lower + 1, len)
  }

  /** The standard's loop, started anywhere, mirrors the range that is left. */
  lemma {:induction false} PlainReverseMirrorsRest<V>(m: Elems<V>, lower: nat, len: nat)
    requires lower <= len
    ensures forall i: int {:trigger At(PlainReverse(m, lower, len), i)} :: lower <= i < len - lower ==>
      At(PlainReverse(m, lower, len), i) == At(m, len - 1 - i)
    ensures forall i: int {:trigger At(PlainReverse(m, lower, len), i)} :: !(lower <= i < len - lower) ==>
      At(PlainReverse(m, lower, len), i) == At(m, i)
    decreases len / 2 - lower
  {
    if lower < len / 2 {
      PlainReverseMirrorsRest(ExchangePair(m, lower, len - 1 - lower), lower + 1, len);
    }
  }

  /** The mirror is unique. */
  lemma MirrorIsUnique<V>(m: Elems<V>, len: nat, r: Elems<V>, q: Elems<V>)
    requires IsMirror(m, len, r) && IsMirror(m, len, q)
    ensures r == q
  {
    forall i: int ensures At(r, i) == At(q, i) {}
    Extensional(r, q);
  }

  /** The standard's loop and the loop with jumps give the same array. */
  lemma MirrorIsPlainReverse<V>(m: Elems<V>, len: nat, r: Elems<V>)
    ensures IsMirror(m, len, r) <==> r == PlainReverse(m, 0, len)
  {
    var q := PlainReverse(m, 0, len);
    PlainReverseMirrorsRest(m, 0, len);
    if IsMirror(m, len, r) {
      MirrorIsUnique(m, len, r, q);
    }
  }

  /** Where the loop goes when both ends of the pair at `lower` are holes. */
  function LowerCandidate(middle: int, len: int, nextLower: int, nextUpper: int): int {
    if middle - nextLower > nextUpper - middle then nextLower else len - nextUpper - 1
  }

  /** Choosing by distance from the middle never jumps past a pair that holds an element, lands
      on such a pair unless none is left, and always moves on, so that the exit for a candidate
      equal to `lower` is never taken. */
  lemma CandidateIsFirstOccupiedPair<V>(m: Elems<V>, len: nat, lower: nat, nextLower: int, nextUpper: int)
    requires lower < len / 2
    requires lower !in m && len - 1 - lower !in m
    requires IsNextForward(m, lower, len / 2, nextLower)
    requires IsNextBackward(m, len - 1 - lower, len / 2, nextUpper)
    ensures
      var candidate := LowerCandidate(len / 2, len, nextLower, nextUpper);
      && lower < candidate <= len / 2
      && (forall i: int :: lower <= i < candidate || len - candidate <= i < len - lower ==> At(m, i).None?)
      && (candidate in m || len - 1 - candidate in m || candidate >= len / 2 - 1)
  {
    var middle, upper := len / 2, len - 1 - lower;
    var candidate := LowerCandidate(middle, len, nextLower, nextUpper);
    forall i: int | lower <= i < candidate || len - candidate <= i < len - lower
      ensures At(m, i).None?
    {
      var j := len - 1 - i;
      assert lower <= i < nextLower || lower <= j < nextLower;
      assert nextUpper < i <= upper || nextUpper < j <= upper;
    }
  }

  /** The loop's state at `lower`: everything outside the pairs still to visit is mirrored. */
  ghost predicate MirroredOutside<V>(was: Elems<V>, len: nat, lower: nat, now: Elems<V>) {
    && (forall i: int {:trigger At(now, i)} :: 0 <= i < lower || len - lower <= i < len ==>
        At(now, i) == At(was, len - 1 - i))
    && (forall i: int {:trigger At(now, i)} :: i < 0 || lower <= i < len - lower || len <= i ==>
        At(now, i) == At(was, i))
  }

  /** Exchanging one pair, holes included, moves the loop on by one. */
  lemma ExchangeMovesOn<V>(was: Elems<V>, len: nat, lower: nat, now: Elems<V>, next: Elems<V>)
    requires lower < len / 2 && MirroredOutside(was, len, lower, now)
    requires At(next, lower) == At(now, len - 1 - lower) && At(next, len - 1 - lower) == At(now, lower)
    requires forall i: int :: i != lower && i != len - 1 - lower ==> At(next, i) == At(now, i)
    ensures MirroredOutside(was, len, lower + 1, next)
  {
  }

  /** Once the loop has met the middle, the whole array is mirrored. */
  lemma MirroredOutsideAll<V>(was: Elems<V>, len: nat, lower: nat, now: Elems<V>)
    requires len <= 2 * lower + 1 && MirroredOutside(was, len, lower, now)
    ensures IsMirror(was, len, now)
  {
    forall i: int | 0 <= i < len ensures At(now, i) == At(was, len - 1 - i) {
      assert lower <= i < len - lower ==> i == len - 1 - i;
    }
  }

  /** Jumping over pairs of holes leaves nothing to move. */
  lemma JumpMovesOn<V>(was: Elems<V>, len: nat, lower: nat, candidate: nat, now: Elems<V>)
    requires lower <= candidate <= len / 2 && MirroredOutside(was, len, lower, now)
    requires forall i: int ::
      lower <= i < candidate || len - candidate <= i < len - lower ==> At(now, i).None?
    ensures MirroredOutside(was, len, candidate, now)
  {
    forall i: int | lower <= i < candidate || len - candidate <= i < len - lower
      ensures At(now, i) == At(was, len - 1 - i)
    {
      var j := len - 1 - i;
      assert At(now, i).None? && At(now, j).None?;
    }
  }

  method Reverse<V>(O: ArrayObject<V>)
    modifies O`elems
    ensures IsMirror(old(O.elems), O.length, O.elems)
  {
    var len := O.length;
    var middle := len / 2;
    var lower := 0;
    ghost var was := O.elems;
    while middle > lower
      invariant 0 <= lower <= middle
      invariant MirroredOutside(was, len, lower, O.elems)
    {
      ghost var now := O.elems;
      var upper := len - lower - 1;
      var lowerExists, upperExists := O.Has(lower), O.Has(upper);
      if lowerExists && upperExists {
        var lowerValue, upperValue := O.Get(lower), O.Get(upper);
        O.Put(lower, upperValue);
        O.Put(upper, lowerValue);
      } else if !lowerExists && upperExists {
        var upperValue := O.Get(upper);
        O.Put(lower, upperValue);
        O.Delete(upper);
      } else if lowerExists && !upperExists {
        var lowerValue := O.Get(lower);
        O.Delete(lower);
        O.Put(upper, lowerValue);
      } else {
        var nextLower := O.NextIndexForward(lower, middle);
        var nextUpper := O.NextIndexBackward(upper, middle);
        var x := middle - nextLower;
        var y := nextUpper - middle;
        var lowerCandidate;
        if x > y {
          lowerCandidate := nextLower;
        } else {
          lowerCandidate := len - nextUpper - 1;
        }
        CandidateIsFirstOccupiedPair(now, len, lower, nextLower, nextUpper);
        if lower == lowerCandidate {
          break;
        }
        JumpMovesOn(was, len, lower, lowerCandidate, now);
        lower := lowerCandidate;
        continue;
      }
      ExchangeMovesOn(was, len, lower, now, O.elems);
      lower := lower + 1;
    }
    MirroredOutsideAll(was, len, lower, O.elems);
  }
}
