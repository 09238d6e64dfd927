/** Array.prototype.shift (src/builtins/BuiltinArray.cpp), which skips runs of holes. */
module ArrayShift {
  import opened Options
  import opened ArrayObjects

  /** `r` is `m` with element 0 gone: every other slot below `len`, hole or not, has moved down
      by one, and nothing at or beyond `len` differs. */
  ghost predicate IsShifted<V>(m: Elems<V>, len: nat, r: Elems<V>) {
    && (forall i: int {:trigger At(r, i)} :: 0 <= i < len - 1 ==> At(r, i) == At(m, i + 1))
    && (0 < len ==> At(r, len - 1) == None)
    && (forall i: int {:trigger At(r, i)} :: i < 0 || len <= i ==> At(r, i) == At(m, i))
  }

  /** The shifted array is unique. */
  lemma ShiftedIsUnique<V>(m: Elems<V>, len: nat, r: Elems<V>, q: Elems<V>)
    requires IsShifted(m, len, r) && IsShifted(m, len, q)
    ensures r == q
  {
    forall i: int ensures At(r, i) == At(q, i) {}
    Extensional(r, q);
  }

  /** A real array stays one, under the new length. */
  lemma ShiftedStaysBelow<V>(m: Elems<V>, len: nat, r: Elems<V>)
    requires 0 < len && Below(m, len) && IsShifted(m, len, r)
    ensures Below(r, len - 1)
  {
    forall i | i in r ensures i < len - 1 {
      assert At(r, i).Some?;
      assert len <= i ==> At(m, i).None?;
    }
  }

  /** The standard's loop (section 22.1.3.24 of ECMA-262), which moves one slot at a time. */
  function PlainShift<V>(m: Elems<V>, k: nat, len: nat): Elems<V>
    requires 0 < k <= len
    decreases len - k
  {
    if k == len then Assign(m, len - 1, None)
    else PlainShift(Assign(m, k - 1, At(m, k)), k + 1, len)
  }

  lemma {:induction false} PlainShiftMovesRest<V>(m: Elems<V>, k: nat, len: nat)
    requires 0 < k <= len
    ensures forall i: int {:trigger At(PlainShift(m, k, len), i)} :: k - 1 <= i < len - 1 ==>
      At(PlainShift(m, k, len), i) == At(m, i + 1)
    ensures At(PlainShift(m, k, len), len - 1) == None
    ensures forall i: int {:trigger At(PlainShift(m, k, len), i)} :: i < k - 1 || len <= i ==>
      At(PlainShift(m, k, len), i) == At(m, i)
    decreases len - k
  {
    if k < len {
      PlainShiftMovesRest(Assign(m, k - 1, At(m, k)), k + 1, len);
    }
  }

  /** The standard's loop and the loop with jumps give the same array. */
  lemma ShiftedIsPlainShift<V>(m: Elems<V>, len: nat, r: Elems<V>)
    requires 0 < len
    ensures IsShifted(m, len, r) <==> r == PlainShift(m, 1, len)
  {
    var q := PlainShift(m, 1, len);
    PlainShiftMovesRest(m, 1, len);
    if IsShifted(m, len, r) {
      ShiftedIsUnique(m, len, r, q);
    }
  }

  /** Removes and returns element 0; none when it is a hole or the array is empty. */
  method Shift<V>(O: ArrayObject<V>) returns (first: Option<V>)
    requires O.Valid()
    modifies O
    ensures O.Valid()
    ensures first == if old(O.length) == 0 then None else At(old(O.elems), 0)
    ensures O.length == if old(O.length) == 0 then 0 else old(O.length) - 1
    ensures IsShifted(old(O.elems), old(O.length), O.elems)
  {
    var len := O.length;
    ghost var was := O.elems;
    if len == 0 {
      var _ := O.SetLength(0);
      return None;
    }
    first := if O.Has(0) then Some(O.Get(0)) else None;
    var k := 1;
    while k < len
      invariant 1 <= k <= len
      invariant forall i: int :: 0 <= i < k - 1 ==> At(O.elems, i) == At(was, i + 1)
      invariant forall i: int :: i < 0 || k <= i ==> At(O.elems, i) == At(was, i)
    {
      var fromPresent := O.Has(k);
      if fromPresent {
        var fromVal := O.Get(k);
        O.Put(k - 1, fromVal);
      } else {
        O.Delete(k - 1);
      }
      if fromPresent {
        k := k + 1;
      } else {
        var r := O.NextIndexForward(k, len);
        forall i: int | k <= i < r ensures At(O.elems, i) == None && At(was, i) == None {
          assert At(O.elems, i) == At(was, i);
        }
        // A forward scan always moves on, so stepping back never happens.
        assert k < r;
        if r > k {
          k := r;
        } else {
          k := k - 1;
        }
      }
    }
    O.Delete(len - 1);
    var _ := O.SetLength(len - 1);
  }
}
