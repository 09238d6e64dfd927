/** Array.prototype.copyWithin (src/builtins/BuiltinArray.cpp): an overlapping move in place. */
module ArrayCopyWithin {
  import opened Limits
  import opened Options
  import opened ArrayObjects

  /** `r` is `m` after copying `count` slots, holes included, from a snapshot of `m`. */
  ghost predicate IsCopied<V>(m: Elems<V>, to: int, from: int, count: int, r: Elems<V>) {
    && (forall i: int {:trigger At(r, i)} :: to <= i < to + count ==> At(r, i) == At(m, from + i - to))
    && (forall i: int {:trigger At(r, i)} :: i < to || to + count <= i ==> At(r, i) == At(m, i))
  }

  /** Copying slot by slot in ascending order. */
  function CopyUp<V>(m: Elems<V>, to: nat, from: nat, count: nat): Elems<V>
    decreases count
  {
    if count == 0 then m
    else CopyUp(Assign(m, to, At(m, from)), to + 1, from + 1, count - 1)
  }

  lemma {:induction false} CopyUpOutside<V>(m: Elems<V>, to: nat, from: nat, count: nat)
    ensures forall i: int {:trigger At(CopyUp(m, to, from, count), i)} ::
      i < to || to + count <= i ==> At(CopyUp(m, to, from, count), i) == At(m, i)
    decreases count
  {
    if 0 < count {
      CopyUpOutside(Assign(m, to, At(m, from)), to + 1, from + 1, count - 1);
    }
  }

  /** Without the overlap that the direction test looks for, ascending order copies a snapshot. */
  lemma {:induction false} CopyUpIsSnapshot<V>(m: Elems<V>, to: nat, from: nat, count: nat)
    requires !(from < to < from + count)
    ensures IsCopied(m, to, from, count, CopyUp(m, to, from, count))
    decreases count
  {
    if 0 < count {
      var next := Assign(m, to, At(m, from));
      CopyUpOutside(next, to + 1, from + 1, count - 1);
      CopyUpIsSnapshot(next, to + 1, from + 1, count - 1);
      var r := CopyUp(m, to, from, count);
      forall i: int | to < i < to + count ensures At(r, i) == At(m, from + i - to) {
        assert At(r, i) == At(next, (from + 1) + i - (to + 1));
      }
    }
  }

  /** Moving up in ascending order, every slot repeats the one that ends up at its source. */
  lemma {:induction false} CopyUpRepeats<V>(m: Elems<V>, to: nat, from: nat, count: nat, j: nat)
    requires from < to && j < count
    ensures At(CopyUp(m, to, from, count), to + j) == At(CopyUp(m, to, from, count), from + j)
    decreases count
  {
    var next := Assign(m, to, At(m, from));
    CopyUpOutside(next, to + 1, from + 1, count - 1);
    if 0 < j {
      CopyUpRepeats(next, to + 1, from + 1, count - 1, j - 1);
    }
  }

  /** With that overlap, ascending order goes wrong on an array that holds one element. */
  lemma CopyUpFailsOnOverlap<V>(to: nat, from: nat, count: nat, v: V)
    requires from < to < from + count
    ensures !IsCopied(map[from := v], to, from, count, CopyUp(map[from := v], to, from, count))
  {
    var m: Elems<V>, d := map[from := v], to - from;
    var r := CopyUp(m, to, from, count);
    CopyUpOutside(m, to, from, count);
    CopyUpRepeats(m, to, from, count, 0);
    CopyUpRepeats(m, to, from, count, d);
    assert At(r, from) == At(m, from);
    assert At(r, to + d) == Some(v) && At(m, to) == None;
  }

  /** Ascending order copies a snapshot of every array exactly when the direction test is false. */
  lemma DirectionTestIsExact<V(!new)>(to: nat, from: nat, count: nat, v: V)
    ensures (forall m: Elems<V> :: IsCopied(m, to, from, count, CopyUp(m, to, from, count)))
       <==> !(from < to < from + count)
  {
    if from < to < from + count {
      CopyUpFailsOnOverlap(to, from, count, v);
    } else {
      forall m: Elems<V> ensures IsCopied(m, to, from, count, CopyUp(m, to, from, count)) {
        CopyUpIsSnapshot(m, to, from, count);
      }
    }
  }

  /** A real array stays one. */
  lemma CopiedStaysBelow<V>(m: Elems<V>, len: nat, to: int, from: int, count: int, r: Elems<V>)
    requires Below(m, len) && to + count <= len && IsCopied(m, to, from, count, r)
    ensures Below(r, len)
  {
    forall i | i in r ensures i < len {
      assert At(r, i).Some?;
    }
  }

  /** How many slots are copied, not positive when there is nothing to copy: as many as the source
      range holds, as far as there is room at the target. */
  function CopyCount(len: nat, target: int, start: int, end: Option<int>): (count: int)
    ensures var from, to := Clamp(start, len), Clamp(target, len);
      && (end.None? ==> from + count <= len && (from + count == len || to + count == len))
      && (end.Some? ==> from + count <= Clamp(end.value, len))
      && (end.Some? ==> from + count == Clamp(end.value, len) || to + count == len)
      && to + count <= len
  {
    var final := Clamp(if end.None? then len else end.value, len);
    Min(final - Clamp(start, len), len - Clamp(target, len))
  }

  /** Copies slots over an overlapping range, in the order that does not overwrite its source. */
  method CopySlots<V>(O: ArrayObject<V>, to0: nat, from0: nat, count0: int)
    modifies O`elems
    ensures IsCopied(old(O.elems), to0, from0, count0, O.elems)
  {
    var to, from, count := to0, from0, count0;
    var direction;
    ghost var was := O.elems;
    if from < to && to < from + count {
      direction := -1;
      from := from + count - 1;
      to := to + count - 1;
    } else {
      direction := 1;
    }
    while count > 0
      invariant direction == if from0 < to0 < from0 + count0 then -1 else 1
      invariant from - to == from0 - to0
      invariant count <= count0 && (0 <= count || count == count0)
      invariant 0 < count0 ==> to == if direction == 1 then to0 + count0 - count else to0 + count - 1
      invariant forall i: int {:trigger At(O.elems, i)} ::
        to0 <= i < to0 + count0 && (if direction == 1 then i < to else to < i) ==>
          At(O.elems, i) == At(was, from0 + i - to0)
      invariant forall i: int {:trigger At(O.elems, i)} ::
        i < to0 || to0 + count0 <= i || (if direction == 1 then to <= i else i <= to) ==>
          At(O.elems, i) == At(was, i)
      decreases count
    {
      assert At(O.elems, from) == At(was, from);
      if O.Has(from) {
        O.Put(to, O.Get(from));
      } else {
        O.Delete(to);
      }
      from := from + direction;
      to := to + direction;
      count := count - 1;
    }
  }

  method CopyWithin<V>(O: ArrayObject<V>, target: int, start: int, end: Option<int>)
    modifies O`elems
    ensures LandsOn(target, O.length, Clamp(target, O.length)) && LandsOn(start, O.length, Clamp(start, O.length))
    ensures end.Some? ==> LandsOn(end.value, O.length, Clamp(end.value, O.length))
    ensures IsCopied(old(O.elems), Clamp(target, O.length), Clamp(start, O.length),
                     CopyCount(O.length, target, start, end), O.elems)
  {
    var len: int := O.length;
    var to: int := Clamp(target, len);
    var from: int := Clamp(start, len);
    var relativeEnd := if end.None? then len else end.value;
    var final: int := Clamp(relativeEnd, len);
    var count := Min(final - from, len - to);
    CopySlots(O, to, from, count);
  }
}
