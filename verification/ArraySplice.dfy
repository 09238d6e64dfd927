/** Array.prototype.splice (src/builtins/BuiltinArray.cpp): replaces a range in place, moving
    the tail down or up over itself. */
module ArraySplice {
  import opened Limits
  import opened Options
  import opened ArrayObjects
  import opened ArraySlice

  /** The argument list; how many arguments there are decides what is deleted. */
  datatype Arguments<V> =
    | NoArguments
    | OnlyStart(start: int)
    | StartAndCount(start: int, deleteCount: int, items: seq<V>)

  function StartOf<V>(args: Arguments<V>, len: nat): (start: nat)
    ensures start <= len && LandsOn(if args.NoArguments? then 0 else args.start, len, start)
  {
    Clamp(if args.NoArguments? then 0 else args.start, len)
  }

  /** How many slots are deleted: none without arguments, all from the start on without a count,
      otherwise as many as asked for, as far as there are any. */
  function DeleteCountOf<V>(args: Arguments<V>, len: nat): (d: nat)
    ensures StartOf(args, len) + d <= len
    ensures args.NoArguments? ==> d == 0
    ensures args.OnlyStart? ==> StartOf(args, len) + d == len
    ensures args.StartAndCount? && args.deleteCount <= 0 ==> d == 0
    ensures args.StartAndCount? && 0 <= args.deleteCount ==>
      d <= args.deleteCount && (d == args.deleteCount || StartOf(args, len) + d == len)
  {
    match args
    case NoArguments => 0
    case OnlyStart(_) => len - StartOf(args, len)
    case StartAndCount(_, dc, _) =>
      var most := len - StartOf(args, len);
      if dc < 0 then 0 else if dc < most then dc else most
  }

  function ItemsOf<V>(args: Arguments<V>): (items: seq<V>)
    ensures args.StartAndCount? ==> args == StartAndCount(args.start, args.deleteCount, items)
    ensures !args.StartAndCount? ==> |items| == 0
  {
    if args.StartAndCount? then args.items else []
  }

  /** `r` is `m` with the `del` slots at `start` replaced by the items: the prefix stays, the
      tail follows the items with its holes, and nothing is left where a shrunk array ended. */
  ghost predicate IsSpliced<V>(m: Elems<V>, len: nat, start: nat, del: nat, items: seq<V>, r: Elems<V>) {
    var n := |items|;
    && (forall i: int {:trigger At(r, i)} :: i < start ==> At(r, i) == At(m, i))
    && (forall i: int {:trigger At(r, i)} :: start <= i < start + n ==> At(r, i) == Some(items[i - start]))
    && (forall i: int {:trigger At(r, i)} :: start + n <= i < len - del + n ==> At(r, i) == At(m, i + del - n))
    && (forall i: int {:trigger At(r, i)} :: len - del + n <= i < len ==> At(r, i) == None)
    && (forall i: int {:trigger At(r, i)} :: len - del + n <= i && len <= i ==> At(r, i) == At(m, i))
  }

  /** The tail is where it has to be; the gap at `start` may hold anything. */
  ghost predicate IsTailMoved<V>(m: Elems<V>, len: nat, start: nat, del: nat, n: nat, r: Elems<V>) {
    && (forall i: int {:trigger At(r, i)} :: i < start ==> At(r, i) == At(m, i))
    && (forall i: int {:trigger At(r, i)} :: start + n <= i < len - del + n ==> At(r, i) == At(m, i + del - n))
    && (forall i: int {:trigger At(r, i)} :: len - del + n <= i < len ==> At(r, i) == None)
    && (forall i: int {:trigger At(r, i)} :: len - del + n <= i && len <= i ==> At(r, i) == At(m, i))
  }

  /** Filling the gap completes the splice. */
  lemma GapFilled<V>(m: Elems<V>, len: nat, start: nat, del: nat, items: seq<V>, moved: Elems<V>, r: Elems<V>)
    requires start + del <= len && IsTailMoved(m, len, start, del, |items|, moved)
    requires forall i: int {:trigger At(r, i)} ::
      start <= i < start + |items| ==> At(r, i) == Some(items[i - start])
    requires forall i: int {:trigger At(r, i)} ::
      i < start || start + |items| <= i ==> At(r, i) == At(moved, i)
    ensures IsSpliced(m, len, start, del, items, r)
  {
  }

  /** A real array stays one, under the new length. */
  lemma SplicedStaysBelow<V>(m: Elems<V>, len: nat, start: nat, del: nat, items: seq<V>, r: Elems<V>)
    requires Below(m, len) && start + del <= len && IsSpliced(m, len, start, del, items, r)
    ensures Below(r, len - del + |items|)
  {
    forall i | i in r ensures i < len - del + |items| {
      assert At(r, i).Some?;
      assert len <= i ==> At(m, i) == None;
    }
  }

  /** Splicing a removed range without holes back in restores the array. */
  lemma SpliceBack<V>(m: Elems<V>, len: nat, start: nat, removed: seq<V>, items: seq<V>, r: Elems<V>, q: Elems<V>)
    requires Below(m, len) && start + |removed| <= len
    requires forall j: int :: 0 <= j < |removed| ==> At(m, start + j) == Some(removed[j])
    requires IsSpliced(m, len, start, |removed|, items, r)
    requires IsSpliced(r, len - |removed| + |items|, start, |items|, removed, q)
    ensures q == m
  {
    var del, n := |removed|, |items|;
    forall i: int ensures At(q, i) == At(m, i) {
      if i < start {
        assert At(q, i) == At(r, i);
      } else if i < start + del {
        assert At(q, i) == Some(removed[i - start]) == At(m, start + (i - start));
      } else if i < len {
        assert At(q, i) == At(r, i + n - del) == At(m, i);
      } else {
        assert At(m, i) == None;
        assert len - del + n <= i ==> At(r, i) == At(m, i);
      }
    }
    Extensional(q, m);
  }

  /** Copies the range to be removed, with its holes, into a new array, if there can be one of
      that length. */
  method Removed<V>(O: ArrayObject<V>, start: nat, del: nat) returns (res: Result<ArrayObject<V>>)
    ensures del <= MAXIMUM_ARRAY_LENGTH ==>
      && res.Ok? && fresh(res.value) && res.value.isArray
      && res.value.length == del && IsSlice(O.elems, start, start + del, res.value.elems)
    ensures del > MAXIMUM_ARRAY_LENGTH ==> res == Err(RangeError)
  {
    res := CreateArray(del);
    if res.Err? {
      return;
    }
    var A := res.value;
    var k := 0;
    while k < del
      invariant 0 <= k <= del && A.length == del && fresh(A)
      invariant forall i: int {:trigger At(A.elems, i)} :: 0 <= i < k ==> At(A.elems, i) == At(O.elems, start + i)
      invariant forall i: int {:trigger At(A.elems, i)} :: i < 0 || k <= i ==> At(A.elems, i) == None
    {
      if O.Has(start + k) {
        A.Define(k, O.Get(start + k));
      }
      k := k + 1;
    }
    var _ := A.SetLength(del);
  }

  /** Moves the tail down, ascending, and deletes what is left at the end. */
  method MoveDown<V>(O: ArrayObject<V>, len: nat, start: nat, del: nat, n: nat)
    requires start + del <= len && n < del
    modifies O`elems
    ensures forall i: int {:trigger At(O.elems, i)} ::
      start + n <= i < len - del + n ==> At(O.elems, i) == At(old(O.elems), i + del - n)
    ensures forall i: int {:trigger At(O.elems, i)} :: len - del + n <= i < len ==> At(O.elems, i) == None
    ensures forall i: int {:trigger At(O.elems, i)} ::
      i < start + n || len <= i ==> At(O.elems, i) == At(old(O.elems), i)
  {
    ghost var was := O.elems;
    var k := start;
    while k < len - del
      invariant start <= k <= len - del
      invariant forall i: int {:trigger At(O.elems, i)} ::
        start + n <= i < k + n ==> At(O.elems, i) == At(was, i + del - n)
      invariant forall i: int {:trigger At(O.elems, i)} ::
        i < start + n || k + n <= i ==> At(O.elems, i) == At(was, i)
    {
      var from := k + del;
      var to := k + n;
      assert At(O.elems, from) == At(was, from);
      if O.Has(from) {
        O.Put(to, O.Get(from));
      } else {
        O.Delete(to);
      }
      k := k + 1;
    }
    k := len;
    while k > len - del + n
      invariant len - del + n <= k <= len
      invariant forall i: int {:trigger At(O.elems, i)} ::
        start + n <= i < len - del + n ==> At(O.elems, i) == At(was, i + del - n)
      invariant forall i: int {:trigger At(O.elems, i)} :: k <= i < len ==> At(O.elems, i) == None
      invariant forall i: int {:trigger At(O.elems, i)} ::
        i < start + n || len <= i ==> At(O.elems, i) == At(was, i)
    {
      O.Delete(k - 1);
      k := k - 1;
    }
  }

  /** Moves the tail up, descending. */
  method MoveUp<V>(O: ArrayObject<V>, len: nat, start: nat, del: nat, n: nat)
    requires start + del <= len && del < n
    modifies O`elems
    ensures forall i: int {:trigger At(O.elems, i)} ::
      start + n <= i < len - del + n ==> At(O.elems, i) == At(old(O.elems), i + del - n)
    ensures forall i: int {:trigger At(O.elems, i)} ::
      i < start + n || len - del + n <= i ==> At(O.elems, i) == At(old(O.elems), i)
  {
    ghost var was := O.elems;
    var k := len - del;
    while k > start
      invariant start <= k <= len - del
      invariant forall i: int {:trigger At(O.elems, i)} ::
        k + n <= i < len - del + n ==> At(O.elems, i) == At(was, i + del - n)
      invariant forall i: int {:trigger At(O.elems, i)} ::
        i < k + n || len - del + n <= i ==> At(O.elems, i) == At(was, i)
    {
      var from := k + del - 1;
      var to := k + n - 1;
      assert At(O.elems, from) == At(was, from);
      if O.Has(from) {
        O.Put(to, O.Get(from));
      } else {
        O.Delete(to);
      }
      k := k - 1;
    }
  }

  /** Makes the gap as wide as the items need. */
  method MoveTail<V>(O: ArrayObject<V>, len: nat, start: nat, del: nat, n: nat)
    requires start + del <= len
    modifies O`elems
    ensures IsTailMoved(old(O.elems), len, start, del, n, O.elems)
  {
    if n < del {
      MoveDown(O, len, start, del, n);
    } else if n > del {
      MoveUp(O, len, start, del, n);
    }
  }

  /** Puts the items into the gap. */
  method WriteItems<V>(O: ArrayObject<V>, start: nat, items: seq<V>)
    modifies O`elems
    ensures forall i: int {:trigger At(O.elems, i)} ::
      start <= i < start + |items| ==> At(O.elems, i) == Some(items[i - start])
    ensures forall i: int {:trigger At(O.elems, i)} ::
      i < start || start + |items| <= i ==> At(O.elems, i) == At(old(O.elems), i)
  {
    ghost var was := O.elems;
    var k := start;
    var itemsIndex := 0;
    while itemsIndex < |items|
      invariant 0 <= itemsIndex <= |items| && k == start + itemsIndex
      invariant forall i: int {:trigger At(O.elems, i)} :: start <= i < k ==> At(O.elems, i) == Some(items[i - start])
      invariant forall i: int {:trigger At(O.elems, i)} :: i < start || k <= i ==> At(O.elems, i) == At(was, i)
    {
      var E := items[itemsIndex];
      itemsIndex := itemsIndex + 1;
      O.Put(k, E);
      k := k + 1;
    }
  }

  /** Returns the removed range as a new array; refuses a length above the maximum and a removed
      range that no array can hold beforehand, and a length that a real array cannot have when
      all has been moved. */
  method Splice<V>(O: ArrayObject<V>, args: Arguments<V>) returns (res: Result<ArrayObject<V>>)
    modifies O
    ensures old(O.Valid()) ==> O.Valid()
    ensures LandsOn(if args.NoArguments? then 0 else args.start, old(O.length), StartOf(args, old(O.length)))
    ensures
      var len, del, items := old(O.length), DeleteCountOf(args, old(O.length)), ItemsOf(args);
      var start, newLength := StartOf(args, len), len - del + |items|;
      if newLength > MAXIMUM_LENGTH then
        res == Err(TypeError) && O.elems == old(O.elems) && O.length == len
      else if del > MAXIMUM_ARRAY_LENGTH then
        res == Err(RangeError) && O.elems == old(O.elems) && O.length == len
      else
        && IsSpliced(old(O.elems), len, start, del, items, O.elems)
        && (if O.isArray && newLength > MAXIMUM_ARRAY_LENGTH then res == Err(RangeError)
            else
              && res.Ok? && fresh(res.value) && res.value.isArray && O.length == newLength
              && res.value.length == del && IsSlice(old(O.elems), start, start + del, res.value.elems))
  {
    var len := O.length;
    var start := StartOf(args, len);
    var del := DeleteCountOf(args, len);
    var items := ItemsOf(args);
    if len + |items| - del > MAXIMUM_LENGTH {
      return Err(TypeError);
    }
    res := Removed(O, start, del);
    if res.Err? {
      return;
    }
    ghost var was := O.elems;
    MoveTail(O, len, start, del, |items|);
    ghost var moved := O.elems;
    WriteItems(O, start, items);
    GapFilled(was, len, start, del, items, moved, O.elems);
    var ok := O.SetLength(len - del + |items|);
    if !ok {
      return Err(RangeError);
    }
  }
}
