/** Ordinary objects with indexed properties, and the two scans that jump over runs of
    absent indices (src/runtime/Object.cpp). */
module ArrayObjects {
  import opened Limits
  import opened Options

  /** A relative index lands on `i` in an array of length `len`: one that is less than a length
      away from the start, to either side, on the slot congruent to it; one further down on 0, one
      further up on `len`. */
  predicate LandsOn(relative: int, len: nat, i: int) {
    && (relative + len < 0 ==> i == 0)
    && (0 <= relative + len < len + len ==> 0 <= i < len && (i == relative || i == relative + len))
    && (len <= relative ==> i == len)
  }

  /** A relative index lands in one place only. */
  lemma LandsOnce(relative: int, len: nat, i: int, j: int)
    requires LandsOn(relative, len, i) && LandsOn(relative, len, j)
    ensures i == j
  {
  }

  /** Where a relative index lands. An infinity behaves like any integer beyond the length. */
  function Clamp(relative: int, len: nat): (i: nat)
    ensures i <= len && LandsOn(relative, len, i)
  {
    if relative < 0 then
      if len + relative < 0 then 0 else len + relative
    else
      if relative < len then relative else len
  }

  /** Own indexed properties: present index to value. */
  type Elems<V> = map<nat, V>

  /** Presence and value of index `i` in one go. */
  function At<V>(m: Elems<V>, i: int): Option<V> {
    if i in m then Some(m[i]) else None
  }

  /** Two property maps with the same presence and value everywhere are equal. */
  lemma Extensional<V>(a: Elems<V>, b: Elems<V>)
    requires forall i: int :: At(a, i) == At(b, i)
    ensures a == b
  {
    forall i | i in a ensures i in b && a[i] == b[i] {
      assert At(a, i) == At(b, i);
    }
    forall i | i in b ensures i in a {
      assert At(a, i) == At(b, i);
    }
  }

  /** Stores a value at `i`, or deletes `i` when there is none: the step that the standard's
      loops repeat. */
  function Assign<V>(m: Elems<V>, i: nat, o: Option<V>): (r: Elems<V>)
    ensures forall j: int :: At(r, j) == if j == i then o else At(m, j)
  {
    match o
    case Some(v) => m[i := v]
    case None => map j | j in m && j != i :: m[j]
  }

  /** Every index lies below `len`, as in any real array. */
  ghost predicate Below<V>(m: Elems<V>, len: int) {
    forall i: nat :: i in m ==> i < len
  }

  /** What a forward scan from `cur` bounded by `end` must return: the nearest present index
      strictly between the two, otherwise `end`, but always at least one past `cur`. */
  ghost predicate IsNextForward<V>(m: Elems<V>, cur: int, end: int, next: int) {
    && cur < next
    && (forall i: nat :: cur < i < next ==> i !in m)
    && (if end <= cur then next == cur + 1
        else next <= end && (next == end || next in m))
  }

  /** What a backward scan from `cur` bounded by `end` must return: the nearest present index
      strictly between the two, otherwise `end`, but always at least one before `cur`. */
  ghost predicate IsNextBackward<V>(m: Elems<V>, cur: int, end: int, next: int) {
    && next < cur
    && (forall i: nat :: next < i < cur ==> i !in m)
    && (if cur <= end then next == cur - 1
        else end <= next && (next == end || next in m))
  }

  /** The scan contracts leave no choice of result. */
  lemma NextIsUnique<V>(m: Elems<V>, cur: int, end: int, a: int, b: int)
    ensures IsNextForward(m, cur, end, a) && IsNextForward(m, cur, end, b) ==> a == b
    ensures IsNextBackward(m, cur, end, a) && IsNextBackward(m, cur, end, b) ==> a == b
  {
    if a in m && b in m {
      var i: nat, j: nat := a, b;
    }
  }

  /** An ordinary object whose indexed properties are plain writable data properties and
      whose prototypes have none: a real array, or an array-like object with a length. */
  class ArrayObject<V> {
    const isArray: bool
    var elems: Elems<V>
    var length: nat

    predicate Valid()
      reads this`length
    {
      isArray ==> length <= MAXIMUM_ARRAY_LENGTH
    }

    /** A new array of the given length, all holes. */
    constructor (length: nat)
      requires length <= MAXIMUM_ARRAY_LENGTH
      ensures isArray && this.length == length && elems == map[]
    {
      isArray := true;
      this.length := length;
      elems := map[];
    }

    predicate Has(i: int)
      reads this`elems
    {
      i in elems
    }

    function Get(i: int): V
      requires Has(i)
      reads this`elems
    {
      elems[i]
    }

    /** Sets an indexed property of an object whose length was read beforehand. */
    method Put(i: nat, v: V)
      modifies this`elems
      ensures forall j: int :: At(elems, j) == if j == i then Some(v) else At(old(elems), j)
    {
      elems := elems[i := v];
    }

    /** Deletes an indexed property; deleting an absent one changes nothing. */
    method Delete(i: int)
      modifies this`elems
      ensures forall j: int :: At(elems, j) == if j == i then None else At(old(elems), j)
    {
      elems := map j | j in elems && j != i :: elems[j];
    }

    /** Defines an own property of a result array, whose length follows its highest array index. */
    method Define(i: nat, v: V)
      requires isArray
      modifies this
      ensures forall j: int :: At(elems, j) == if j == i then Some(v) else At(old(elems), j)
      ensures length == if i < old(length) || MAXIMUM_ARRAY_LENGTH <= i then old(length) else i + 1
    {
      elems := elems[i := v];
      if i < MAXIMUM_ARRAY_LENGTH && length <= i {
        length := i + 1;
      }
    }

    /** Assigns the length, which a real array refuses above its maximum. */
    method SetLength(newLength: nat) returns (ok: bool)
      modifies this`length
      ensures ok <==> !isArray || newLength <= MAXIMUM_ARRAY_LENGTH
      ensures length == if ok then newLength else old(length)
    {
      ok := !isArray || newLength <= MAXIMUM_ARRAY_LENGTH;
      if ok {
        length := newLength;
      }
    }

    /** The running minimum over an enumeration of the present indices, in whatever order the
        enumeration visits them. */
    method NextIndexForward(cur: int, end: int) returns (next: int)
      ensures IsNextForward(elems, cur, end, next)
    {
      var ret := end;
      var remaining := elems.Keys;
      while remaining != {}
        invariant remaining <= elems.Keys
        invariant ret == end || (ret in elems && cur < ret < end)
        invariant forall i: nat :: i in elems && i !in remaining && cur < i ==> ret <= i
        decreases |remaining|
      {
        var index :| index in remaining;
        if index > cur && ret > index {
          ret := index;
        }
        remaining := remaining - {index};
      }
      next := if ret < cur + 1 then cur + 1 else ret;
    }

    /** The running maximum over an enumeration of the present indices. */
    method NextIndexBackward(cur: int, end: int) returns (next: int)
      ensures IsNextBackward(elems, cur, end, next)
    {
      var ret := end;
      var remaining := elems.Keys;
      while remaining != {}
        invariant remaining <= elems.Keys
        invariant ret == end || (ret in elems && end < ret < cur)
        invariant forall i: nat :: i in elems && i !in remaining && i < cur ==> i <= ret
        decreases |remaining|
      {
        var index :| index in remaining;
        if index < cur && ret < index {
          ret := index;
        }
        remaining := remaining - {index};
      }
      next := if cur - 1 < ret then cur - 1 else ret;
    }
  }
  /** A new array, or a RangeError above the maximum length of one. */
  method CreateArray<V>(length: nat) returns (res: Result<ArrayObject<V>>)
    ensures length <= MAXIMUM_ARRAY_LENGTH ==>
      res.Ok? && fresh(res.value) && res.value.isArray && res.value.length == length && res.value.elems == map[]
    ensures length > MAXIMUM_ARRAY_LENGTH ==> res == Err(RangeError)
  {
    if length > MAXIMUM_ARRAY_LENGTH {
      return Err(RangeError);
    }
    var A := new ArrayObject<V>(length);
    return Ok(A);
  }
}
