/** Array.prototype.slice and concat (src/builtins/BuiltinArray.cpp), which skip runs of holes
    but keep every element at its position. */
module ArraySlice {
  import opened Limits
  import opened Options
  import opened ArrayObjects

  /** `r` holds the slots of `m` from `start` up to `end`, moved to the front. */
  ghost predicate IsSlice<V>(m: Elems<V>, start: int, end: int, r: Elems<V>) {
    && (forall i: int {:trigger At(r, i)} :: 0 <= i < end - start ==> At(r, i) == At(m, start + i))
    && (forall i: int {:trigger At(r, i)} :: i < 0 || end - start <= i ==> At(r, i) == None)
  }

  /** Where a slice ends: where the argument lands, or at the end without one. */
  function SliceEnd(end: Option<int>, len: nat): (to: nat)
    ensures to <= len && (end.None? ==> to == len) && (end.Some? ==> LandsOn(end.value, len, to))
  {
    Clamp(if end.None? then len else end.value, len)
  }

  /** A new array, or a RangeError when no array can be as long as the range. */
  method Slice<V>(O: ArrayObject<V>, start: int, end: Option<int>) returns (res: Result<ArrayObject<V>>)
    ensures LandsOn(start, O.length, Clamp(start, O.length))
    ensures
      var from, to := Clamp(start, O.length), SliceEnd(end, O.length);
      if to - from > MAXIMUM_ARRAY_LENGTH then res == Err(RangeError)
      else
        && res.Ok? && fresh(res.value) && res.value.isArray && IsSlice(O.elems, from, to, res.value.elems)
        && res.value.length == if from < to then to - from else 0
  {
    var len := O.length;
    var k := Clamp(start, len);
    var kStart := k;
    var finalEnd := SliceEnd(end, len);
    var n := 0;
    res := CreateArray(if finalEnd - k < 0 then 0 else finalEnd - k);
    if res.Err? {
      return;
    }
    var A := res.value;
    while k < finalEnd
      invariant kStart <= k <= len && n == k - kStart && fresh(A)
      invariant forall i: int {:trigger At(A.elems, i)} :: 0 <= i < n && i < finalEnd - kStart ==>
        At(A.elems, i) == At(O.elems, kStart + i)
      invariant forall i: int {:trigger At(A.elems, i)} :: i < 0 || n <= i || finalEnd - kStart <= i ==>
        At(A.elems, i) == None
      decreases finalEnd - k
    {
      var exists_ := O.Has(k);
      if exists_ {
        A.Define(n, O.Get(k));
        k := k + 1;
        n := n + 1;
      } else {
        var result := O.NextIndexForward(k, len);
        forall i: int | k <= i < result ensures At(O.elems, i) == None {}
        n := n + (result - k);
        k := result;
      }
    }
    if finalEnd - kStart > 0 {
      var _ := A.SetLength(finalEnd - kStart);
    } else {
      var _ := A.SetLength(0);
    }
  }

  /** An argument of concat: an array to spread, or a value to append as it is. Only objects are
      held to the maximum length, primitive values are not. */
  datatype Argument<V> = Spread(source: ArrayObject<V>) | Whole(value: V, isObject: bool)

  /** An argument whose length is checked before it is appended. */
  predicate IsBounded<V>(arg: Argument<V>) {
    arg.Whole? ==> arg.isObject
  }

  /** What one argument contributes: so many slots, some of them filled. */
  datatype Piece<V> = Piece(elems: Elems<V>, len: nat)

  ghost function PieceOf<V>(arg: Argument<V>): (piece: Piece<V>)
    reads if arg.Spread? then {arg.source} else {}
    ensures arg.Spread? ==>
      piece.len == arg.source.length && forall i: int :: At(piece.elems, i) == At(arg.source.elems, i)
    ensures arg.Whole? ==> piece.len == 1 && At(piece.elems, 0) == Some(arg.value)
  {
    match arg
    case Spread(source) => Piece(source.elems, source.length)
    case Whole(value, _) => Piece(map[0 := value], 1)
  }

  ghost function TotalLength<V>(pieces: seq<Piece<V>>): nat {
    if pieces == [] then 0
    else TotalLength(pieces[..|pieces| - 1]) + pieces[|pieces| - 1].len
  }

  /** What the concatenation of the pieces holds at index `i`. */
  ghost function SlotOf<V>(pieces: seq<Piece<V>>, i: int): Option<V> {
    if pieces == [] then None
    else
      var before, last := pieces[..|pieces| - 1], pieces[|pieces| - 1];
      var n := TotalLength(before);
      if i < n then SlotOf(before, i)
      else if i < n + last.len then At(last.elems, i - n)
      else None
  }

  ghost predicate IsConcat<V>(pieces: seq<Piece<V>>, r: Elems<V>) {
    forall i: int {:trigger At(r, i)} :: At(r, i) == SlotOf(pieces, i)
  }

  /** A longer list of pieces is at least as long as any prefix, and agrees with it there. */
  lemma {:induction false} SlotOfPrefix<V>(pieces: seq<Piece<V>>, p: nat, i: int)
    requires p <= |pieces|
    ensures TotalLength(pieces[..p]) <= TotalLength(pieces)
    ensures i < TotalLength(pieces[..p]) ==> SlotOf(pieces, i) == SlotOf(pieces[..p], i)
  {
    if p == |pieces| {
      assert pieces[..p] == pieces;
    } else {
      SlotOfPrefix(pieces[..|pieces| - 1], p, i);
      assert pieces[..|pieces| - 1][..p] == pieces[..p];
    }
  }

  /** The piece behind a prefix. */
  lemma NextPiece<V>(pieces: seq<Piece<V>>, p: nat)
    requires p < |pieces|
    ensures pieces[..p + 1] == pieces[..p] + [pieces[p]]
    ensures TotalLength(pieces[..p + 1]) == TotalLength(pieces[..p]) + pieces[p].len
  {
    var upTo := pieces[..p + 1];
    assert upTo[..p] == pieces[..p];
  }

  /** What the last piece holds. */
  lemma LastSlot<V>(before: seq<Piece<V>>, last: Piece<V>, k: nat)
    requires k < last.len
    ensures SlotOf(before + [last], TotalLength(before) + k) == At(last.elems, k)
  {
    var all := before + [last];
    assert all[..|all| - 1] == before;
  }

  /** Slot `k` of piece `p` lands at the sum of the lengths before it plus `k`; nothing lands
      outside the total length. */
  lemma SlotPosition<V>(pieces: seq<Piece<V>>, p: nat, k: nat)
    requires p < |pieces| && k < pieces[p].len
    ensures SlotOf(pieces, TotalLength(pieces[..p]) + k) == At(pieces[p].elems, k)
    ensures TotalLength(pieces[..p]) + k < TotalLength(pieces)
  {
    NextPiece(pieces, p);
    LastSlot(pieces[..p], pieces[p], k);
    SlotOfPrefix(pieces, p + 1, TotalLength(pieces[..p]) + k);
  }

  lemma {:induction false} NothingOutside<V>(pieces: seq<Piece<V>>, i: int)
    requires i < 0 || TotalLength(pieces) <= i
    ensures SlotOf(pieces, i) == None
  {
    if pieces != [] && i < TotalLength(pieces[..|pieces| - 1]) {
      NothingOutside(pieces[..|pieces| - 1], i);
    }
  }

  lemma NothingBeyond<V>(pieces: seq<Piece<V>>, r: Elems<V>)
    requires IsConcat(pieces, r)
    ensures forall i: int :: TotalLength(pieces) <= i ==> At(r, i) == None
  {
    forall i: int | TotalLength(pieces) <= i ensures At(r, i) == None {
      NothingOutside(pieces, i);
    }
  }

  /** One more piece behind those already placed. */
  lemma AppendPiece<V>(pieces: seq<Piece<V>>, piece: Piece<V>, r: Elems<V>, q: Elems<V>)
    requires IsConcat(pieces, r)
    requires forall i: int {:trigger At(q, i)} ::
      TotalLength(pieces) <= i < TotalLength(pieces) + piece.len ==>
        At(q, i) == At(piece.elems, i - TotalLength(pieces))
    requires forall i: int {:trigger At(q, i)} ::
      i < TotalLength(pieces) || TotalLength(pieces) + piece.len <= i ==> At(q, i) == At(r, i)
    ensures IsConcat(pieces + [piece], q)
    ensures TotalLength(pieces + [piece]) == TotalLength(pieces) + piece.len
  {
    var all := pieces + [piece];
    assert all[..|all| - 1] == pieces;
    forall i: int ensures At(q, i) == SlotOf(all, i) {
      if TotalLength(pieces) + piece.len <= i {
        NothingOutside(pieces, i);
        assert At(q, i) == At(r, i);
      }
    }
  }

  /** Cutting an array in two and concatenating the halves restores it, holes included. */
  lemma ConcatOfSlices<V>(m: Elems<V>, len: nat, k: nat, a: Elems<V>, b: Elems<V>, r: Elems<V>)
    requires Below(m, len) && k <= len
    requires IsSlice(m, 0, k, a) && IsSlice(m, k, len, b)
    requires IsConcat([Piece(a, k), Piece(b, len - k)], r)
    ensures r == m && TotalLength([Piece(a, k), Piece(b, len - k)]) == len
  {
    var pieces := [Piece(a, k), Piece(b, len - k)];
    assert pieces[..1] == [Piece(a, k)] && pieces[..1][..0] == [];
    assert TotalLength(pieces[..1]) == k;
    forall i: int ensures At(r, i) == At(m, i) {
      assert At(r, i) == SlotOf(pieces, i);
      if i < 0 || len <= i {
        NothingOutside(pieces, i);
        assert i in m ==> i < len;
      } else if i < k {
        SlotPosition(pieces, 0, i);
        assert At(a, i) == At(m, i);
      } else {
        SlotPosition(pieces, 1, i - k);
        assert At(b, i - k) == At(m, i);
      }
    }
    Extensional(r, m);
  }

  /** What each argument of a list contributes. */
  ghost function PiecesOf<V>(args: seq<Argument<V>>): (pieces: seq<Piece<V>>)
    reads set arg | arg in args && arg.Spread? :: arg.source
    ensures |pieces| == |args|
    ensures forall i :: 0 <= i < |args| ==> pieces[i] == PieceOf(args[i])
  {
    if args == [] then [] else [PieceOf(args[0])] + PiecesOf(args[1..])
  }

  /** Why an argument is refused that would bring the length to `total`: too long for any object,
      or, when the array it is copied from is to set the length, for a real array. */
  function Refusal<V>(arg: Argument<V>, total: nat): Option<Error> {
    if IsBounded(arg) && total > MAXIMUM_LENGTH then Some(TypeError)
    else if arg.Spread? && total > MAXIMUM_ARRAY_LENGTH then Some(RangeError)
    else None
  }

  /** Whether an argument is refused depends on what bounds the length: an array to spread is held
      to the maximum length of arrays, another object to that of objects, a primitive value to
      none; a TypeError goes before a RangeError. */
  lemma RefusalIff<V>(arg: Argument<V>, total: nat)
    ensures Refusal(arg, total).None? <==>
      (arg.Spread? ==> total <= MAXIMUM_ARRAY_LENGTH) && (IsBounded(arg) ==> total <= MAXIMUM_LENGTH)
    ensures Refusal(arg, total) == Some(TypeError) <==> IsBounded(arg) && total > MAXIMUM_LENGTH
  {
  }

  /** Copies one array behind the slots already placed, jumping over its holes. */
  method AppendSpread<V>(A: ArrayObject<V>, arr: ArrayObject<V>, n: nat, ghost before: seq<Piece<V>>)
    returns (ok: bool)
    requires A != arr && A.isArray && n == TotalLength(before) && IsConcat(before, A.elems)
    modifies A
    ensures ok <==> n + arr.length <= MAXIMUM_ARRAY_LENGTH
    ensures ok ==> A.length == n + arr.length == TotalLength(before + [Piece(arr.elems, arr.length)])
    ensures IsConcat(before + [Piece(arr.elems, arr.length)], A.elems)
  {
    ghost var was := A.elems;
    NothingBeyond(before, was);
    var k := 0;
    var len := arr.length;
    while k < len
      invariant 0 <= k <= len
      invariant forall i: int {:trigger At(A.elems, i)} :: n <= i < n + k ==> At(A.elems, i) == At(arr.elems, i - n)
      invariant forall i: int {:trigger At(A.elems, i)} :: i < n || n + k <= i ==> At(A.elems, i) == At(was, i)
    {
      if arr.Has(k) {
        A.Define(n + k, arr.Get(k));
        k := k + 1;
      } else {
        var result := arr.NextIndexForward(k, len);
        forall j: int | k <= j < result ensures At(arr.elems, j) == None {}
        k := result;
      }
    }
    AppendPiece(before, Piece(arr.elems, arr.length), was, A.elems);
    ok := A.SetLength(n + len);
  }

  /** Defines one value behind the slots already placed. */
  method AppendWhole<V>(A: ArrayObject<V>, v: V, n: nat, ghost before: seq<Piece<V>>)
    requires A.isArray && n == TotalLength(before) && IsConcat(before, A.elems)
    requires A.length == Min(n, MAXIMUM_ARRAY_LENGTH)
    modifies A
    ensures A.length == Min(n + 1, MAXIMUM_ARRAY_LENGTH)
    ensures IsConcat(before + [Piece(map[0 := v], 1)], A.elems)
  {
    ghost var was := A.elems;
    A.Define(n, v);
    AppendPiece(before, Piece(map[0 := v], 1), was, A.elems);
  }

  /** One round of concat's loop: the argument is appended, or one of the length checks refuses it. */
  method AppendArgument<V>(A: ArrayObject<V>, arg: Argument<V>, n: nat, ghost before: seq<Piece<V>>)
    returns (error: Option<Error>, newN: nat)
    requires A.isArray && n == TotalLength(before) && IsConcat(before, A.elems)
    requires A.length == Min(n, MAXIMUM_ARRAY_LENGTH)
    requires arg.Spread? ==> A != arg.source
    modifies A
    ensures newN == n + old(PieceOf(arg)).len
    ensures error == Refusal(arg, newN)
    ensures error.None? ==>
      IsConcat(before + [old(PieceOf(arg))], A.elems) && A.length == Min(newN, MAXIMUM_ARRAY_LENGTH)
  {
    match arg {
      case Spread(arr) =>
        newN := n + arr.length;
        if n + arr.length > MAXIMUM_LENGTH {
          return Some(TypeError), newN;
        }
        var ok := AppendSpread(A, arr, n, before);
        if !ok {
          return Some(RangeError), newN;
        }
      case Whole(v, isObject) =>
        newN := n + 1;
        if isObject && n >= MAXIMUM_LENGTH {
          return Some(TypeError), newN;
        }
        AppendWhole(A, v, n, before);
    }
    return None, newN;
  }

  /** Why the argument at index `i` is refused, if it is. */
  ghost function RefusalAt<V>(args: seq<Argument<V>>, pieces: seq<Piece<V>>, i: nat): Option<Error>
    requires i < |args| == |pieces|
  {
    Refusal(args[i], TotalLength(pieces[..i + 1]))
  }

  /** None of the first `n` arguments is refused. */
  ghost predicate NoneRefused<V>(args: seq<Argument<V>>, pieces: seq<Piece<V>>, n: nat)
    requires n <= |args| == |pieces|
  {
    forall i: nat :: i < n ==> RefusalAt(args, pieces, i).None?
  }

  /** Unless the last argument is a primitive value, whose length is not checked, all arguments
      together stay within the maximum. */
  lemma BoundedStaysBounded<V>(args: seq<Argument<V>>, pieces: seq<Piece<V>>)
    requires 0 < |args| == |pieces| && NoneRefused(args, pieces, |args|)
    ensures IsBounded(args[|args| - 1]) ==> TotalLength(pieces) <= MAXIMUM_LENGTH
  {
    var i: nat := |args| - 1;
    assert RefusalAt(args, pieces, i).None? && pieces[..i + 1] == pieces;
  }

  /** The argument at index `i` is refused, and none before it. */
  ghost predicate FirstRefused<V>(args: seq<Argument<V>>, pieces: seq<Piece<V>>, i: nat, error: Error)
    requires i < |args| == |pieces|
  {
    NoneRefused(args, pieces, i) && RefusalAt(args, pieces, i) == Some(error)
  }

  /** `error` is that of the first argument that is refused. */
  ghost predicate IsRefused<V>(args: seq<Argument<V>>, pieces: seq<Piece<V>>, error: Error)
    requires |args| == |pieces|
  {
    exists i: nat :: i < |args| && FirstRefused(args, pieces, i, error)
  }

  lemma RefusedHere<V>(args: seq<Argument<V>>, pieces: seq<Piece<V>>, i: nat, error: Error)
    requires i < |args| == |pieces| && FirstRefused(args, pieces, i, error)
    ensures IsRefused(args, pieces, error)
  {
  }

  /** Appends all arguments to an empty array, up to the first that is refused. */
  method AppendAll<V>(A: ArrayObject<V>, args: seq<Argument<V>>, ghost pieces: seq<Piece<V>>)
    returns (error: Option<Error>)
    requires A.isArray && A.length == 0 && A.elems == map[]
    requires |pieces| == |args| && forall i :: 0 <= i < |args| ==> pieces[i] == PieceOf(args[i])
    requires forall i :: 0 <= i < |args| ==> args[i].Spread? ==> A != args[i].source
    modifies A
    ensures error.None? ==>
      && IsConcat(pieces, A.elems) && A.length == Min(TotalLength(pieces), MAXIMUM_ARRAY_LENGTH)
      && NoneRefused(args, pieces, |args|)
    ensures error.Some? ==> IsRefused(args, pieces, error.value)
  {
    var n := 0;
    var i := 0;
    while i < |args|
      invariant 0 <= i <= |args|
      invariant n == TotalLength(pieces[..i]) && A.length == Min(n, MAXIMUM_ARRAY_LENGTH)
      invariant IsConcat(pieces[..i], A.elems)
      invariant NoneRefused(args, pieces, i)
    {
      assert pieces[i] == PieceOf(args[i]);
      NextPiece(pieces, i);
      error, n := AppendArgument(A, args[i], n, pieces[..i]);
      assert error == RefusalAt(args, pieces, i);
      if error.Some? {
        RefusedHere(args, pieces, i, error.value);
        return;
      }
      i := i + 1;
    }
    assert pieces[..i] == pieces;
    return None;
  }

  /** The receiver and the arguments in a new array, or the error of the first that is refused. */
  method Concat<V>(O: Argument<V>, rest: seq<Argument<V>>) returns (res: Result<ArrayObject<V>>)
    requires IsBounded(O)
    ensures var args, pieces := [O] + rest, old(PiecesOf([O] + rest));
      match res
      case Ok(A) =>
        && fresh(A) && A.isArray && IsConcat(pieces, A.elems)
        && A.length == Min(TotalLength(pieces), MAXIMUM_ARRAY_LENGTH)
        && NoneRefused(args, pieces, |args|)
      case Err(e) => IsRefused(args, pieces, e)
  {
    var args := [O] + rest;
    ghost var pieces := PiecesOf(args);
    var A := new ArrayObject<V>(0);
    assert forall i :: 0 <= i < |args| ==> pieces[i] == old(PieceOf(args[i])) == PieceOf(args[i]);
    var error := AppendAll(A, args, pieces);
    return if error.None? then Ok(A) else Err(error.value);
  }
}
