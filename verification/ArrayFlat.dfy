/** Array.prototype.flat and flatMap (src/builtins/BuiltinArray.cpp). */
module ArrayFlat {
  import opened Limits
  import opened Options
  import opened ArrayObjects
  import opened JsValues
  import opened Sequences

  /** How deep to flatten. */
  datatype Depth = Finite(n: int) | Infinite {

    predicate Positive() {
      Infinite? || 0 < n
    }

    function Less(): Depth {
      if Infinite? then Infinite else Finite(n - 1)
    }

    function Plus(that: Depth): Depth {
      if Infinite? || that.Infinite? then Infinite else Finite(n + that.n)
    }
  }

  /** The depth-bounded flattening of the elements of a list from index `k` on, left to right,
      without the holes. */
  function Flatten(source: JsValue, k: nat, depth: Depth): seq<JsValue>
    requires source.List?
    decreases source, source.length - k
  {
    if source.length <= k then []
    else if k !in source.elems then Flatten(source, k + 1, depth)
    else
      var element := source.elems[k];
      (if depth.Positive() && element.List? then Flatten(element, 0, depth.Less()) else [element])
      + Flatten(source, k + 1, depth)
  }

  /** What one value contributes. */
  function FlattenOne(value: JsValue, depth: Depth): seq<JsValue> {
    if depth.Positive() && value.List? then Flatten(value, 0, depth.Less()) else [value]
  }

  /** The same flattening for a sequence of values. */
  function FlattenAll(values: seq<JsValue>, depth: Depth): seq<JsValue> {
    if values == [] then [] else FlattenOne(values[0], depth) + FlattenAll(values[1..], depth)
  }

  /** An array without holes. */
  function Dense(values: seq<JsValue>): JsValue {
    List(map i: nat | i < |values| :: values[i], |values|)
  }

  lemma {:induction false} FlattenDense(values: seq<JsValue>, k: nat, depth: Depth)
    requires k <= |values|
    ensures Flatten(Dense(values), k, depth) == FlattenAll(values[k..], depth)
    decreases |values| - k
  {
    if k < |values| {
      FlattenDense(values, k + 1, depth);
      assert values[k..][1..] == values[k + 1..];
    }
  }

  lemma FlattenAllCons(x: JsValue, rest: seq<JsValue>, depth: Depth)
    ensures FlattenAll([x] + rest, depth) == FlattenOne(x, depth) + FlattenAll(rest, depth)
  {
    assert ([x] + rest)[1..] == rest;
  }

  lemma {:induction false} FlattenAllConcat(a: seq<JsValue>, b: seq<JsValue>, depth: Depth)
    ensures FlattenAll(a + b, depth) == FlattenAll(a, depth) + FlattenAll(b, depth)
  {
    if a == [] {
      assert a + b == b;
    } else {
      var x, rest := a[0], a[1..];
      calc {
        FlattenAll(a + b, depth);
        { assert a + b == [x] + (rest + b); FlattenAllCons(x, rest + b, depth); }
        FlattenOne(x, depth) + FlattenAll(rest + b, depth);
        { FlattenAllConcat(rest, b, depth); }
        FlattenOne(x, depth) + (FlattenAll(rest, depth) + FlattenAll(b, depth));
        { Associative(FlattenOne(x, depth), FlattenAll(rest, depth), FlattenAll(b, depth)); }
        FlattenAll(a, depth) + FlattenAll(b, depth);
      }
    }
  }

  lemma {:induction false} FlattenAllOfFlatten(source: JsValue, k: nat, a: Depth, b: Depth)
    requires source.List?
    requires Finite(1).Plus(a).Positive() && Finite(1).Plus(b).Positive()
    ensures FlattenAll(Flatten(source, k, a), b) == Flatten(source, k, a.Plus(b))
    decreases source, source.length - k
  {
    if k < source.length {
      FlattenAllOfFlatten(source, k + 1, a, b);
      if k in source.elems {
        var element := source.elems[k];
        var head := FlattenOne(element, a);
        FlattenAllConcat(head, Flatten(source, k + 1, a), b);
        if a.Positive() && element.List? {
          FlattenAllOfFlatten(element, 0, a.Less(), b);
          assert a.Less().Plus(b) == a.Plus(b).Less();
        } else {
          assert FlattenAll(head, b) == FlattenOne(element, b) + FlattenAll([], b);
          assert element.List? ==> a.Plus(b) == b;
        }
      }
    }
  }

  /** Flattening by `a` and then by `b` is flattening by `a + b`, for all depths from 0 up. */
  lemma FlatTwice(source: JsValue, a: Depth, b: Depth)
    requires source.List?
    requires a.Infinite? || 0 <= a.n
    requires b.Infinite? || 0 <= b.n
    ensures Flatten(Dense(Flatten(source, 0, a)), 0, b) == Flatten(source, 0, a.Plus(b))
  {
    var values := Flatten(source, 0, a);
    FlattenDense(values, 0, b);
    assert values[0..] == values;
    FlattenAllOfFlatten(source, 0, a, b);
  }

  /** The values present from index `k` on, in order. */
  function Values(source: JsValue, k: nat): seq<JsValue>
    requires source.List?
    decreases source.length - k
  {
    if source.length <= k then []
    else (if k in source.elems then [source.elems[k]] else []) + Values(source, k + 1)
  }

  /** Flattening by nothing keeps the values, nested lists included. */
  lemma {:induction false} FlatByNothing(source: JsValue, k: nat, depth: Depth)
    requires source.List? && depth.Finite? && depth.n <= 0
    ensures Flatten(source, k, depth) == Values(source, k)
    decreases source.length - k
  {
    if k < source.length {
      FlatByNothing(source, k + 1, depth);
    }
  }

  /** Flattening by 1 opens a nested list once, and leaves any other value alone. */
  lemma FlatByOne(element: JsValue)
    ensures FlattenOne(element, Finite(1)) == if element.List? then Values(element, 0) else [element]
  {
    if element.List? {
      FlatByNothing(element, 0, Finite(0));
    }
  }

  /** Flattening without bound leaves no list. */
  lemma {:induction false} InfiniteFlatIsFlat(source: JsValue, k: nat)
    requires source.List?
    ensures forall v :: v in Flatten(source, k, Infinite) ==> !v.List?
    decreases source, source.length - k
  {
    if k < source.length {
      InfiniteFlatIsFlat(source, k + 1);
      if k in source.elems && source.elems[k].List? {
        InfiniteFlatIsFlat(source.elems[k], 0);
      }
    }
  }

  /** The list a mapper turns `source` into: holes stay holes. */
  function Mapped(source: JsValue, mapper: (JsValue, int) -> JsValue): (r: JsValue)
    requires source.List?
    ensures r.List? && r.length == source.length
    ensures forall k: int :: At(source.elems, k).None? ==> At(r.elems, k).None?
    ensures forall k: int, v :: At(source.elems, k) == Some(v) ==> At(r.elems, k) == Some(mapper(v, k))
  {
    List(map k | k in source.elems :: mapper(source.elems[k], k), source.length)
  }

  /** What is appended for the elements from `k` on when there may be a mapper. */
  function Appended(source: JsValue, k: nat, depth: Depth, mapper: Option<(JsValue, int) -> JsValue>): seq<JsValue>
    requires source.List?
  {
    if mapper.None? then Flatten(source, k, depth) else Flatten(Mapped(source, mapper.value), k, depth)
  }

  /** The value visited at index `k`, after the mapper if there is one. */
  function Visited(source: JsValue, k: nat, mapper: Option<(JsValue, int) -> JsValue>): JsValue
    requires source.List? && k in source.elems
  {
    if mapper.None? then source.elems[k] else mapper.value(source.elems[k], k)
  }

  lemma AppendedStep(source: JsValue, k: nat, depth: Depth, mapper: Option<(JsValue, int) -> JsValue>)
    requires source.List? && k < source.length
    ensures Appended(source, k, depth, mapper) ==
      (if k in source.elems then FlattenOne(Visited(source, k, mapper), depth) else [])
      + Appended(source, k + 1, depth, mapper)
  {
    var rest := Appended(source, k + 1, depth, mapper);
    assert [] + rest == rest;
  }

  /** `r` is `m` with the values defined at consecutive indices from `start` on. */
  ghost predicate IsAppended(m: Elems<JsValue>, start: nat, values: seq<JsValue>, r: Elems<JsValue>) {
    && (forall i: int {:trigger At(r, i)} :: start <= i < start + |values| ==> At(r, i) == Some(values[i - start]))
    && (forall i: int {:trigger At(r, i)} :: i < start || start + |values| <= i ==> At(r, i) == At(m, i))
  }

  lemma AppendMore(m: Elems<JsValue>, start: nat, a: seq<JsValue>, b: seq<JsValue>, q: Elems<JsValue>,
      r: Elems<JsValue>)
    requires IsAppended(m, start, a, q) && IsAppended(q, start + |a|, b, r)
    ensures IsAppended(m, start, a + b, r)
  {
  }

  method FlattenIntoArray(target: ArrayObject<JsValue>, source: JsValue, start: nat, depth: Depth,
                          mapper: Option<(JsValue, int) -> JsValue>) returns (targetIndex: nat)
    requires source.List?
    requires mapper.Some? ==> depth == Finite(1)
    requires target.isArray
    modifies target
    ensures targetIndex == start + |Appended(source, 0, depth, mapper)|
    ensures IsAppended(old(target.elems), start, Appended(source, 0, depth, mapper), target.elems)
    ensures old(target.length) == Min(start, MAXIMUM_ARRAY_LENGTH) ==>
      target.length == Min(targetIndex, MAXIMUM_ARRAY_LENGTH)
    decreases mapper.Some?, source
  {
    targetIndex := start;
    var sourceIndex := 0;
    ghost var was := target.elems;
    ghost var all := Appended(source, 0, depth, mapper);
    ghost var done: seq<JsValue> := [];
    while sourceIndex < source.length
      invariant 0 <= sourceIndex <= source.length
      invariant all == done + Appended(source, sourceIndex, depth, mapper)
      invariant targetIndex == start + |done|
      invariant IsAppended(was, start, done, target.elems)
      invariant old(target.length) == Min(start, MAXIMUM_ARRAY_LENGTH) ==>
        target.length == Min(targetIndex, MAXIMUM_ARRAY_LENGTH)
    {
      AppendedStep(source, sourceIndex, depth, mapper);
      if sourceIndex in source.elems {
        var element := source.elems[sourceIndex];
        if mapper.Some? {
          element := mapper.value(element, sourceIndex);
        }
        ghost var now := target.elems;
        ghost var head := FlattenOne(element, depth);
        if depth.Positive() && element.List? {
          targetIndex := FlattenIntoArray(target, element, targetIndex, depth.Less(), None);
        } else {
          target.Define(targetIndex, element);
          targetIndex := targetIndex + 1;
        }
        AppendMore(was, start, done, head, now, target.elems);
        Associative(done, head, Appended(source, sourceIndex + 1, depth, mapper));
        done := done + head;
      } else {
        assert [] + Appended(source, sourceIndex + 1, depth, mapper) == Appended(source, sourceIndex + 1, depth,
          mapper);
      }
      sourceIndex := sourceIndex + 1;
    }
    assert done + [] == done;
  }

  /** `A` holds the values without holes; its length follows them as far as an array's can. */
  ghost predicate HoldsAll(A: ArrayObject<JsValue>, values: seq<JsValue>)
    reads A
  {
    A.elems == Dense(values).elems && A.length == Min(|values|, MAXIMUM_ARRAY_LENGTH)
  }

  /** The result is a new array without holes. */
  method Flat(O: ArrayObject<JsValue>, depth: Option<Depth>) returns (A: ArrayObject<JsValue>)
    ensures fresh(A) && A.isArray
    ensures HoldsAll(A, Flatten(List(O.elems, O.length), 0, if depth.None? then Finite(1) else depth.value))
  {
    var depthNum := if depth.None? then Finite(1) else depth.value;
    var source := List(O.elems, O.length);
    A := new ArrayObject<JsValue>(0);
    var n := FlattenIntoArray(A, source, 0, depthNum, None);
    Extensional(A.elems, Dense(Flatten(source, 0, depthNum)).elems);
  }

  /** flatMap is flat after map. */
  method FlatMap(O: ArrayObject<JsValue>, mapper: (JsValue, int) -> JsValue) returns (A: ArrayObject<JsValue>)
    ensures fresh(A) && A.isArray
    ensures HoldsAll(A, Flatten(Mapped(List(O.elems, O.length), mapper), 0, Finite(1)))
  {
    var source := List(O.elems, O.length);
    A := new ArrayObject<JsValue>(0);
    var n := FlattenIntoArray(A, source, 0, Finite(1), Some(mapper));
    Extensional(A.elems, Dense(Flatten(Mapped(source, mapper), 0, Finite(1))).elems);
  }
}
