/** Array.prototype.join (src/builtins/BuiltinArray.cpp), which skips runs of indices without a
    defined value and repairs the separators afterwards. */
module ArrayJoin {
  import opened Options
  import opened ArrayObjects
  import opened JsValues

  /** STRING_MAXIMUM_LENGTH (src/Escargot.h). */
  const STRING_MAXIMUM_LENGTH: int := 1024 * 1024 * 512

  /** The value a property read yields: a hole reads as undefined. */
  function Read(m: Elems<JsValue>, k: int): JsValue {
    if k in m then m[k] else Undefined
  }

  /** What element `k` contributes: nothing when it is absent, undefined or null. */
  function Rendered(m: Elems<JsValue>, text: JsValue -> string, k: int): (r: string)
    ensures At(m, k) in {None, Some(Undefined), Some(Null)} ==> r == ""
    ensures forall v :: At(m, k) == Some(v) && !v.Undefined? && !v.Null? ==> r == text(v)
  {
    if Read(m, k).Undefined? || Read(m, k).Null? then "" else text(Read(m, k))
  }

  /** The standard's join (section 22.1.3.15 of ECMA-262) of the first `k` elements. */
  function PlainJoin(m: Elems<JsValue>, text: JsValue -> string, sep: string, k: nat): string {
    if k == 0 then ""
    else if k == 1 then Rendered(m, text, 0)
    else PlainJoin(m, text, sep, k - 1) + sep + Rendered(m, text, k - 1)
  }

  function Repeat(s: string, n: nat): (r: string)
    ensures |r| == n * |s|
  {
    if n == 0 then "" else Repeat(s, n - 1) + s
  }

  /** A run of elements that render as nothing contributes its separators only. */
  lemma {:induction false} EmptyRun(m: Elems<JsValue>, text: JsValue -> string, sep: string, from: nat, upto: nat)
    requires 0 < from <= upto
    requires forall i: int :: from <= i < upto ==> Read(m, i).Undefined?
    ensures PlainJoin(m, text, sep, upto) == PlainJoin(m, text, sep, from) + Repeat(sep, upto - from)
    decreases upto
  {
    if from < upto {
      EmptyRun(m, text, sep, from, upto - 1);
      assert Read(m, upto - 1).Undefined?;
      var a := PlainJoin(m, text, sep, from);
      assert a + Repeat(sep, upto - 1 - from) + sep + "" == a + (Repeat(sep, upto - 1 - from) + sep);
    }
  }

  /** Joining more elements never gives a shorter string. */
  lemma {:induction false} JoinGrows(m: Elems<JsValue>, text: JsValue -> string, sep: string, from: nat, upto: nat)
    requires from <= upto
    ensures |PlainJoin(m, text, sep, from)| <= |PlainJoin(m, text, sep, upto)|
    decreases upto
  {
    if from < upto {
      JoinGrows(m, text, sep, from, upto - 1);
    }
  }

  function TotalRendered(m: Elems<JsValue>, text: JsValue -> string, k: nat): nat {
    if k == 0 then 0 else TotalRendered(m, text, k - 1) + |Rendered(m, text, k - 1)|
  }

  /** A join of `len > 0` elements holds exactly `len - 1` separators. */
  lemma {:induction false} SeparatorCount(m: Elems<JsValue>, text: JsValue -> string, sep: string, len: nat)
    requires 0 < len
    ensures |PlainJoin(m, text, sep, len)| == TotalRendered(m, text, len) + (len - 1) * |sep|
  {
    if 1 < len {
      SeparatorCount(m, text, sep, len - 1);
      assert (len - 1) * |sep| == (len - 2) * |sep| + |sep|;
    } else {
      assert TotalRendered(m, text, 1) == TotalRendered(m, text, 0) + |Rendered(m, text, 0)|;
    }
  }

  /** Splits a string at every occurrence of a character. */
  function Split(s: string, c: char): (parts: seq<string>)
    ensures |parts| > 0
  {
    if s == "" then [""]
    else
      var before := Split(s[..|s| - 1], c);
      var last := s[|s| - 1];
      if last == c then before + [""]
      else before[|before| - 1 := before[|before| - 1] + [last]]
  }

  lemma {:induction false} SplitAppend(s: string, t: string, c: char)
    requires c !in t
    ensures var parts := Split(s, c);
      Split(s + t, c) == parts[|parts| - 1 := parts[|parts| - 1] + t]
    decreases |t|
  {
    if t == "" {
      assert s + t == s;
      var parts := Split(s, c);
      assert parts[|parts| - 1] + t == parts[|parts| - 1];
    } else {
      var u := t[..|t| - 1];
      SplitAppend(s, u, c);
      assert (s + t)[..|s + t| - 1] == s + u;
      assert u + [t[|t| - 1]] == t;
      var parts := Split(s, c);
      assert parts[|parts| - 1] + u + [t[|t| - 1]] == parts[|parts| - 1] + t;
    }
  }

  /** What each of the first `k` elements contributes. */
  function AllRendered(m: Elems<JsValue>, text: JsValue -> string, k: nat): (r: seq<string>)
    ensures |r| == k && forall i :: 0 <= i < k ==> r[i] == Rendered(m, text, i)
  {
    if k == 0 then [] else AllRendered(m, text, k - 1) + [Rendered(m, text, k - 1)]
  }

  /** Every separator is in its place: splitting a join gives the rendered elements back. */
  lemma {:induction false} SplitOfJoin(m: Elems<JsValue>, text: JsValue -> string, c: char, len: nat)
    requires 0 < len
    requires forall k: int :: 0 <= k < len ==> c !in Rendered(m, text, k)
    ensures Split(PlainJoin(m, text, [c], len), c) == AllRendered(m, text, len)
    decreases len
  {
    if len == 1 {
      SplitAppend("", Rendered(m, text, 0), c);
      assert "" + Rendered(m, text, 0) == Rendered(m, text, 0);
      assert AllRendered(m, text, 1) == AllRendered(m, text, 0) + [Rendered(m, text, 0)];
    } else {
      SplitOfJoin(m, text, c, len - 1);
      var before := PlainJoin(m, text, [c], len - 1);
      var last := Rendered(m, text, len - 1);
      assert (before + [c])[..|before + [c]| - 1] == before;
      SplitAppend(before + [c], last, c);
      assert "" + last == last;
    }
  }

  /** The scan that finds the next index holding a value other than undefined, whatever order
      the enumeration visits the indices in. */
  method NextDefined(O: ArrayObject<JsValue>, cur: int, len: nat) returns (next: int)
    requires cur < len
    ensures cur < next <= len
    ensures forall i: int :: cur < i < next ==> Read(O.elems, i).Undefined?
    ensures next == len || !Read(O.elems, next).Undefined?
  {
    next := len;
    var remaining := O.elems.Keys;
    while remaining != {}
      invariant remaining <= O.elems.Keys
      invariant cur < next <= len && (next == len || !Read(O.elems, next).Undefined?)
      invariant forall i: nat :: i in O.elems && i !in remaining && cur < i < next ==> Read(O.elems, i).Undefined?
      decreases |remaining|
    {
      var index :| index in remaining;
      if !Read(O.elems, index).Undefined? && index > cur && next > index {
        next := index;
      }
      remaining := remaining - {index};
    }
  }

  /** Emits the separators between two visited indices. */
  method AppendSeparators(ghost m: Elems<JsValue>, ghost text: JsValue -> string, sep: string,
                          builder: string, prevIndex: nat, curIndex: nat) returns (out: string)
    requires prevIndex < curIndex
    requires builder == PlainJoin(m, text, sep, prevIndex + 1)
    requires forall i: int :: prevIndex < i < curIndex ==> Read(m, i).Undefined?
    ensures out == PlainJoin(m, text, sep, curIndex)
  {
    out := builder;
    var prev := prevIndex;
    while curIndex - prev > 1
      invariant prevIndex <= prev < curIndex
      invariant out == PlainJoin(m, text, sep, prev + 1)
    {
      assert Read(m, prev + 1).Undefined?;
      assert PlainJoin(m, text, sep, prev + 2) == PlainJoin(m, text, sep, prev + 1) + sep + "";
      out := out + sep;
      prev := prev + 1;
    }
  }

  /** The test for too long a string before a run of separators is appended, never true unless
      the whole result is too long. */
  lemma GuardIsSound(m: Elems<JsValue>, text: JsValue -> string, sep: string, prev: nat, cur: nat, len: nat)
    requires prev < cur <= len
    requires forall i: int :: prev < i < cur ==> Read(m, i).Undefined?
    requires |PlainJoin(m, text, sep, prev + 1)| > STRING_MAXIMUM_LENGTH - (cur - prev - 1) * |sep|
    ensures |PlainJoin(m, text, sep, len)| > STRING_MAXIMUM_LENGTH
  {
    EmptyRun(m, text, sep, prev + 1, cur);
    JoinGrows(m, text, sep, cur, len);
  }

  /** Without a separator a run of undefined elements changes nothing. */
  lemma {:induction false} NoSeparator(m: Elems<JsValue>, text: JsValue -> string, prev: nat, cur: nat)
    requires prev < cur
    requires forall i: int :: prev < i < cur ==> Read(m, i).Undefined?
    ensures PlainJoin(m, text, "", cur) == PlainJoin(m, text, "", prev + 1)
    decreases cur - prev
  {
    if prev + 1 < cur {
      NoSeparator(m, text, prev, cur - 1);
      assert Read(m, cur - 1).Undefined?;
    }
  }

  /** The join of all elements, or a RangeError exactly when it is too long for a string. */
  method Join(O: ArrayObject<JsValue>, text: JsValue -> string, separator: Option<string>) returns (res: Result<string>)
    ensures
      var joined := PlainJoin(O.elems, text, if separator.None? then "," else separator.value, O.length);
      res == if |joined| <= STRING_MAXIMUM_LENGTH then Ok(joined) else Err(RangeError)
  {
    var len := O.length;
    var sep := if separator.None? then "," else separator.value;
    ghost var m := O.elems;
    var builder := "";
    var prevIndex, curIndex := 0, 0;
    while curIndex < len
      invariant 0 <= curIndex <= len
      invariant curIndex == 0 ==> prevIndex == 0 && builder == ""
      invariant 0 < curIndex ==> prevIndex < curIndex && builder == PlainJoin(m, text, sep, prevIndex + 1)
      invariant 0 < curIndex ==> forall i: int :: prevIndex < i < curIndex ==> Read(m, i).Undefined?
      decreases len - curIndex
    {
      if curIndex != 0 && |sep| > 0 {
        if |builder| > STRING_MAXIMUM_LENGTH - (curIndex - prevIndex - 1) * |sep| {
          GuardIsSound(m, text, sep, prevIndex, curIndex, len);
          return Err(RangeError);
        }
        builder := AppendSeparators(m, text, sep, builder, prevIndex, curIndex);
        builder := builder + sep;
      } else if curIndex != 0 {
        NoSeparator(m, text, prevIndex, curIndex);
        assert sep == "" && builder + sep == builder;
      }
      var elem := if O.Has(curIndex) then O.Get(curIndex) else Undefined;
      if !elem.Undefined? && !elem.Null? {
        builder := builder + text(elem);
      } else {
        assert builder + "" == builder;
      }
      assert builder == PlainJoin(m, text, sep, curIndex + 1);
      prevIndex := curIndex;
      if elem.Undefined? {
        curIndex := NextDefined(O, curIndex, len);
      } else {
        curIndex := curIndex + 1;
      }
    }
    if |sep| > 0 {
      if |builder| > STRING_MAXIMUM_LENGTH - (curIndex - prevIndex - 1) * |sep| {
        if 0 < len {
          GuardIsSound(m, text, sep, prevIndex, curIndex, len);
        }
        return Err(RangeError);
      }
      if 0 < curIndex {
        builder := AppendSeparators(m, text, sep, builder, prevIndex, curIndex);
      }
    } else if 0 < curIndex {
      NoSeparator(m, text, prevIndex, curIndex);
    }
    assert builder == PlainJoin(m, text, sep, len);
    if |builder| > STRING_MAXIMUM_LENGTH {
      return Err(RangeError);
    }
    return Ok(builder);
  }
}
