/** The lexer's search in the generated tables (src/parser/Lexer.cpp), and what the tables and the
    search amount to together. */
module IdentifierLookup {
  import opened UnicodeTables

  /** The tables as they are written out: starts in ascending order, stored lengths beside them. */
  ghost predicate IsTable(m: Ranges, starts: seq<nat>, lengths: seq<nat>, longLengths: seq<nat>) {
    && ListsKeys(starts, m.Keys)
    && |lengths| == |starts|
    && (forall i :: 0 <= i < |starts| ==> starts[i] in m && Decode(lengths[i], longLengths) == m[starts[i]])
    && (forall i :: 0 <= i < |lengths| ==> lengths[i] < IDENT_RANGE_LONG + |longLengths|)
  }

  /** The lengths beside sorted starts make a table. */
  method EmitTable(stored: Ranges, longLengths: seq<nat>, ghost merged: Ranges)
    returns (starts: seq<nat>, lengths: seq<nat>)
    requires Encodes(merged, stored, longLengths)
    ensures IsTable(merged, starts, lengths, longLengths) && |starts| == |merged|
  {
    starts := SortedKeys(stored.Keys);
    lengths := [];
    var i := 0;
    while i < |starts|
      invariant 0 <= i <= |starts| == |stored| && |lengths| == i
      invariant forall j :: 0 <= j < i ==> starts[j] in stored && lengths[j] == stored[starts[j]]
    {
      assert starts[i] in starts;
      lengths := lengths + [stored[starts[i]]];
      i := i + 1;
    }
    assert |stored.Keys| == |merged.Keys|;
  }

  /** The range that the search tests: the last one that begins at or before `ch`, unless it is
      the last of the table. */
  ghost predicate InTestedRange(starts: seq<nat>, lengths: seq<nat>, longLengths: seq<nat>, ch: nat)
    requires |lengths| == |starts|
  {
    exists i :: 0 <= i < |starts| - 1 && starts[i] <= ch < starts[i + 1]
             && ch <= starts[i] + Decode(lengths[i], longLengths)
  }

  /** At most one pair of neighbouring starts encloses a code point. */
  lemma OnlyRange(starts: seq<nat>, i: nat, ch: nat)
    requires StrictlySorted(starts) && i + 1 < |starts| && starts[i] <= ch < starts[i + 1]
    ensures forall j :: 0 <= j < |starts| - 1 && starts[j] <= ch < starts[j + 1] ==> j == i
  {
  }

  /** Nothing is tested before the first start or from the last one on. */
  lemma OutsideTested(starts: seq<nat>, lengths: seq<nat>, longLengths: seq<nat>, ch: nat)
    requires StrictlySorted(starts) && |lengths| == |starts| && 2 <= |starts|
    requires ch < starts[0] || starts[|starts| - 1] <= ch
    ensures !InTestedRange(starts, lengths, longLengths, ch)
  {
    forall i | 0 <= i < |starts| - 1 ensures !(starts[i] <= ch < starts[i + 1]) {
      assert starts[0] <= starts[i] && starts[i + 1] <= starts[|starts| - 1];
    }
  }

  /** The binary search over the basic plane. */
  method IsIdentifierPartSlow(starts: seq<nat>, lengths: seq<nat>, longLengths: seq<nat>, ch: nat) returns (found: bool)
    requires StrictlySorted(starts) && |lengths| == |starts| && 2 <= |starts|
    requires forall i :: 0 <= i < |lengths| ==> lengths[i] < IDENT_RANGE_LONG + |longLengths|
    ensures found <==> InTestedRange(starts, lengths, longLengths, ch)
  {
    var bottom := 0;
    var top := |starts| - 1;
    while true
      invariant 0 <= bottom < top < |starts|
      invariant 0 < bottom ==> starts[bottom] <= ch
      invariant top < |starts| - 1 ==> ch < starts[top]
      decreases top - bottom
    {
      var middle := (bottom + top) / 2;
      var rangeStart := starts[middle];
      if ch >= rangeStart {
        if ch < starts[middle + 1] {
          var length := lengths[middle];
          if length >= IDENT_RANGE_LONG {
            length := longLengths[length - IDENT_RANGE_LONG];
          }
          OnlyRange(starts, middle, ch);
          return ch <= rangeStart + length;
        }
        bottom := middle + 1;
      } else {
        top := middle;
      }
      if bottom == top {
        OutsideTested(starts, lengths, longLengths, ch);
        return false;
      }
    }
  }

  /** Which range a code point is to be looked for in. */
  lemma {:induction false} Locate(starts: seq<nat>, n: nat, ch: nat) returns (i: nat)
    requires StrictlySorted(starts) && 0 < n < |starts| && starts[0] <= ch < starts[n]
    ensures i < n && starts[i] <= ch < starts[i + 1]
    decreases n
  {
    if starts[n - 1] <= ch {
      i := n - 1;
    } else {
      i := Locate(starts, n - 1, ch);
    }
  }

  lemma IndexOf(starts: seq<nat>, k: nat) returns (j: nat)
    requires StrictlySorted(starts) && k in starts
    ensures j < |starts| && starts[j] == k && starts[0] <= k
  {
    j :| 0 <= j < |starts| && starts[j] == k;
  }

  /** Whatever the search accepts is covered and lies before the start of the last range. */
  lemma TestedIsCovered(m: Ranges, starts: seq<nat>, lengths: seq<nat>, longLengths: seq<nat>, ch: nat)
    requires IsTable(m, starts, lengths, longLengths) && InTestedRange(starts, lengths, longLengths, ch)
    ensures Covers(m, ch) && ch < starts[|starts| - 1]
  {
    var i :| 0 <= i < |starts| - 1 && starts[i] <= ch < starts[i + 1]
             && ch <= starts[i] + Decode(lengths[i], longLengths);
    assert starts[i] in m && starts[i + 1] <= starts[|starts| - 1];
  }

  /** The range number `i` ends before one that begins earlier does, and does not reach up to the
      next start: the earlier one is hidden behind it. */
  ghost predicate Hides(m: Ranges, starts: seq<nat>, i: int, j: int)
    requires 0 <= j < i < |starts| - 1 && starts[i] in m && starts[j] in m
  {
    starts[i] + m[starts[i]] < starts[j] + m[starts[j]] && starts[i] + m[starts[i]] + 1 < starts[i + 1]
  }

  ghost predicate NoneHidden(m: Ranges, starts: seq<nat>)
    requires forall i :: 0 <= i < |starts| ==> starts[i] in m
  {
    forall i, j :: 0 <= j < i < |starts| - 1 ==> !Hides(m, starts, i, j)
  }

  /** A covered code point before the last start lies in the range the search tests. */
  lemma CoveredIsTested(m: Ranges, starts: seq<nat>, lengths: seq<nat>, longLengths: seq<nat>, ch: nat)
    requires IsTable(m, starts, lengths, longLengths) && 2 <= |starts| && NoneHidden(m, starts)
    requires Covers(m, ch) && ch < starts[|starts| - 1]
    ensures InTestedRange(starts, lengths, longLengths, ch)
  {
    var k :| k in m && k <= ch <= k + m[k];
    var j := IndexOf(starts, k);
    var i := Locate(starts, |starts| - 1, ch);
    assert j <= i;
    assert j < i ==> !Hides(m, starts, i, j);
  }

  /** `ch` is accepted exactly if a range covers it and it lies before the start of the last one. */
  ghost predicate IsExactAt(m: Ranges, starts: seq<nat>, lengths: seq<nat>, longLengths: seq<nat>, ch: nat)
    requires |lengths| == |starts| && 2 <= |starts|
  {
    InTestedRange(starts, lengths, longLengths, ch) <==> Covers(m, ch) && ch < starts[|starts| - 1]
  }

  /** The code point behind a range that hides an earlier one is covered but not accepted. */
  lemma HiddenIsMissed(m: Ranges, starts: seq<nat>, lengths: seq<nat>, longLengths: seq<nat>, i: nat, j: nat)
    requires IsTable(m, starts, lengths, longLengths) && j < i < |starts| - 1 && Hides(m, starts, i, j)
    ensures !IsExactAt(m, starts, lengths, longLengths, starts[i] + m[starts[i]] + 1)
  {
    var ch := starts[i] + m[starts[i]] + 1;
    assert starts[j] in m && starts[j] <= ch <= starts[j] + m[starts[j]];
    assert starts[i + 1] <= starts[|starts| - 1];
    OnlyRange(starts, i, ch);
  }

  /** A table and the search together: for every code point to be accepted exactly if a range
      covers it and it lies before the start of the last range, it takes that no range is hidden. */
  lemma LookupIsCoverBeforeLastIff(m: Ranges, starts: seq<nat>, lengths: seq<nat>, longLengths: seq<nat>)
    requires IsTable(m, starts, lengths, longLengths) && 2 <= |starts|
    ensures NoneHidden(m, starts) <==> forall ch: nat :: IsExactAt(m, starts, lengths, longLengths, ch)
  {
    if NoneHidden(m, starts) {
      forall ch: nat ensures IsExactAt(m, starts, lengths, longLengths, ch) {
        if InTestedRange(starts, lengths, longLengths, ch) {
          TestedIsCovered(m, starts, lengths, longLengths, ch);
        } else if Covers(m, ch) && ch < starts[|starts| - 1] {
          CoveredIsTested(m, starts, lengths, longLengths, ch);
        }
      }
    } else {
      var i, j :| 0 <= j < i < |starts| - 1 && Hides(m, starts, i, j);
      HiddenIsMissed(m, starts, lengths, longLengths, i, j);
    }
  }

  /** Ranges whose ends are in the order of their starts hide none. */
  lemma GrowingEndsHideNone(m: Ranges, starts: seq<nat>)
    requires ListsKeys(starts, m.Keys) && EndsGrow(m)
    ensures forall i :: 0 <= i < |starts| ==> starts[i] in m
    ensures NoneHidden(m, starts)
  {
    forall i | 0 <= i < |starts| ensures starts[i] in m {
      assert starts[i] in starts;
    }
  }

  /** Ranges that share at most their end points, as the collected ones do, have growing ends. */
  lemma NeighboursGrow(m: Ranges)
    requires forall a, b :: a in m && b in m && a < b ==> a + m[a] <= b
    ensures EndsGrow(m)
  {
  }

  /** From the start of the last range on exactly its own code points are covered, if and only if
      no other range reaches beyond its end. */
  lemma LastBlockIff(m: Ranges, last: nat)
    requires last in m && forall k :: k in m ==> k <= last
    ensures (forall ch: nat :: last <= ch ==> (Covers(m, ch) <==> ch <= last + m[last]))
       <==> forall k :: k in m ==> k + m[k] <= last + m[last]
  {
    var end := last + m[last];
    if k :| k in m && end < k + m[k] {
      assert Covers(m, k + m[k]);
    } else {
      forall ch: nat | last <= ch ensures Covers(m, ch) <==> ch <= end {
        assert ch <= end ==> last in m && last <= ch <= last + m[last];
      }
    }
  }

  /** The second joiner is stored with length 1, which stands for two code points: U+200E, the
      left-to-right mark, is covered whatever has been collected. */
  lemma JoinersCoverOneMore(basicPlaneStart: Ranges, basicPlaneContinue: Ranges)
    ensures Covers(Collected(basicPlaneStart, basicPlaneContinue), 0x200E)
  {
    var m := Collected(basicPlaneStart, basicPlaneContinue);
    assert 0x200D in m && m[0x200D] == 1;
  }

  lemma LastStart(m: Ranges, starts: seq<nat>)
    requires ListsKeys(starts, m.Keys) && 0 < |starts|
    ensures var last := starts[|starts| - 1];
      last in m && forall k :: k in m ==> k <= last
  {
    var last := starts[|starts| - 1];
    assert last in starts;
    forall k | k in m ensures k <= last {
      KeyAtLeast(starts, m.Keys, |starts| - 1, k);
    }
  }

  /** Only what `m` covers is accepted, and when its ends grow, all of it except for the block
      from `last` to `end`. */
  ghost predicate IsAnswer(m: Ranges, ch: nat, last: nat, end: nat, found: bool) {
    && last <= end && (found ==> Covers(m, ch) && ch < last)
    && (EndsGrow(m) ==>
          && (forall c: nat :: last <= c ==> (Covers(m, c) <==> c <= end))
          && (found <==> Covers(m, ch) && !(last <= ch <= end)))
  }

  lemma TableAnswers(m: Ranges, starts: seq<nat>, lengths: seq<nat>, longLengths: seq<nat>, ch: nat)
    requires IsTable(m, starts, lengths, longLengths) && 2 <= |starts|
    ensures var last := starts[|starts| - 1];
      last in m && IsAnswer(m, ch, last, last + m[last], InTestedRange(starts, lengths, longLengths, ch))
  {
    LastStart(m, starts);
    if InTestedRange(starts, lengths, longLengths, ch) {
      TestedIsCovered(m, starts, lengths, longLengths, ch);
    }
    if EndsGrow(m) {
      LastBlockIff(m, starts[|starts| - 1]);
      GrowingEndsHideNone(m, starts);
      LookupIsCoverBeforeLastIff(m, starts, lengths, longLengths);
      assert IsExactAt(m, starts, lengths, longLengths, ch);
    }
  }

  lemma SameAnswer(m: Ranges, merged: Ranges, ch: nat, last: nat, end: nat, found: bool)
    requires SameCover(m, merged) && (EndsGrow(m) ==> EndsGrow(merged))
    requires IsAnswer(merged, ch, last, end, found)
    ensures IsAnswer(m, ch, last, end, found)
  {
    assert Covers(m, ch) <==> Covers(merged, ch);
    if EndsGrow(m) {
      forall c: nat | last <= c ensures Covers(m, c) <==> c <= end {
        assert Covers(m, c) <==> Covers(merged, c);
      }
    }
  }

  /** Generating the basic-plane tables and searching them. */
  method GenerateAndSearch(generator: Generator, ch: nat) returns (found: bool, ghost last: nat, ghost end: nat)
    requires generator.mergedIdStart == map[] && generator.longRangeLength == []
    modifies generator
    ensures IsAnswer(old(Collected(generator.basicPlaneStart, generator.basicPlaneContinue)), ch, last, end, found)
  {
    ghost var m := Collected(generator.basicPlaneStart, generator.basicPlaneContinue);
    ghost var merged, keys := generator.CreateBasicPlaneTable();
    var longLengths := generator.longRangeLength;
    var starts, lengths := EmitTable(generator.mergedIdStart, longLengths, merged);
    last := starts[|starts| - 1];
    TableAnswers(merged, starts, lengths, longLengths, ch);
    end := last + merged[last];
    found := IsIdentifierPartSlow(starts, lengths, longLengths, ch);
    SameAnswer(m, merged, ch, last, end, found);
  }
}
