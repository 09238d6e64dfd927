/** The generator of the identifier range tables (tools/gen_unicode.py). */
module UnicodeTables {
  /** Ranges by their first code point: `k` stands for the inclusive interval `[k, k + m[k]]`. */
  type Ranges = map<nat, nat>

  ghost predicate Covers(m: Ranges, c: int) {
    exists k :: k in m && k <= c <= k + m[k]
  }

  ghost predicate SameCover(m: Ranges, r: Ranges) {
    forall c: int :: Covers(m, c) <==> Covers(r, c)
  }

  /** The range at `b` begins right behind the one at `a`. */
  predicate Adjacent(m: Ranges, a: nat, b: nat)
    requires a in m
  {
    b == a + m[a] + 1
  }

  /** `b` is the next key after `a`. */
  ghost predicate Consecutive(m: Ranges, a: nat, b: nat) {
    a in m && b in m && a < b && forall k :: k in m ==> !(a < k < b)
  }

  /** No two neighbouring ranges could be merged. */
  ghost predicate NoneAdjacent(m: Ranges) {
    forall a, b :: Consecutive(m, a, b) ==> !Adjacent(m, a, b)
  }

  /** No range reaches beyond the end of a later one. */
  ghost predicate EndsGrow(m: Ranges) {
    forall a, b :: a in m && b in m && a < b ==> a + m[a] <= b + m[b]
  }

  ghost predicate StrictlySorted(s: seq<nat>) {
    forall i, j :: 0 <= i < j < |s| ==> s[i] < s[j]
  }

  /** `s` lists the keys of `m` in ascending order. */
  ghost predicate ListsKeys(s: seq<nat>, keys: set<nat>) {
    StrictlySorted(s) && forall k: nat :: k in s <==> k in keys
  }

  /** The position at which a key is to be inserted. */
  method InsertionPoint(s: seq<nat>, key: nat) returns (at: nat)
    requires StrictlySorted(s) && key !in s
    ensures at <= |s|
    ensures forall i :: 0 <= i < at ==> s[i] < key
    ensures forall i :: at <= i < |s| ==> key < s[i]
  {
    at := 0;
    while at < |s| && s[at] < key
      invariant 0 <= at <= |s| && forall i :: 0 <= i < at ==> s[i] < key
    {
      at := at + 1;
    }
  }

  lemma InsertedInOrder(s: seq<nat>, keys: set<nat>, key: nat, at: nat)
    requires ListsKeys(s, keys) && at <= |s|
    requires forall i :: 0 <= i < at ==> s[i] < key
    requires forall i :: at <= i < |s| ==> key < s[i]
    ensures ListsKeys(s[..at] + [key] + s[at..], keys + {key})
  {
    var t := s[..at] + [key] + s[at..];
    forall k: nat ensures k in t <==> k in keys + {key} {
      assert s == s[..at] + s[at..];
      assert k in s <==> k in keys;
    }
  }

  /** Python's `sorted` on the keys of a dictionary. */
  method SortedKeys(keys: set<nat>) returns (s: seq<nat>)
    ensures ListsKeys(s, keys) && |s| == |keys|
  {
    s := [];
    var remaining := keys;
    ghost var taken: set<nat> := {};
    while remaining != {}
      invariant remaining <= keys && ListsKeys(s, taken) && taken == keys - remaining
      invariant |s| + |remaining| == |keys|
      decreases |remaining|
    {
      var key :| key in remaining;
      assert key !in s;
      var at := InsertionPoint(s, key);
      InsertedInOrder(s, taken, key, at);
      taken := taken + {key};
      s := s[..at] + [key] + s[at..];
      remaining := remaining - {key};
    }
    assert taken == keys;
  }

  /** Key number `j` survives merging: it is one of the first two, or its range does not begin
      right behind the range before it. */
  ghost predicate Survives(m: Ranges, keys: seq<nat>, j: nat)
    requires j < |keys| && forall i :: 0 <= i < |keys| ==> keys[i] in m
  {
    j < 2 || !Adjacent(m, keys[j - 1], keys[j])
  }

  /** Before the merging loop processes index `i`, the keys up to `i` are still there, with their
      old lengths below `i`. */
  ghost predicate StillThere(m: Ranges, keys: seq<nat>, i: int, r: Ranges)
    requires ListsKeys(keys, m.Keys) && i < |keys|
  {
    && (forall k :: k in r ==> k in m)
    && (forall j: nat :: j <= i ==> keys[j] in r)
    && (forall j: nat :: j < i ==> r[keys[j]] == m[keys[j]])
  }

  /** The keys above `i` are there exactly if they survive. */
  ghost predicate SurvivorsAbove(m: Ranges, keys: seq<nat>, i: int, r: Ranges)
    requires ListsKeys(keys, m.Keys) && i < |keys|
  {
    forall j: nat :: i < j < |keys| ==> (keys[j] in r <==> Survives(m, keys, j))
  }

  /** From `low` up nothing is left to merge. */
  ghost predicate NoneAdjacentFrom(r: Ranges, low: nat) {
    forall a, b :: Consecutive(r, a, b) && low <= a ==> !Adjacent(r, a, b)
  }

  /** Where the last of the ranges ends that are merged into the one at key number `j`. */
  ghost function ChainEnd(m: Ranges, keys: seq<nat>, j: nat): nat
    requires j < |keys| && forall i :: 0 <= i < |keys| ==> keys[i] in m
    decreases |keys| - j
  {
    if j + 1 < |keys| && !Survives(m, keys, j + 1) then ChainEnd(m, keys, j + 1)
    else keys[j] + m[keys[j]]
  }

  /** The ranges left from key number `i` on end where their last parts do. */
  ghost predicate EndsRight(m: Ranges, keys: seq<nat>, i: nat, r: Ranges)
    requires ListsKeys(keys, m.Keys)
  {
    forall j: nat :: i <= j < |keys| && keys[j] in r ==> keys[j] + r[keys[j]] == ChainEnd(m, keys, j)
  }

  /** The merging loop's state before it processes index `i`. */
  ghost predicate MergedDownTo(m: Ranges, keys: seq<nat>, i: nat, r: Ranges)
    requires ListsKeys(keys, m.Keys) && i < |keys|
  {
    && StillThere(m, keys, i, r) && SurvivorsAbove(m, keys, i, r) && NoneAdjacentFrom(r, keys[i])
    && EndsRight(m, keys, i, r)
  }

  lemma KeyAtLeast(keys: seq<nat>, m: set<nat>, i: nat, k: nat)
    requires ListsKeys(keys, m) && k in m && i < |keys|
    ensures keys[i] <= k || exists j: nat :: j < i && keys[j] == k
    ensures k <= keys[i] || exists j: nat :: i < j < |keys| && keys[j] == k
  {
    assert k in keys;
    var j :| 0 <= j < |keys| && keys[j] == k;
    assert j < i || j == i || i < j;
  }

  /** The ranges at `a` and `b` made one. */
  function Joined(r: Ranges, a: nat, b: nat): Ranges
    requires a in r && b in r
  {
    r[a := r[b] + r[a] + 1] - {b}
  }

  /** Merging two adjacent ranges covers the same code points. */
  lemma MergeKeepsCover(r: Ranges, a: nat, b: nat, q: Ranges)
    requires a in r && b in r && a < b && Adjacent(r, a, b)
    requires q == Joined(r, a, b)
    ensures SameCover(r, q)
  {
    forall c: int ensures Covers(r, c) <==> Covers(q, c) {
      if Covers(r, c) {
        var k :| k in r && k <= c <= k + r[k];
        var l := if k == b then a else k;
        assert l in q && l <= c <= l + q[l];
      }
      if Covers(q, c) {
        var k :| k in q && k <= c <= k + q[k];
        if k == a && c > a + r[a] {
          assert b in r && b <= c <= b + r[b];
        } else {
          assert k in r && k <= c <= k + r[k];
        }
      }
    }
  }

  /** Merging two adjacent ranges keeps the ends in order. */
  lemma MergeKeepsEnds(r: Ranges, a: nat, b: nat, q: Ranges)
    requires a in r && b in r && a < b && Adjacent(r, a, b) && Consecutive(r, a, b)
    requires q == Joined(r, a, b)
    requires EndsGrow(r)
    ensures EndsGrow(q)
  {
    forall x, y | x in q && y in q && x < y ensures x + q[x] <= y + q[y] {
      assert x in r && y in r;
      if x == a {
        assert b < y && b + r[b] <= y + r[y];
      } else if y == a {
        assert x + r[x] <= a + r[a];
      }
    }
  }

  /** No key lies between two that follow each other. */
  lemma NothingBetween(keys: seq<nat>, m: set<nat>, i: nat, k: nat)
    requires ListsKeys(keys, m) && 1 <= i < |keys| && k in m
    ensures k <= keys[i - 1] || keys[i] <= k
  {
    assert k in keys;
    var j :| 0 <= j < |keys| && keys[j] == k;
    if i < j {
      assert keys[i] < keys[j];
    } else if j < i - 1 {
      assert keys[j] < keys[i - 1];
    }
  }

  /** The two keys compared at index `i` are neighbours. */
  lemma NeighboursAt(m: Ranges, keys: seq<nat>, i: nat, r: Ranges)
    requires ListsKeys(keys, m.Keys) && 1 <= i < |keys|
    requires keys[i - 1] in r && keys[i] in r && forall k :: k in r ==> k in m
    ensures Consecutive(r, keys[i - 1], keys[i])
  {
    assert keys[i - 1] < keys[i];
    forall k | k in r ensures !(keys[i - 1] < k < keys[i]) {
      NothingBetween(keys, m.Keys, i, k);
    }
  }

  lemma MergeLeavesNoneAdjacent(r: Ranges, a: nat, b: nat, q: Ranges)
    requires Consecutive(r, a, b) && Adjacent(r, a, b) && NoneAdjacentFrom(r, b)
    requires q == Joined(r, a, b)
    ensures NoneAdjacentFrom(q, a)
  {
    forall x, y | Consecutive(q, x, y) && a <= x ensures !Adjacent(q, x, y) {
      var z := if x == a then b else x;
      assert b <= z && z in r && y in r;
      forall k | k in r ensures !(z < k < y) {
        assert k != b ==> k in q;
      }
      assert Consecutive(r, z, y);
    }
  }

  lemma MergeKeepsOthers(m: Ranges, keys: seq<nat>, i: nat, r: Ranges, q: Ranges)
    requires ListsKeys(keys, m.Keys) && 2 <= i < |keys|
    requires StillThere(m, keys, i, r) && SurvivorsAbove(m, keys, i, r) && !Survives(m, keys, i)
    requires forall k :: k in q <==> k in r && k != keys[i]
    requires forall k :: k in q && k != keys[i - 1] ==> q[k] == r[k]
    ensures StillThere(m, keys, i - 1, q) && SurvivorsAbove(m, keys, i - 1, q)
  {
    forall j: nat | i - 1 < j < |keys| ensures keys[j] in q <==> Survives(m, keys, j) {
      assert j == i || (i < j && keys[i] < keys[j]);
    }
  }

  lemma MergeKeepsRightEnds(m: Ranges, keys: seq<nat>, i: nat, r: Ranges, q: Ranges)
    requires ListsKeys(keys, m.Keys) && 2 <= i < |keys|
    requires StillThere(m, keys, i, r) && EndsRight(m, keys, i, r)
    requires var a, b := keys[i - 1], keys[i]; Adjacent(r, a, b) && q == Joined(r, a, b)
    ensures EndsRight(m, keys, i - 1, q)
  {
    var a, b := keys[i - 1], keys[i];
    assert b + r[b] == ChainEnd(m, keys, i);
    assert !Survives(m, keys, i);
    forall j: nat | i - 1 <= j < |keys| && keys[j] in q ensures keys[j] + q[keys[j]] == ChainEnd(m, keys, j) {
      if j == i - 1 {
        assert a + q[a] == b + r[b];
      } else {
        assert j != i;
        assert a < keys[j] && keys[j] in r;
      }
    }
  }

  /** A step that merges. */
  lemma MergeStep(m: Ranges, keys: seq<nat>, i: nat, r: Ranges, q: Ranges)
    requires ListsKeys(keys, m.Keys) && 2 <= i < |keys| && MergedDownTo(m, keys, i, r)
    requires var a, b := keys[i - 1], keys[i]; Adjacent(r, a, b) && q == Joined(r, a, b)
    ensures MergedDownTo(m, keys, i - 1, q)
  {
    NeighboursAt(m, keys, i, r);
    MergeLeavesNoneAdjacent(r, keys[i - 1], keys[i], q);
    MergeKeepsOthers(m, keys, i, r, q);
    MergeKeepsRightEnds(m, keys, i, r, q);
  }

  /** A step that does not. */
  lemma KeepStep(m: Ranges, keys: seq<nat>, i: nat, r: Ranges)
    requires ListsKeys(keys, m.Keys) && 2 <= i < |keys| && MergedDownTo(m, keys, i, r)
    requires !Adjacent(r, keys[i - 1], keys[i])
    ensures MergedDownTo(m, keys, i - 1, r)
  {
    NeighboursAt(m, keys, i, r);
    forall x, y | Consecutive(r, x, y) && keys[i - 1] <= x ensures !Adjacent(r, x, y) {
      KeyAtLeast(keys, m.Keys, i, x);
      KeyAtLeast(keys, m.Keys, i - 1, x);
    }
    assert Survives(m, keys, i);
  }

  /** Exactly the surviving keys are left, each with a range up to the end of the last one merged
      into it, and only the first two ranges may still be adjacent. */
  ghost predicate IsMerged(m: Ranges, keys: seq<nat>, r: Ranges)
    requires ListsKeys(keys, m.Keys)
  {
    && (forall j: nat :: j < |keys| ==> (keys[j] in r <==> Survives(m, keys, j)))
    && (forall k :: k in r ==> k in m)
    && (0 < |keys| ==> r[keys[0]] == m[keys[0]])
    && EndsRight(m, keys, 0, r)
    && (forall a, b :: Consecutive(r, a, b) && a != keys[0] ==> !Adjacent(r, a, b))
  }

  lemma DropLast(s: seq<nat>, keys: set<nat>)
    requires ListsKeys(s, keys) && s != []
    ensures ListsKeys(s[..|s| - 1], keys - {s[|s| - 1]})
  {
    var n := |s| - 1;
    forall k: nat ensures k in s[..n] <==> k in keys - {s[n]} {
      if k in s && k != s[n] {
        var i :| 0 <= i < |s| && s[i] == k;
        assert s[..n][i] == k;
      }
    }
  }

  /** The sorted keys of a dictionary are determined by it. */
  lemma {:induction false} SortedOnce(s: seq<nat>, t: seq<nat>, keys: set<nat>)
    requires ListsKeys(s, keys) && ListsKeys(t, keys)
    ensures s == t
    decreases |s|
  {
    assert t != [] ==> t[0] in s;
    if s != [] {
      var n, k := |s| - 1, |t| - 1;
      assert s[n] in t && t[k] in s;
      assert s[n] == t[k];
      var rest := keys - {s[n]};
      assert ListsKeys(s[..n], rest) by { DropLast(s, keys); }
      assert ListsKeys(t[..k], rest) by { DropLast(t, keys); }
      SortedOnce(s[..n], t[..k], rest);
      assert s == s[..n] + [s[n]] && t == t[..k] + [t[k]];
    }
  }

  /** The outcome of merging is determined by the dictionary. */
  lemma MergedOnce(m: Ranges, keys: seq<nat>, r: Ranges, q: Ranges)
    requires ListsKeys(keys, m.Keys) && IsMerged(m, keys, r) && IsMerged(m, keys, q)
    ensures r == q
  {
    forall k: nat ensures k in r <==> k in q {
      if k in r || k in q {
        assert k in keys;
      }
    }
    forall k | k in r ensures r[k] == q[k] {
      var j :| 0 <= j < |keys| && keys[j] == k;
      assert k + r[k] == ChainEnd(m, keys, j) == k + q[k];
    }
  }

  lemma CoverIsTransitive(m: Ranges, r: Ranges, q: Ranges)
    requires SameCover(m, r) && SameCover(r, q)
    ensures SameCover(m, q)
  {
    forall c: int ensures Covers(m, c) <==> Covers(q, c) {
      assert Covers(m, c) <==> Covers(r, c);
    }
  }

  lemma StepKeepsCover(m: Ranges, keys: seq<nat>, i: nat, r: Ranges, q: Ranges)
    requires ListsKeys(keys, m.Keys) && 2 <= i < |keys| && MergedDownTo(m, keys, i, r)
    requires var a, b := keys[i - 1], keys[i]; Adjacent(r, a, b) && q == Joined(r, a, b)
    requires SameCover(m, r)
    ensures SameCover(m, q) && (EndsGrow(r) ==> EndsGrow(q))
  {
    NeighboursAt(m, keys, i, r);
    MergeKeepsCover(r, keys[i - 1], keys[i], q);
    CoverIsTransitive(m, r, q);
    if EndsGrow(r) {
      MergeKeepsEnds(r, keys[i - 1], keys[i], q);
    }
  }

  /** Merges two ranges if they are adjacent. */
  method MergeTwo(r: Ranges, a: nat, b: nat) returns (q: Ranges)
    requires a in r && b in r
    ensures q == if Adjacent(r, a, b) then Joined(r, a, b) else r
  {
    q := r;
    if b == a + q[a] + 1 {
      var newLength := q[b] + q[a] + 1;
      q := q[a := newLength];
      q := q - {b};
    }
  }

  /** A round of the loop, whether it merges or not. */
  lemma RoundKeeps(m: Ranges, keys: seq<nat>, i: nat, r: Ranges, q: Ranges)
    requires ListsKeys(keys, m.Keys) && 2 <= i < |keys| && MergedDownTo(m, keys, i, r)
    requires SameCover(m, r) && (EndsGrow(m) ==> EndsGrow(r))
    requires var a, b := keys[i - 1], keys[i]; q == if Adjacent(r, a, b) then Joined(r, a, b) else r
    ensures MergedDownTo(m, keys, i - 1, q)
    ensures SameCover(m, q) && (EndsGrow(m) ==> EndsGrow(q))
  {
    if Adjacent(r, keys[i - 1], keys[i]) {
      StepKeepsCover(m, keys, i, r, q);
      MergeStep(m, keys, i, r, q);
    } else {
      KeepStep(m, keys, i, r);
    }
  }

  /** Compares range number `key` with the one before it and merges the two if they are adjacent. */
  method MergeAt(orderedKeys: seq<nat>, key: nat, r: Ranges, ghost m: Ranges) returns (q: Ranges)
    requires ListsKeys(orderedKeys, m.Keys) && 2 <= key < |orderedKeys|
    requires MergedDownTo(m, orderedKeys, key, r)
    requires SameCover(m, r) && (EndsGrow(m) ==> EndsGrow(r))
    ensures MergedDownTo(m, orderedKeys, key - 1, q)
    ensures SameCover(m, q) && (EndsGrow(m) ==> EndsGrow(q))
  {
    q := MergeTwo(r, orderedKeys[key - 1], orderedKeys[key]);
    RoundKeeps(m, orderedKeys, key, r, q);
  }

  lemma LoopEnds(m: Ranges, keys: seq<nat>, i: nat, r: Ranges)
    requires ListsKeys(keys, m.Keys) && i < |keys| && (i == 1 || i == 0 == |keys| - 1)
    requires MergedDownTo(m, keys, i, r)
    requires i == 0 ==> r == m
    ensures IsMerged(m, keys, r)
  {
    forall a, b | Consecutive(r, a, b) && a != keys[0] ensures !Adjacent(r, a, b) {
      KeyAtLeast(keys, m.Keys, i, a);
    }
  }

  lemma TopKey(m: Ranges, keys: seq<nat>)
    requires ListsKeys(keys, m.Keys) && 0 < |keys|
    ensures MergedDownTo(m, keys, |keys| - 1, m)
  {
    forall k | k in m ensures k <= keys[|keys| - 1] {
      KeyAtLeast(keys, m.Keys, |keys| - 1, k);
    }
  }

  /** Merges neighbouring ranges, from the highest down; the loop stops before it compares the
      first two. */
  method MergeRanges(m: Ranges) returns (r: Ranges, ghost keys: seq<nat>)
    ensures ListsKeys(keys, m.Keys) && |keys| == |m|
    ensures SameCover(m, r) && (EndsGrow(m) ==> EndsGrow(r))
    ensures IsMerged(m, keys, r)
  {
    var orderedKeys := SortedKeys(m.Keys);
    keys := orderedKeys;
    r := m;
    if |orderedKeys| == 0 {
      return;
    }
    var key := |orderedKeys| - 1;
    TopKey(m, keys);
    while key > 1
      invariant 0 <= key < |orderedKeys| && (key == 0 ==> |orderedKeys| == 1 && r == m)
      invariant MergedDownTo(m, keys, key, r)
      invariant SameCover(m, r) && (EndsGrow(m) ==> EndsGrow(r))
    {
      r := MergeAt(orderedKeys, key, r, m);
      key := key - 1;
    }
    LoopEnds(m, keys, key, r);
  }

  lemma AtLeastTwo(s: set<nat>, a: nat, b: nat)
    requires a in s && b in s && a != b
    ensures 2 <= |s|
  {
    assert |s - {a}| == |s| - 1 && b in s - {a};
  }

  lemma TwoStay(m: Ranges, keys: seq<nat>, r: Ranges)
    requires ListsKeys(keys, m.Keys) && IsMerged(m, keys, r) && 2 <= |keys|
    ensures 2 <= |r|
  {
    assert Survives(m, keys, 0) && Survives(m, keys, 1);
    AtLeastTwo(r.Keys, keys[0], keys[1]);
  }

  /** `r` is what merging makes of the dictionary `m` with the sorted keys `keys`. */
  ghost predicate IsMergedTable(m: Ranges, keys: seq<nat>, r: Ranges) {
    && ListsKeys(keys, m.Keys) && IsMerged(m, keys, r)
    && SameCover(m, r) && (EndsGrow(m) ==> EndsGrow(r))
    && (2 <= |m| ==> 2 <= |r|)
  }

  /** Merges the ranges of one dictionary. */
  method MergeTable(m: Ranges) returns (r: Ranges, ghost keys: seq<nat>)
    ensures IsMergedTable(m, keys, r)
  {
    r, keys := MergeRanges(m);
    if 2 <= |m| {
      TwoStay(m, keys, r);
    }
  }

  lemma NextKeyIsUnique(r: Ranges, a: nat, b: nat, c: nat)
    requires Consecutive(r, a, b) && Consecutive(r, a, c)
    ensures b == c
  {
  }

  /** Merging leaves nothing to merge exactly when the first two ranges of the input are not
      adjacent. */
  lemma NothingLeftIff(m: Ranges, keys: seq<nat>, r: Ranges)
    requires ListsKeys(keys, m.Keys)
    requires IsMerged(m, keys, r)
    ensures NoneAdjacent(r) <==> |keys| < 2 || !Adjacent(m, keys[0], keys[1])
  {
    if |keys| < 2 {
      assert forall a :: a in r ==> a in keys;
    } else {
      assert Survives(m, keys, 0) && Survives(m, keys, 1);
      NeighboursAt(m, keys, 1, r);
      if !Adjacent(m, keys[0], keys[1]) {
        forall a, b | Consecutive(r, a, b) ensures !Adjacent(r, a, b) {
          if a == keys[0] {
            NextKeyIsUnique(r, a, b, keys[1]);
          }
        }
      }
    }
  }

  /** `{0: 0, 1: 0}` stays as it is although its two ranges are adjacent. */
  lemma FirstTwoStayApart(m: Ranges, keys: seq<nat>, r: Ranges)
    requires m == map[0 := 0, 1 := 0] && ListsKeys(keys, m.Keys) && IsMerged(m, keys, r)
    ensures !NoneAdjacent(r)
  {
    assert 0 in keys && 1 in keys;
    assert keys[0] == 0 && keys[1] == 1;
    NothingLeftIff(m, keys, r);
  }

  const IDENT_RANGE_LONG: nat := 200

  /** What a stored length stands for: itself, or an entry of the table of long lengths. */
  function Decode(stored: nat, longLengths: seq<nat>): nat {
    if stored < 200 then stored
    else if stored - 200 < |longLengths| then longLengths[stored - 200]
    else 0
  }

  /** Every stored length decodes to the range's length. */
  ghost predicate Encodes(m: Ranges, stored: Ranges, longLengths: seq<nat>) {
    && stored.Keys == m.Keys
    && (forall k :: k in m && m[k] < 200 ==> stored[k] == m[k])
    && (forall k :: k in m && 200 <= m[k] ==>
        200 <= stored[k] < 200 + |longLengths|)
    && (forall k :: k in m ==> Decode(stored[k], longLengths) == m[k])
  }

  /** The ranges of the basic plane: those of identifier starts, with the two joiners, and those
      of identifier parts that begin elsewhere. */
  ghost function Collected(basicPlaneStart: Ranges, basicPlaneContinue: Ranges): (m: Ranges)
    ensures 2 <= |m|
  {
    var m: Ranges := basicPlaneContinue + basicPlaneStart[0x200C := 1][0x200D := 1];
    AtLeastTwo(m.Keys, 0x200C, 0x200D);
    m
  }

  /** `now` is `was` with the ranges of `more` added whose keys are new, but for those that
      remain. */
  ghost predicate IsAdded(more: Ranges, was: Ranges, remaining: set<nat>, now: Ranges) {
    && now.Keys == was.Keys + (more.Keys - remaining)
    && (forall k :: k in now ==> now[k] == if k in was then was[k] else more[k])
  }

  lemma AddOne(more: Ranges, was: Ranges, remaining: set<nat>, now: Ranges, k: nat, next: Ranges)
    requires remaining <= more.Keys && k in remaining && IsAdded(more, was, remaining, now)
    requires next == if k in now then now else now[k := more[k]]
    ensures IsAdded(more, was, remaining - {k}, next)
  {
  }

  lemma AllAdded(more: Ranges, was: Ranges, now: Ranges)
    requires IsAdded(more, was, {}, now)
    ensures now == more + was
  {
  }

  /** The generator's global tables. */
  class Generator {
    var basicPlaneStart: Ranges
    var basicPlaneContinue: Ranges
    var supplementaryPlane: Ranges
    var mergedIdStart: Ranges
    var longRangeLength: seq<nat>

    /** Replaces every length from 200 on by its position in the table of long lengths, in
        whatever order the dictionary is iterated. */
    method EncodeLongLengths()
      requires longRangeLength == []
      modifies this`mergedIdStart, this`longRangeLength
      ensures Encodes(old(mergedIdStart), mergedIdStart, longRangeLength)
      ensures |longRangeLength| <= |old(mergedIdStart)|
    {
      var longLengthIndex := 0;
      ghost var m := mergedIdStart;
      var remaining := mergedIdStart.Keys;
      while remaining != {}
        invariant remaining <= m.Keys && mergedIdStart.Keys == m.Keys
        invariant forall k :: k in remaining ==> mergedIdStart[k] == m[k]
        invariant longLengthIndex == |longRangeLength|
        invariant |longRangeLength| + |remaining| <= |m|
        invariant forall k :: k in m && k !in remaining && m[k] < IDENT_RANGE_LONG ==> mergedIdStart[k] == m[k]
        invariant forall k :: k in m && k !in remaining && IDENT_RANGE_LONG <= m[k] ==>
          && IDENT_RANGE_LONG <= mergedIdStart[k] < IDENT_RANGE_LONG + |longRangeLength|
          && longRangeLength[mergedIdStart[k] - IDENT_RANGE_LONG] == m[k]
        decreases |remaining|
      {
        var key :| key in remaining;
        var value := mergedIdStart[key];
        if value >= IDENT_RANGE_LONG {
          longRangeLength := longRangeLength + [value];
          var newValue := IDENT_RANGE_LONG + longLengthIndex;
          longLengthIndex := longLengthIndex + 1;
          mergedIdStart := mergedIdStart[key := newValue];
        }
        remaining := remaining - {key};
      }
    }

    /** Copies the ranges of identifier starts. */
    method CopyStarts()
      requires mergedIdStart == map[]
      modifies this`mergedIdStart
      ensures mergedIdStart == basicPlaneStart
    {
      var remaining := basicPlaneStart.Keys;
      while remaining != {}
        invariant remaining <= basicPlaneStart.Keys
        invariant mergedIdStart.Keys == basicPlaneStart.Keys - remaining
        invariant forall k :: k in mergedIdStart ==> mergedIdStart[k] == basicPlaneStart[k]
        decreases |remaining|
      {
        var k :| k in remaining;
        mergedIdStart := mergedIdStart[k := basicPlaneStart[k]];
        remaining := remaining - {k};
      }
    }

    /** Copies the ranges of identifier parts whose key is new. */
    method CopyContinues()
      modifies this`mergedIdStart
      ensures mergedIdStart == basicPlaneContinue + old(mergedIdStart)
    {
      ghost var was := mergedIdStart;
      var remaining := basicPlaneContinue.Keys;
      while remaining != {}
        invariant remaining <= basicPlaneContinue.Keys
        invariant IsAdded(basicPlaneContinue, was, remaining, mergedIdStart)
        decreases |remaining|
      {
        ghost var now := mergedIdStart;
        var k :| k in remaining;
        if k !in mergedIdStart {
          mergedIdStart := mergedIdStart[k := basicPlaneContinue[k]];
        }
        AddOne(basicPlaneContinue, was, remaining, now, k, mergedIdStart);
        remaining := remaining - {k};
      }
      AllAdded(basicPlaneContinue, was, mergedIdStart);
    }

    /** Adds the two joiners to the identifier starts and puts all ranges together. */
    method CollectRanges()
      requires mergedIdStart == map[]
      modifies this`basicPlaneStart, this`mergedIdStart
      ensures mergedIdStart == Collected(old(basicPlaneStart), basicPlaneContinue)
    {
      var otherStarters := [0x200C, 0x200D];
      basicPlaneStart := basicPlaneStart[otherStarters[0] := 1];
      basicPlaneStart := basicPlaneStart[otherStarters[1] := 1];
      CopyStarts();
      CopyContinues();
    }

    /** Merges the ranges of the basic plane. */
    method MergeCollected() returns (ghost keys: seq<nat>)
      requires mergedIdStart == map[]
      modifies this`basicPlaneStart, this`mergedIdStart
      ensures IsMergedTable(old(Collected(basicPlaneStart, basicPlaneContinue)), keys, mergedIdStart)
    {
      CollectRanges();
      mergedIdStart, keys := MergeTable(mergedIdStart);
    }

    /** The stored lengths of the basic plane decode to the merged ranges of what was collected and
        of the two joiners, which cover exactly the same. */
    method CreateBasicPlaneTable() returns (ghost merged: Ranges, ghost keys: seq<nat>)
      requires mergedIdStart == map[] && longRangeLength == []
      modifies this
      ensures IsMergedTable(old(Collected(basicPlaneStart, basicPlaneContinue)), keys, merged)
      ensures Encodes(merged, mergedIdStart, longRangeLength)
    {
      keys := MergeCollected();
      merged := mergedIdStart;
      EncodeLongLengths();
    }

    /** Merges the ranges of the supplementary planes. */
    method UnifyNonBasicPlane() returns (ghost keys: seq<nat>)
      modifies this`supplementaryPlane
      ensures IsMergedTable(old(supplementaryPlane), keys, supplementaryPlane)
    {
      supplementaryPlane, keys := MergeTable(supplementaryPlane);
    }
  }
}
