/** The waiter list behind Atomics.wait and notify (src/runtime/Global.h), with the loops that the
    critical sections of src/builtins/BuiltinAtomics.cpp run over it. */
module WaiterLists {
  import opened Options

  /** Waiter items are identified by the order in which they were created. */
  type Item = nat

  /** Older items come first, and none occurs twice. */
  ghost predicate OldestFirst(s: seq<Item>) {
    forall i, j :: 0 <= i < j < |s| ==> s[i] < s[j]
  }

  function Members(s: seq<Item>): set<Item> {
    set i | i in s
  }

  /** The list without an item. */
  function Without(s: seq<Item>, item: Item): seq<Item> {
    if s == [] then []
    else (if s[0] == item then [] else [s[0]]) + Without(s[1..], item)
  }

  /** How many waiters a notification removes; no count means all of them. */
  function BatchSize(size: nat, count: Option<nat>): (n: nat)
    ensures n <= size && (count.None? ==> n == size)
    ensures count.Some? ==> n <= count.value && (n == size || n == count.value)
  {
    if count.None? || size < count.value then size else count.value
  }

  /** Erasing an item keeps all others. */
  lemma {:induction false} WithoutMembers(s: seq<Item>, item: Item)
    ensures forall x :: x in Without(s, item) <==> x in s && x != item
  {
    if s != [] {
      WithoutMembers(s[1..], item);
      assert s == [s[0]] + s[1..];
    }
  }

  /** Erasing an item keeps the order of the others, and changes nothing when it is not listed. */
  lemma {:induction false} WithoutKeepsRest(s: seq<Item>, item: Item)
    ensures OldestFirst(s) ==> OldestFirst(Without(s, item))
    ensures item !in s ==> Without(s, item) == s
  {
    if s != [] {
      WithoutMembers(s[1..], item);
      WithoutKeepsRest(s[1..], item);
      var rest := Without(s[1..], item);
      assert s == [s[0]] + s[1..];
      if OldestFirst(s) {
        forall i | 0 <= i < |rest| ensures s[0] < rest[i] {
          assert rest[i] in s[1..];
        }
      }
    }
  }

  /** One round of erasing. */
  lemma KeptAndRest(kept: seq<Item>, s: seq<Item>, i: nat, item: Item)
    requires i < |s|
    ensures kept + Without(s[i..], item) ==
      (if s[i] == item then kept else kept + [s[i]]) + Without(s[i + 1..], item)
  {
    assert s[i..][1..] == s[i + 1..];
  }

  class WaiterList {
    var waiterList: seq<Item>

    constructor ()
      ensures waiterList == []
    {
      waiterList := [];
    }

    /** Removes the oldest waiters, one at a time from the front, and counts them. */
    method Notify(count: Option<nat>) returns (n: nat)
      modifies this
      ensures n == BatchSize(|old(waiterList)|, count)
      ensures old(waiterList) == old(waiterList)[..n] + waiterList
    {
      var c := if count.None? || |waiterList| < count.value then |waiterList| else count.value;
      n := 0;
      ghost var was := waiterList;
      while n < c
        invariant 0 <= n <= c <= |was|
        invariant waiterList == was[n..]
      {
        waiterList := waiterList[1..];
        n := n + 1;
      }
      assert was == was[..n] + was[n..];
    }

    /** Erases every occurrence of an item. */
    method Erase(item: Item)
      modifies this
      ensures waiterList == Without(old(waiterList), item)
    {
      ghost var was := waiterList;
      var kept: seq<Item> := [];
      var i := 0;
      while i < |waiterList|
        invariant 0 <= i <= |waiterList| && waiterList == was
        invariant kept + Without(was[i..], item) == Without(was, item)
      {
        KeptAndRest(kept, was, i, item);
        if waiterList[i] != item {
          kept := kept + [waiterList[i]];
        }
        i := i + 1;
      }
      assert kept + [] == kept;
      waiterList := kept;
    }

    /** Whether an item is still listed. */
    method Find(item: Item) returns (found: bool)
      ensures found <==> item in waiterList
    {
      var i := 0;
      while i < |waiterList| && waiterList[i] != item
        invariant 0 <= i <= |waiterList| && item !in waiterList[..i]
      {
        i := i + 1;
      }
      return i < |waiterList|;
    }
  }
}
