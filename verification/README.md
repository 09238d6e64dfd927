# Verified models of Escargot builtins

Escargot is a JavaScript engine. This Dafny project models the parts of it whose correctness is
not evident from reading them, and proves what they do for all inputs, all runs and all reachable
states. `dafny verify dfyconfig.toml` checks everything.

## What is modelled

* **Sparse arrays** (`Array*.dfy`). `Array.prototype` methods jump over runs of holes instead of
  visiting every index as ECMA-262 does. An object is a partial map from indices to values and a
  length (`ArrayObjects`), updated in place by loops that follow the C++. Each method is proved
  against a statement about the presence and the value of every slot, and that statement against
  the plain loop of the standard.
* **Sorting** (`MergeSort`, `ArraySort`): the bottom-up merge sort on arrays, and the two ways a
  JavaScript array is sorted with it.
* **Atomics** (`AtomicsReadModifyWrite`, `WaiterLists`, `WaitNotify*`): the locked
  read-modify-write operations, and `wait`, `waitAsync` and `notify` with the worker threads and
  the sweep that settles promises, as steps of any number of threads. `WaitNotifyProtocol` has the
  steps, `WaitNotifySafety` the invariant, `WaitNotifyTheorems` what it means, and
  `WaitNotifyOutcomes` what calls return and how promises are settled.
* **Exact arithmetic** (`TwosComplement`, `BigIntWrap`, `MathPow`, `NumberRadix`): wrapping by
  two's-complement masks, exponentiation by squaring, printing in a radix through char buffers.
* **Unicode tables** (`UnicodeTables`, `IdentifierLookup`): the generator that merges identifier
  ranges and encodes their lengths, and the lexer's search in the result.

## Where the code departs from what one would expect

* `unshift` with two or more items leaves old values behind when it jumps over a run of more holes
  than there are items: the slots it skips are not all holes. `UnshiftMeetsStandardIff` and
  `RealArrayMeetsStandardIff` say exactly when the standard is met, `TwoItemsBeforeFourHoles` is an
  instance that is not.
* The lexer's binary search never tests the last range of the table, so its code points are
  rejected (`LookupIsCoverBeforeLastIff`, `GenerateAndSearch`); in
  `src/parser/UnicodeIdentifierTables.cpp` these are U+FFDA to U+FFDC.
* The generator stores the joiners with length 1, which stands for two code points, so that the
  left-to-right mark U+200E becomes part of identifiers (`JoinersCoverOneMore`).
* The generator's merging loop stops before it compares the first two ranges
  (`NothingLeftIff`). The covered set is right all the same.
* Synchronous `Atomics.wait` lets go of the list between comparing and enqueueing
  (`SyncWaitMissesNotification`).
* The exit of `reverse` for a candidate equal to `lower`, and the step back in `shift`, are never
  taken on ordinary objects: both scans always move on by at least one.

## How it is modelled

* The scans of `Object.cpp` are about presence: a present `undefined` stops them. The scan inlined
  in `join` is about values other than `undefined`.
* The enumeration order of properties and of dictionaries is arbitrary.
* A length is read once, before the loop, as in the source; assigning an index does not change it.
  On a real array this makes no difference, since no method leaves an element at or beyond the
  length it finally assigns (the lemmas named `...StaysBelow`). Defining a property of a result
  array does raise its length.
* A real array (`isArray`) refuses a length above 2^32-1 with a RangeError, and its length follows
  array indices only; the result arrays are real arrays.
* That every collected range is found, except for the last block, takes ranges whose ends are in
  the order of their starts (`EndsGrow`). Ranges that share at most their end points have such ends
  (`NeighboursGrow`); the generator's input is of this kind when its two properties cut their
  ranges at the same places, since each range is listed once and a single code point is stored
  with length 1. The ends in `src/parser/UnicodeIdentifierTables.cpp` are in order. Without that
  condition the lemmas say exactly what is missed.
* The infinities that `ToInteger` may give act like any integer beyond the length. Lengths are at
  most 2^53-1, where `double` and `int64_t` are exact.
* A comparator, a mapper, strict equality and the text of a value are parameters.
* In the wait and notify protocol, waking up is free: it may happen for a notification, a timeout
  or no reason at all, but an unbounded wait never reports a timeout. A comparison may find the
  cell equal or not.
* `notify_one` on the condition variable therefore needs no state.

## Model

| member | source | states |
|---|---|---|
| `ArrayObjects.ArrayObject.NextIndexForward` | src/runtime/Object.cpp:1658-1694 | Returns the nearest present index strictly between `cur` and `end`, otherwise `end`, but at least `cur + 1`, whatever order the enumeration visits the properties in. |
| `ArrayObjects.ArrayObject.NextIndexBackward` | src/runtime/Object.cpp:1696-1730 | The mirror image; with `cur <= end` it returns `cur - 1`. |
| `ArrayObjects.NextIsUnique` | src/runtime/Object.cpp:1693-1729 | The contracts of the two scans leave exactly one possible result. |
| `ArrayObjects.ArrayObject.Define` | src/runtime/ArrayObject.cpp:142-239 | The property is defined, and the length follows when it is an array index beyond it; indices from 2^32-1 on are none. |
| `ArrayObjects.ArrayObject.SetLength` | src/runtime/ArrayObject.cpp:372-394 | A real array refuses a length above 2^32-1 and keeps its own. |
| `ArrayObjects.CreateArray` | src/runtime/ArrayObject.cpp:73-81 | A new array of holes, or a RangeError above 2^32-1. |
| `ArrayObjects.Clamp` | src/builtins/BuiltinArray.cpp:750-756 | A relative index less than a length away from the start lands on the slot congruent to it, one further down on 0, one further up on the length. |
| `ArrayObjects.LandsOnce` | src/builtins/BuiltinArray.cpp:750-756 | That leaves one place only. |
| `ArrayReverse.Reverse` | src/builtins/BuiltinArray.cpp:446-499 | Afterwards presence and value at `i` are those of `len - 1 - i`; nothing at or beyond `len` changes; the loop ends. |
| `ArrayReverse.CandidateIsFirstOccupiedPair` | src/builtins/BuiltinArray.cpp:477-494 | The choice by distance from the middle never jumps past a pair that holds an element, lands on such a pair unless none is left, and always moves on, so the exit for `lower == lowerCandidate` is never taken. |
| `ArrayReverse.JumpMovesOn` | src/builtins/BuiltinArray.cpp:492-493 | Jumping over pairs of holes keeps the loop invariant: nothing had to be moved. |
| `ArrayReverse.ExchangeMovesOn` | src/builtins/BuiltinArray.cpp:467-475 | Each of the three exchanging branches keeps the loop invariant. |
| `ArrayReverse.MirrorTwice` | src/builtins/BuiltinArray.cpp:446-499 | Reversing twice restores every value and every hole. |
| `ArrayReverse.PlainReverseMirrorsRest` | src/builtins/BuiltinArray.cpp:452-496 | The plain loop of the standard, started anywhere, mirrors the range that is left. |
| `ArrayReverse.MirrorIsPlainReverse` | src/builtins/BuiltinArray.cpp:446-499 | A result meets the contract of `Reverse` if and only if it is what the plain loop of section 22.1.3.23 of ECMA-262 gives. |
| `ArrayShift.Shift` | src/builtins/BuiltinArray.cpp:1538-1597 | Returns the old element 0; every other slot below `len`, hole or not, moves down by one; the rest is untouched; the step back at line 1587 is never taken and the loop ends. |
| `ArrayShift.ShiftedIsPlainShift` | src/builtins/BuiltinArray.cpp:1538-1597 | A result meets the contract of `Shift` if and only if it is what the plain loop of section 22.1.3.24 of ECMA-262 gives. |
| `ArrayShift.ShiftedStaysBelow` | src/builtins/BuiltinArray.cpp:1592-1594 | A real array has no element at or beyond its new length. |
| `ArrayUnshift.Unshift` | src/builtins/BuiltinArray.cpp:1599-1677 | The items are in front and every old slot has moved up by their number, except that the slots a jump skips keep what they held; TypeError and no change above 2^53-1; RangeError after the move when a real array would become longer than 2^32-1. |
| `ArrayUnshift.MoveUp` | src/builtins/BuiltinArray.cpp:1620-1654 | The loop with jumps moves every slot up, from the top, but for those it skips, and ends. |
| `ArrayUnshift.UnshiftMeetsStandardIff` | src/builtins/BuiltinArray.cpp:1645-1652 | The result is the one section 22.1.3.31 of ECMA-262 asks for if and only if every slot that a jump skips was a hole before the call. |
| `ArrayUnshift.OneItemIsStandard` | src/builtins/BuiltinArray.cpp:1645-1652 | With one item that condition always holds. |
| `ArrayUnshift.RealArrayMeetsStandardIff` | src/builtins/BuiltinArray.cpp:1647-1649 | On a real array and with two or more items the condition holds if and only if no element sits right after a run of more holes than there are items. |
| `ArrayUnshift.TwoItemsBeforeFourHoles` | src/builtins/BuiltinArray.cpp:1645-1652 | `[ , , , , v].unshift(a, b)` leaves `v` at index 4 besides moving it to index 6. |
| `ArrayUnshift.JumpTest` | src/builtins/BuiltinArray.cpp:1646-1648 | The jump target is `result + 1`, it lies below `k`, all slots between are holes, and the guard holds exactly when more than `argCount` holes lie immediately before `k`. |
| `ArrayUnshift.StepMovesOn` | src/builtins/BuiltinArray.cpp:1641-1652 | A step without a jump keeps the loop invariant. |
| `ArrayUnshift.JumpMovesOn` | src/builtins/BuiltinArray.cpp:1648-1649 | A jump keeps the loop invariant, which says which slots it leaves stale. |
| `ArrayUnshift.UnshiftedStaysBelow` | src/builtins/BuiltinArray.cpp:1673-1676 | A real array has no element at or beyond its new length, whatever was skipped. |
| `ArrayUnshift.UnshiftedIsPlainUnshift` | src/builtins/BuiltinArray.cpp:1616-1670 | A result is what the standard asks for if and only if it is what the two plain loops of section 22.1.3.31 of ECMA-262 give. |
| `ArraySplice.Splice` | src/builtins/BuiltinArray.cpp:533-693 | Starts where the relative index lands; returns the removed range with its holes; the array is prefix, items and tail, holes kept, with nothing left where it shrank; the length is `len - deleted + inserted`; TypeError above 2^53-1 and RangeError for a removed range above 2^32-1, both without a change; RangeError after the move when a real array would become longer than 2^32-1. |
| `ArraySplice.StartOf` | src/builtins/BuiltinArray.cpp:547-550 | The start is where the first argument lands, 0 without one. |
| `ArraySplice.DeleteCountOf` | src/builtins/BuiltinArray.cpp:552-575 | Nothing is deleted without arguments, all from the start on without a count, and otherwise as many slots as asked for, as far as there are any and not fewer than none. |
| `ArraySplice.ItemsOf` | src/builtins/BuiltinArray.cpp:603-610 | The items are all arguments from the third on. |
| `ArraySplice.Removed` | src/builtins/BuiltinArray.cpp:579-601 | The removed range, holes included, in a new array, or a RangeError above 2^32-1. |
| `ArraySplice.MoveDown` | src/builtins/BuiltinArray.cpp:613-646 | The ascending move over an overlapping range keeps every slot of the tail and empties the end. |
| `ArraySplice.MoveUp` | src/builtins/BuiltinArray.cpp:647-675 | The descending move over an overlapping range keeps every slot of the tail. |
| `ArraySplice.WriteItems` | src/builtins/BuiltinArray.cpp:677-689 | The items fill the gap and nothing else changes. |
| `ArraySplice.GapFilled` | src/builtins/BuiltinArray.cpp:612-689 | Moving the tail and filling the gap together are the splice. |
| `ArraySplice.SpliceBack` | src/builtins/BuiltinArray.cpp:533-693 | Splicing a removed range without holes back in restores the array. |
| `ArraySplice.SplicedStaysBelow` | src/builtins/BuiltinArray.cpp:637-646 | A real array has no element at or beyond its new length. |
| `ArrayCopyWithin.CopyWithin` | src/builtins/BuiltinArray.cpp:1750-1809 | Slot `to + i` has the old presence and value of `from + i` for every `i < count`, all where the arguments land; every other slot is unchanged. |
| `ArrayCopyWithin.CopySlots` | src/builtins/BuiltinArray.cpp:1770-1806 | The loop copies a snapshot in either direction. |
| `ArrayCopyWithin.CopyCount` | src/builtins/BuiltinArray.cpp:1764-1769 | As many slots as the source range holds, as far as there is room at the target. |
| `ArrayCopyWithin.DirectionTestIsExact` | src/builtins/BuiltinArray.cpp:1772-1782 | Copying in ascending order copies a snapshot of every array if and only if the direction test is false. |
| `ArrayCopyWithin.CopyUpIsSnapshot` | src/builtins/BuiltinArray.cpp:1779-1806 | Without the overlap the test looks for, ascending order copies a snapshot. |
| `ArrayCopyWithin.CopyUpFailsOnOverlap` | src/builtins/BuiltinArray.cpp:1772-1778 | With it, ascending order goes wrong on an array of one element. |
| `ArrayCopyWithin.CopiedStaysBelow` | src/builtins/BuiltinArray.cpp:1789-1806 | A real array has no element at or beyond its length afterwards. |
| `ArraySlice.Slice` | src/builtins/BuiltinArray.cpp:748-782 | The result holds the slots from where the start lands to where the end does, holes included, at their distance from the start, and has their number as its length; RangeError exactly when that exceeds 2^32-1. |
| `ArraySlice.SliceEnd` | src/builtins/BuiltinArray.cpp:755-756 | The end is where the second argument lands, or the length without one. |
| `ArraySlice.Concat` | src/builtins/BuiltinArray.cpp:695-746 | The result is the concatenation of what the receiver and the arguments contribute, holes included, each spread or whole; its length is their total as far as an array can have it; and an error is raised exactly when one of the length checks refuses an argument, the first such argument deciding which. |
| `ArraySlice.AppendAll` | src/builtins/BuiltinArray.cpp:700-743 | All arguments are appended, or the first refused one is reported. |
| `ArraySlice.BoundedStaysBounded` | src/builtins/BuiltinArray.cpp:715-735 | Unless the last argument is primitive, all arguments together stay within 2^53-1. |
| `ArraySlice.AppendSpread` | src/builtins/BuiltinArray.cpp:708-732 | One array, its holes jumped over, lands behind the slots already placed; setting the length fails exactly above 2^32-1. |
| `ArraySlice.AppendArgument` | src/builtins/BuiltinArray.cpp:700-743 | One round of the loop appends its argument, or refuses it exactly when a check of that kind of argument fails. |
| `ArraySlice.RefusalIff` | src/builtins/BuiltinArray.cpp:715-735 | Spread arrays are held to 2^32-1, other objects to 2^53-1, primitive values to nothing, and a TypeError goes first. |
| `ArraySlice.PieceOf` | src/builtins/BuiltinArray.cpp:703-742 | A spread argument contributes its slots and its length, any other one slot. |
| `ArraySlice.SlotPosition` | src/builtins/BuiltinArray.cpp:708-731 | Source index `k` of an argument lands at the sum of the earlier lengths plus `k`. |
| `ArraySlice.NothingOutside` | src/builtins/BuiltinArray.cpp:695-746 | The concatenation holds nothing outside its total length. |
| `ArraySlice.ConcatOfSlices` | src/builtins/BuiltinArray.cpp:695-782 | Concatenating `slice(0, k)` and `slice(k, len)` restores the array, holes and length included. |
| `ArrayIndexOf.IndexOf` | src/builtins/BuiltinArray.cpp:819-888 | The least present matching index at or after where the argument lands, or -1 exactly when there is none. |
| `ArrayIndexOf.LastIndexOf` | src/builtins/BuiltinArray.cpp:890-953 | The greatest present matching index at or before the start, or -1 exactly when there is none. |
| `ArrayIndexOf.LastStart` | src/builtins/BuiltinArray.cpp:903-924 | The downward search starts where the argument lands, at the last slot without one, and not at all below the array. |
| `ArrayIndexOf.MatchesIff` | src/builtins/BuiltinArray.cpp:865-875 | A match is a present value that the comparison accepts, never a hole. |
| `ArrayIndexOf.FirstMatchIsScan` | src/builtins/BuiltinArray.cpp:862-887 | A result meets the contract of `IndexOf` if and only if it is what a linear scan finds. |
| `ArrayIndexOf.LastMatchIsScan` | src/builtins/BuiltinArray.cpp:927-952 | A result meets the contract of `LastIndexOf` if and only if it is what a linear scan finds. |
| `ArrayIndexOf.FirstAndLast` | src/builtins/BuiltinArray.cpp:819-953 | The first match is not behind the last, and one search fails exactly when the other does. |
| `ArrayJoin.Join` | src/builtins/BuiltinArray.cpp:356-444 | The plain join of all elements, absent, undefined and null ones printing as nothing; a RangeError exactly when it is longer than a string may be. |
| `ArrayJoin.NextDefined` | src/builtins/BuiltinArray.cpp:395-429 | The inline scan finds the next index that holds a value other than undefined; an undefined element counts as absent. |
| `ArrayJoin.AppendSeparators` | src/builtins/BuiltinArray.cpp:382-385 | The separators of a run of skipped indices come out as the plain join has them. |
| `ArrayJoin.GuardIsSound` | src/builtins/BuiltinArray.cpp:379-381 | The early test raises the error only when the whole result is too long. |
| `ArrayJoin.EmptyRun` | src/builtins/BuiltinArray.cpp:393-429 | A run of undefined elements contributes its separators and nothing else. |
| `ArrayJoin.Rendered` | src/builtins/BuiltinArray.cpp:388-392 | A hole, undefined and null print as nothing, any other value as its text. |
| `ArrayJoin.AllRendered` | src/builtins/BuiltinArray.cpp:377-433 | The printed elements, one for each index. |
| `ArrayJoin.SeparatorCount` | src/builtins/BuiltinArray.cpp:377-442 | A join of `len > 0` elements holds exactly `len - 1` separators. |
| `ArrayJoin.SplitOfJoin` | src/builtins/BuiltinArray.cpp:377-442 | Every separator is in its place: splitting at it gives the printed elements back. |
| `ArrayFlat.FlattenIntoArray` | src/builtins/BuiltinArray.cpp:141-178 | Appends the depth-bounded left-to-right flattening without holes at consecutive indices from `start` on, and returns `start` plus their number. |
| `ArrayFlat.Flat` | src/builtins/BuiltinArray.cpp:1506-1518 | The result is the flattening as a new array without holes, its length following as far as an array can have it. |
| `ArrayFlat.FlatMap` | src/builtins/BuiltinArray.cpp:1522-1536 | The result is the flattening by one level of the mapped array, holes staying holes for the mapper. |
| `ArrayFlat.FlatTwice` | src/builtins/BuiltinArray.cpp:141-178 | Flattening by `a` and then by `b` is flattening by `a + b`, for all depths from 0 up and without bound. |
| `ArrayFlat.FlattenAllOfFlatten` | src/builtins/BuiltinArray.cpp:162-173 | The same from any index on and for negative depths that do not cross zero. |
| `ArrayFlat.InfiniteFlatIsFlat` | src/builtins/BuiltinArray.cpp:162-166 | Flattening without bound leaves no array inside. |
| `ArrayFlat.FlatByNothing` | src/builtins/BuiltinArray.cpp:162-172 | Flattening by 0 or less keeps the present values, nested arrays included. |
| `ArrayFlat.FlatByOne` | src/builtins/BuiltinArray.cpp:162-172 | Flattening by 1 opens a nested array once and leaves any other value alone. |
| `ArrayFlat.Mapped` | src/builtins/BuiltinArray.cpp:157-161 | The mapper is called on each present value with its index; holes stay holes. |
| `MergeSort.MergeSortPermutes` | src/util/Util.h:184-205 | Whatever the comparator answers, the elements are only rearranged. |
| `MergeSort.MergeSortIsStableSort` | src/util/Util.h:184-205 | With a consistent comparator the bottom-up merge sort gives what stable insertion sort gives, although it is handed a strict order where its documentation asks for "less or equal". |
| `MergeSort.StableSortIsStable` | src/util/Util.h:184-205 | The reference sorts, and elements the comparator cannot tell apart keep their order. |
| `MergeSort.MergeOfSorted` | src/util/Util.h:139-167 | Merging two stably sorted runs sorts their concatenation stably. |
| `MergeSort.RoundDoublesRuns` | src/util/Util.h:190-194 | A round over runs of width `w` leaves stably sorted runs of width `2w`, whatever the length. |
| `MergeSort.Merge` | src/util/Util.h:139-167 | Merges the two neighbouring runs, shorter at the end of the array, into the target array. |
| `MergeSort.MergePass` | src/util/Util.h:191-194 | One pass leaves one round of merging in the target array. |
| `MergeSort.Sort` | src/util/Util.h:184-205 | After the swaps of source and target the result is in the caller's array. |
| `ArraySort.Sort` | src/runtime/Object.cpp:1732-1779 | The present values, sorted, are packed at the front, holes follow up to the length, and nothing beyond changes. Sorted means: rearranged; and with a consistent order no value before a smaller one, undefined ones behind all values, and values that the order cannot tell apart in their old order. |
| `ArraySort.SortMeetsOrder` | src/builtins/BuiltinArray.cpp:512-529 | The merge sort with the comparator of the builtin sorts in this sense, which does not mention the comparator. |
| `ArraySort.AlikeAreTies` | src/builtins/BuiltinArray.cpp:521-528 | The values the order cannot tell from another are those the comparator cannot tell from it. |
| `ArraySort.Collect` | src/runtime/Object.cpp:1739-1750 | The present values in index order, holes jumped over. |
| `ArraySort.WriteBack` | src/runtime/Object.cpp:1763-1778 | The values at the front and no element behind them up to the length, holes jumped over. |
| `ArraySort.ComparatorIsOrder` | src/builtins/BuiltinArray.cpp:512-529 | The comparator of the builtin puts undefined values behind all others and empty slots last, and is consistent whenever the order on values is. |
| `ArraySort.SortedValues` | src/builtins/BuiltinArray.cpp:501-531 | Sorting rearranges the present values, and with a consistent order it is the stable sort of them. |
| `ArraySort.FastPathSort` | src/runtime/ArrayObject.cpp:287-319 | Sorting all slots of a fast-mode array at once sorts the filled ones and leaves the empty ones behind them. |
| `ArraySort.SortFastMode` | src/runtime/ArrayObject.cpp:287-324 | Sorting in the temporary buffer and writing back leaves the slots of the storage sorted in the same sense, empty ones last. |
| `ArraySort.SlotsRoundTrip` | src/runtime/ArrayObject.cpp:294-318 | Storage slots stand for the array they were read from. |
| `ArraySort.FastPathAgrees` | src/runtime/ArrayObject.cpp:287-327 | What the fast-mode path writes back is the real array that the path over present values leaves, holes included. |
| `BigIntWrap.AsUintN` | src/builtins/BuiltinBigInt.cpp:68-88 | AND with the mask of ones is the residue modulo 2 to the power of the width, negative integers included; RangeError for an index out of range. |
| `BigIntWrap.AsIntN` | src/builtins/BuiltinBigInt.cpp:90-119 | The integer in the signed range of the width congruent to the argument, 0 for width 0; RangeError for an index out of range. |
| `BigIntWrap.UintN` | src/builtins/BuiltinBigInt.cpp:77-84 | The residue is congruent to the integer and lies between 0 and 2 to the power of the width. |
| `BigIntWrap.IntNIsUnique` | src/builtins/BuiltinBigInt.cpp:107-115 | There is only one such integer. |
| `BigIntWrap.WrapTwice` | src/builtins/BuiltinBigInt.cpp:68-119 | Both ways of wrapping are idempotent and each keeps what the other sees. |
| `BigIntWrap.WrapIsHomomorphic` | src/builtins/BuiltinBigInt.cpp:68-88 | Unsigned wrapping commutes with addition and multiplication. |
| `BigIntWrap.SignedWrapIsHomomorphic` | src/builtins/BuiltinBigInt.cpp:90-119 | Signed wrapping commutes with addition and multiplication. |
| `BigIntWrap.CongruentIff` | src/builtins/BuiltinBigInt.cpp:106-113 | Two integers differ by a multiple of the modulus if and only if they have the same residue. |
| `TwosComplement.BitwiseBits` | src/builtins/BuiltinBigInt.cpp:84 | Every bit of a bitwise operation on infinite two's complement comes from the two bits at its place. |
| `TwosComplement.AndMask` | src/builtins/BuiltinBigInt.cpp:81-84 | AND with `b` low ones is the residue modulo 2 to the power of `b`. |
| `TwosComplement.BitwiseMod` | src/builtins/BuiltinAtomics.cpp:107-126 | The low bits of a bitwise result depend on the low bits of the operands only. |
| `MathPow.Pow` | src/builtins/BuiltinMath.cpp:213-239 | Square and multiply gives the power for every integer exponent of the range, its reciprocal for a negative one, infinity for a negative power of zero. |
| `MathPow.StepKeepsProduct` | src/builtins/BuiltinMath.cpp:219-238 | A round keeps `p * m^n`, and when `n` reaches 0 the product is complete. |
| `MathPow.IntegerPowerSum` | src/builtins/BuiltinMath.cpp:213-239 | Exponents add up, whatever their signs. |
| `MathPow.UnitPowers` | src/builtins/BuiltinMath.cpp:213-239 | The powers to 0, 1 and -1, which with the law for sums fix all others. |
| `NumberRadix.Itoa` | src/builtins/BuiltinNumber.cpp:38-74 | Writes the digits, the highest first, behind what the buffer holds, and a NUL; returns the number of characters written, at most 65. |
| `NumberRadix.FillDigits` | src/builtins/BuiltinNumber.cpp:51-59 | The temporary buffer holds the digits, the lowest first, and 64 places are enough. |
| `NumberRadix.CopyBack` | src/builtins/BuiltinNumber.cpp:68-70 | The temporary buffer is copied backwards behind the characters already written. |
| `NumberRadix.DigitsRoundTrip` | src/builtins/BuiltinNumber.cpp:51-70 | Reading the digits back gives the number; they are digits of the radix; no leading zero except for 0 itself. |
| `NumberRadix.NumberToString` | src/builtins/BuiltinNumber.cpp:235-260 | The text of the integer, through the NUL-terminated buffer; RangeError for a radix out of range. |
| `NumberRadix.NumberTextRoundTrip` | src/builtins/BuiltinNumber.cpp:249-260 | Reading the text of any integer back, sign included, gives the integer. |
| `UnicodeTables.MergeRanges` | tools/gen_unicode.py:92-103 | Covers exactly the same code points, keeps exactly the keys that do not begin right behind the range before them and the first two, each with a range up to the end of the last one merged into it, and leaves no neighbours to merge behind the first. |
| `UnicodeTables.MergeTable` | tools/gen_unicode.py:92-103 | The same for a table whatever its size. |
| `UnicodeTables.MergedOnce` | tools/gen_unicode.py:92-103 | These conditions leave exactly one result. |
| `UnicodeTables.SortedOnce` | tools/gen_unicode.py:94 | The sorted keys of a dictionary are determined by it. |
| `UnicodeTables.MergeKeepsCover` | tools/gen_unicode.py:97-103 | Merging two adjacent ranges covers the same code points. |
| `UnicodeTables.MergeKeepsEnds` | tools/gen_unicode.py:97-103 | Merging keeps the ends of the ranges in order. |
| `UnicodeTables.MergeAt` | tools/gen_unicode.py:95-103 | One round of the loop keeps its invariant and the covered set. |
| `UnicodeTables.NothingLeftIff` | tools/gen_unicode.py:95 | Nothing is left to merge if and only if the first two ranges of the input are not adjacent. |
| `UnicodeTables.FirstTwoStayApart` | tools/gen_unicode.py:95 | `{0: 0, 1: 0}` stays as it is. |
| `UnicodeTables.Generator.EncodeLongLengths` | tools/gen_unicode.py:105-112 | Every stored length decodes to the length it had, whatever order the dictionary is iterated in. |
| `UnicodeTables.Generator.CreateBasicPlaneTable` | tools/gen_unicode.py:74-112 | The stored lengths decode to the result of merging all collected ranges and the two joiners, which covers exactly what they cover. |
| `UnicodeTables.Generator.CollectRanges` | tools/gen_unicode.py:79-90 | All ranges of identifier starts, the two joiners, and the ranges of identifier parts whose key is new. |
| `UnicodeTables.Generator.UnifyNonBasicPlane` | tools/gen_unicode.py:115-127 | The supplementary table becomes the result of merging it, which covers the same code points. |
| `IdentifierLookup.EmitTable` | tools/gen_unicode.py:215-224 | Starts in ascending order with their lengths beside them. |
| `IdentifierLookup.IsIdentifierPartSlow` | src/parser/Lexer.cpp:189-217 | The binary search accepts exactly the code points of the last range that begins at or before them, unless that is the last range of the table. |
| `IdentifierLookup.TestedIsCovered` | src/parser/Lexer.cpp:198-206 | Whatever is accepted is covered by a range and lies before the start of the last one, for every table. |
| `IdentifierLookup.LookupIsCoverBeforeLastIff` | src/parser/Lexer.cpp:189-217 | For every table: all code points that a range covers before the start of the last one, and no others, are accepted, if and only if no range is hidden behind a later one that ends before it and leaves a gap. |
| `IdentifierLookup.HiddenIsMissed` | src/parser/Lexer.cpp:198-206 | The code point behind such a later range is covered but rejected. |
| `IdentifierLookup.NeighboursGrow` | tools/gen_unicode.py:159-165 | Ranges that share at most their end points have growing ends, so that none is hidden. |
| `IdentifierLookup.LastBlockIff` | src/parser/Lexer.cpp:191-199 | From the start of the last range on exactly its own code points are covered, if and only if no other range reaches beyond its end. |
| `IdentifierLookup.JoinersCoverOneMore` | tools/gen_unicode.py:79-81 | The second joiner is stored with length 1, so that U+200E is covered too, whatever was collected. |
| `IdentifierLookup.GenerateAndSearch` | tools/gen_unicode.py:199-224 | Generating the tables and searching them accepts only code points collected; and when the ends of the collected ranges are in the order of their starts, all of them except for the whole of the last block. |
| `AtomicsReadModifyWrite.Cell.AtomicOperation` | src/builtins/BuiltinAtomics.cpp:78-135 | Returns the old value; the new one is a value of the element type, congruent modulo 2^width to the sum, difference or operand, or with each bit from the two bits at its place. |
| `AtomicsReadModifyWrite.ApplyIsResult` | src/builtins/BuiltinAtomics.cpp:107-131 | The same for the function that the steps of the protocol apply. |
| `AtomicsReadModifyWrite.CastIsCongruent` | src/builtins/BuiltinAtomics.cpp:82 | The conversion gives the value in the range of the type, signed or unsigned, that is congruent to the integer. |
| `AtomicsReadModifyWrite.CastIsUnique` | src/builtins/BuiltinAtomics.cpp:82 | There is only one such value. |
| `AtomicsReadModifyWrite.TruncateFirst` | src/builtins/BuiltinAtomics.cpp:82 | Truncating the operand before operating agrees with truncating the exact result, for all six operations. |
| `AtomicsReadModifyWrite.SumsAddUp` | src/builtins/BuiltinAtomics.cpp:86-100 | Additions and subtractions leave the initial value plus their signed sum, truncated to the element type. |
| `AtomicsReadModifyWrite.OrderDoesNotMatter` | src/builtins/BuiltinAtomics.cpp:86-100 | The order in which additions and subtractions take effect does not matter. |
| `AtomicsReadModifyWrite.StepRefinesAtomic` | src/builtins/BuiltinAtomics.cpp:107-131 | Every step of the locked form keeps the invariant and is one atomic operation on the cell, the one its thread asked for, or none at all. |
| `AtomicsReadModifyWrite.EveryCallIsServed` | src/builtins/BuiltinAtomics.cpp:166-181 | After any run each thread got exactly the operations it called, in the order of its calls. |
| `AtomicsReadModifyWrite.ChainGrows` | src/builtins/BuiltinAtomics.cpp:107-131 | An operation that found what its predecessors left continues the chain of returned values. |
| `AtomicsReadModifyWrite.RunHolds` | src/builtins/BuiltinAtomics.cpp:107-131 | Every run of any number of threads keeps the invariant. |
| `AtomicsReadModifyWrite.AnyInterleavingAddsUp` | src/builtins/BuiltinAtomics.cpp:78-135 | After any interleaving that no operation is still inside of, additions and subtractions leave the value in the range of the type that is congruent to the initial value plus their signed sum, and the returned old values form one chain from the initial value. |
| `WaiterLists.WaiterList.Notify` | src/builtins/BuiltinAtomics.cpp:541-555 | Removes the oldest waiters, as many as asked for or as there are, from the front, keeps the rest in order, and returns their number. |
| `WaiterLists.BatchSize` | src/builtins/BuiltinAtomics.cpp:542-550 | The lesser of the list's size and the count, all waiters without a count. |
| `WaiterLists.WaiterList.Erase` | src/builtins/BuiltinAtomics.cpp:491 | Removes the item and nothing else. |
| `WaiterLists.WaiterList.Find` | src/builtins/BuiltinAtomics.cpp:442 | Whether the item is listed. |
| `WaiterLists.WithoutMembers` | src/builtins/BuiltinAtomics.cpp:467 | Erasing keeps exactly all other items. |
| `WaiterLists.WithoutKeepsRest` | src/builtins/BuiltinAtomics.cpp:467 | Erasing keeps the order of the others, and changes nothing when the item is not listed. |
| `WaitNotifySafety.StepKeeps` | src/builtins/BuiltinAtomics.cpp:388-496 | Every step of every thread keeps the invariant: each lock held by exactly the thread inside, no duplicates on the list, every item listed, notified or self-removed and only one of these, records and pending counts exact. |
| `WaitNotifySafety.ReachableIsSafe` | src/builtins/BuiltinAtomics.cpp:388-555 | The invariant holds after every run of any number of threads. |
| `WaitNotifySafety.RunKeeps` | src/builtins/BuiltinAtomics.cpp:388-555 | The invariant survives every run. |
| `WaitNotifySafety.ReportFindsOwnRecord` | src/builtins/BuiltinAtomics.cpp:450-464 | A worker's search finds its own record and no other. |
| `WaitNotifyTheorems.EverythingIsAccountedFor` | src/builtins/BuiltinAtomics.cpp:434-555 | After any run as many items were enqueued as are listed, were notified and removed themselves together, the list is in the order of arrival, and what the notifications returned adds up to what they removed. |
| `WaitNotifyTheorems.NotifyTakesOldest` | src/builtins/BuiltinAtomics.cpp:541-553 | Each notification removes min(size, count) waiters, each older than all that stay. |
| `WaitNotifyTheorems.AsyncComparesAndEnqueuesAtOnce` | src/builtins/BuiltinAtomics.cpp:389-436 | Between the comparison of waitAsync and its enqueueing, whatever the other threads do, no waiter comes or goes. |
| `WaitNotifyTheorems.NotifyAfterCompareFindsWaiter` | src/builtins/BuiltinAtomics.cpp:389-475 | Any notification that locks the list after the comparison of waitAsync, whatever has happened in between, finds the waiter listed or already removed. |
| `WaitNotifyTheorems.SyncWaitMissesNotification` | src/builtins/BuiltinAtomics.cpp:480-486 | Synchronous wait gives no such guarantee: from every state between its comparison and its enqueueing, a whole notification of all waiters can come and go without counting it, after which it falls asleep. |
| `WaitNotifyTheorems.WaitReachesBetween` | src/builtins/BuiltinAtomics.cpp:389-482 | Such a state is reachable. |
| `WaitNotifyTheorems.NoEarlyCompletion` | src/builtins/BuiltinAtomics.cpp:450-474 | No worker completes before its record is pushed: it always finds the record. |
| `WaitNotifyTheorems.PendingIsExact` | src/builtins/BuiltinAtomics.cpp:454-459 | Outside a sweep the pending count is the number of records whose waiter slot is null, which are those of the workers that have completed. |
| `WaitNotifyTheorems.NulledForGood` | src/builtins/BuiltinAtomics.cpp:450-464 | Each record is nulled once: after that, over any run, it is null or gone and no worker can report in it. |
| `WaitNotifyTheorems.SettledOnce` | src/runtime/VMInstance.cpp:785-810 | The sweep settles a promise at most once. |
| `WaitNotifyTheorems.SettledForGood` | src/runtime/VMInstance.cpp:785-810 | Over any run a settled promise keeps its outcome. |
| `WaitNotifyOutcomes.PromiseOutcome` | src/builtins/BuiltinAtomics.cpp:439-458 | After any run a promise of waitAsync has resolved to "timed-out" if its worker woke up for a timeout, which takes a bounded timeout, and to "ok" otherwise, and then only after a notification had woken the worker or removed the waiter. |
| `WaitNotifyOutcomes.AnswerIsRight` | src/builtins/BuiltinAtomics.cpp:395-496 | Whatever the run, each call that returns gives the right answer: "not-equal" exactly if its comparison found so; wait "ok" or "timed-out" by how it woke up; waitAsync "timed-out" without time to wait and otherwise a promise; notify the number of waiters it removed. |
| `WaitNotifyOutcomes.EnlistedAsCalled` | src/builtins/BuiltinAtomics.cpp:434-489 | A waiter is enlisted only after its comparison found the cell equal, for the agent, in the mode and with the timeout of the call. |
| `WaitNotifyOutcomes.AnswersAddUp` | src/builtins/BuiltinAtomics.cpp:537-557 | After any run the numbers that notifications returned, and are about to return, add up to the waiters they removed. |
| `WaitNotifyOutcomes.ReachableIsTold` | src/builtins/BuiltinAtomics.cpp:388-557 | After any run every agent and every worker is where its own steps have led it. |
| `WaitNotifyTheorems.NoStaleWaiters` | src/builtins/BuiltinAtomics.cpp:465-491 | When every main thread is idle and every worker has finished, nobody is left on the list. |
| `WaitNotifyTheorems.NoDeadlock` | src/builtins/BuiltinAtomics.cpp:434-475 | No cyclic wait among the list mutex, the async-data mutexes and the join of the sweep: whenever any thread is busy, some thread can take a step on its own. |
| `WaitNotifyTheorems.SleeperCanWake` | src/builtins/BuiltinAtomics.cpp:443-448 | A sleeper can wake up whenever the list is free, for a notification always, for a timeout unless it has none. |
| `WaitNotifyTheorems.JoinedWorkerMoves` | src/runtime/VMInstance.cpp:804 | The worker a sweep joins has reported already, so it does not need the mutex the sweep holds. |

## Left out

- Getters, setters, proxies, species constructors, inherited indexed properties, keys that are not indices, and callbacks that change the array: the objects here are ordinary and the callbacks pure.
- The toString recursion preventer of `join`, and conversions of arguments.
- Join: does not model the overflow of `int64_t` when a gap of nearly 2^53 holes is multiplied by the length of a long separator; the product is exact here.
- FlattenIntoArray: does not model the error for a target index of 2^63-1, which no finite tree of arrays that fits into memory reaches.
- FlattenIntoArray: sources are values, finite trees; a nested array that contains itself or the target is outside the model.
- Concat: does not bound the total for primitive arguments, because that branch of the source has no check.
- Unshift: does not say what length a real array has after a RangeError, because writing the moved slots may have raised it by then.
- Splice: does not say so either, for the same reason.
- Pow: does not model floating-point rounding, NaN, or the second attempt with the C library when the product overflows to infinity; it is over exact reals with one infinity.
- Itoa: does not model radix 10 with the least 64-bit integer, whose negation overflows in the source.
- NumberToString: covers integers of magnitude below 2^63 and radices other than 10; the source prints other numbers by code outside this model.
- AtomicOperation: models the signed overflow of the locked form as wrapping, as the atomic intrinsics do; spinning on the lock is one step.
- AtomicOperation: operands beyond 64 bits are taken as integers, where the source converts a Number to `int64_t`, which is undefined there.
- Liveness of waiters, the order of waking and the clock: wakings are nondeterministic, so only safety and the absence of deadlock are stated.
- Waiting lists at other addresses, and validation of the arguments of `wait`, `waitAsync` and `notify`.
- The order of the asynchronous records: a sweep settles any null record next, and the source the first.
- The search in the supplementary planes: the same loop without long lengths.
- Reading the Unicode data file, writing the tables as C++, and their storage in 16 bits.
- EmitTable: returns the columns and not the C++ text around them.
- The other `Array.prototype` methods (`fill`, `includes`, `reduce`, iterators): plain loops or the same jumps again.
- Intl, Date, Error, Function, JSON, DataView, Map, the public API and memory management.
