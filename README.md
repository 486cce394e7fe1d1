# UnmanagedSpan in Dafny

A model of `UnmanagedSpan<T>` from LibMemCs.Primitives: a non-owning view of
unmanaged memory made of a raw element pointer and an unsigned element count.
The view is a readonly struct. It can be built from nothing, from a pointer,
from a reference, from a managed array, or from a pointer and a length. It
offers a bounds-checked indexer that reads and writes the memory it points
into, emptiness, identity equality with its operators and hash, an unchecked
first-element reference and a "pinnable" reference, and an enumerator with a
mutable cursor.

Layout:

- `wrappers.dfy` (module `Wrappers`): `Option`, `Result` and `Outcome`. They stand for values that may be absent and for operations that throw.
- `primitives.dfy` (module `Primitives`): the span as an immutable datatype `UnmanagedSpan(Pointer, Length)` and its construction invariant `Wf` (a null pointer has length 0). It also holds every constructor, the getter `Get` and the setter `Set`, emptiness, the references, equality and hashing.
- `enumeration.dfy` (module `Enumeration`): the cursor step `MoveNextStep` and its iterate `Run`, with the protocol lemmas. The class `UnmanagedSpanEnumerator` has an `index` field that `MoveNext` and `Reset` update. `ForEach` states what a `foreach` over the span observes.

Memory is an `array<T>` indexed by element address, and address 0 is the null
pointer. The getter is a function that reads that array. The setter is a method
that modifies it. The caller's obligation that a non-empty span views live
memory is the predicate `Backed`. The indexer asks for it only when the index
is in range, because an out-of-range index faults before any access. Exceptions
are `Failure(ArgumentOutOfRange(paramName))` values.

## Model

| member | source | states |
|---|---|---|
| `Primitives.Default` | LibMemCs.Primitives/UnmanagedSpan.cs:19 | the default span has a null pointer, is well formed and is empty |
| `Primitives.FromPointer` | LibMemCs.Primitives/UnmanagedSpan.cs:22-26 | keeps the pointer; the length is 1 exactly when the pointer is non-null, else 0, never more than 1 |
| `Primitives.FromReference` | LibMemCs.Primitives/UnmanagedSpan.cs:20 | forwards to the pointer constructor; a reference to a real location gives length 1 |
| `Primitives.FromArray` | LibMemCs.Primitives/UnmanagedSpan.cs:28-37 | a null array gives the default span; otherwise the pointer is the (non-null) element-0 address and the length is the array's length |
| `Primitives.FromPointerAndLength` | LibMemCs.Primitives/UnmanagedSpan.cs:46-55 | throws ArgumentOutOfRange("length") iff the pointer is null and the length is non-zero; otherwise stores both unchanged, well formed |
| `Primitives.EveryConstructionIsWellFormed` | LibMemCs.Primitives/UnmanagedSpan.cs:19-55 | every construction path yields a span whose null pointer implies length 0 |
| `Primitives.EmptyArrayGivesAddressedEmptySpan` | LibMemCs.Primitives/UnmanagedSpan.cs:35-36 | a non-null empty array gives a non-null, zero-length span |
| `Primitives.Get` | LibMemCs.Primitives/UnmanagedSpan.cs:59-63 | faults with ArgumentOutOfRange("idx") iff idx >= Length; otherwise returns the memory cell at Pointer + idx |
| `Primitives.BoundsCheckPrecedesAccess` | LibMemCs.Primitives/UnmanagedSpan.cs:61-62 | an out-of-range read gives the same fault over any memory, even one with no cells |
| `Primitives.Set` | LibMemCs.Primitives/UnmanagedSpan.cs:64-68 | faults iff idx >= Length and then leaves memory unchanged; otherwise only cell Pointer + idx changes, a following get returns the value, and every view sees exactly that one cell change |
| `Primitives.IsEmptyIffNoIndexReadable` | LibMemCs.Primitives/UnmanagedSpan.cs:71 | IsEmpty holds exactly when every index faults |
| `Primitives.ReferenceIsFirstElement` | LibMemCs.Primitives/UnmanagedSpan.cs:17 | the unchecked reference is the address Pointer; on a non-empty span it designates the element that get(0) returns |
| `Primitives.GetPinnableReference` | LibMemCs.Primitives/UnmanagedSpan.cs:94-99 | null exactly when the span is empty; otherwise the same address as Reference |
| `Primitives.Equals` | LibMemCs.Primitives/UnmanagedSpan.cs:73 | true iff the two spans are the same (pointer, length) pair |
| `Primitives.EqualsIsEquivalence` | LibMemCs.Primitives/UnmanagedSpan.cs:73-85 | Equals is reflexive, symmetric and transitive; `==` agrees with it and `!=` is its negation |
| `Primitives.EqualityIgnoresContents` | LibMemCs.Primitives/UnmanagedSpan.cs:73 | spans at different addresses are unequal even when all the elements they view are equal |
| `Primitives.EqualSpansHashEqually` | LibMemCs.Primitives/UnmanagedSpan.cs:87 | equal spans have equal hash codes, whatever the combiner |
| `Enumeration.RunFrom` | LibMemCs.Primitives/UnmanagedSpan.cs:126-133 | from an index not past the end, the i-th MoveNext succeeds iff index + i < Length, and the index ends at min(index + count, Length) |
| `Enumeration.CursorProtocol` | LibMemCs.Primitives/UnmanagedSpan.cs:110-135 | from index 0 (fresh or reset) MoveNext answers true exactly Length times and then false; after k calls the index is min(k, Length) |
| `Enumeration.ExhaustedStaysExhausted` | LibMemCs.Primitives/UnmanagedSpan.cs:128-129 | at the end every further MoveNext answers false and leaves the index unchanged |
| `Enumeration.UnmanagedSpanEnumerator.constructor` | LibMemCs.Primitives/UnmanagedSpan.cs:110-119 | keeps the span and starts the index at 0 |
| `Enumeration.UnmanagedSpanEnumerator.Current` | LibMemCs.Primitives/UnmanagedSpan.cs:112 | faults iff the index is at the end; otherwise the element at the index itself |
| `Enumeration.UnmanagedSpanEnumerator.MoveNext` | LibMemCs.Primitives/UnmanagedSpan.cs:126-133 | takes exactly the step MoveNextStep gives from the old index, and keeps the index within the span |
| `Enumeration.UnmanagedSpanEnumerator.Reset` | LibMemCs.Primitives/UnmanagedSpan.cs:135 | puts the index back to 0 |
| `Enumeration.GetEnumerator` | LibMemCs.Primitives/UnmanagedSpan.cs:101 | a fresh enumerator over this span at index 0 |
| `Enumeration.ForEach` | LibMemCs.Primitives/UnmanagedSpan.cs:101-135 | enumerating an empty span yields nothing; a non-empty span yields elements 1 .. Length - 1 (Length - 1 of them) and then faults |
| `Enumeration.CorrectedCurrent` | LibMemCs.Primitives/UnmanagedSpan.cs:112 | the corrected accessor faults iff no MoveNext has succeeded, else returns element index - 1 |
| `Enumeration.ForEachCorrected` | LibMemCs.Primitives/UnmanagedSpan.cs:101-135 | with the corrected accessor, enumeration yields exactly elements 0 .. Length - 1 in address order and never faults |
| `Enumeration.ThreeElementBuffer` | LibMemCs.Primitives/UnmanagedSpan.cs:110-133 | over the buffer [10, 20, 30] the enumerator as written yields [20, 30] and then throws; the corrected one yields [10, 20, 30] |

## Left out

- The `ReadOnlySpan<T>` constructor and the implicit conversion (lines 39-44, 105): both forward to `FromPointerAndLength` with an address and length obtained from the runtime.
- How addresses are obtained (`Unsafe.AsPointer`, `MemoryMarshal.GetArrayDataReference`, `MemoryMarshal.GetReference`): these are runtime calls. Their result is an `Address` supplied by the caller; for a non-null array it is non-null, which the `ManagedArray` type states.
- Byte-level pointer arithmetic with `sizeof(T)`: memory is element-indexed.
- The native width of `UIntPtr`: lengths and indices are unbounded `nat`. No model arithmetic can wrap. `MoveNext` increments only below `Length`, and `Pointer + idx` stays inside memory by the `Backed` obligation.
- The element type parameter of the struct: the span datatype holds only the pointer and the length, and `T` appears on the memory the span is read through.
- `HashCode.Combine` internals: the combiner is a parameter of `GetHashCode`. The hash code is therefore not pinned to a value; only its dependence on (pointer, length) is stated.
- `ToString` (lines 89-92): delegates to the base object.
- `Dispose`, the non-generic `IEnumerator.Current` and `IEnumerable.GetEnumerator` (lines 103, 114, 121-124): a no-op and boxing forwards.
- `Equals(object)` (line 75): the runtime type test is not modelled. For an argument of the same type it delegates to `Equals`.
- Value semantics of the enumerator struct: `GetEnumerator` returns it boxed as `IEnumerator<T>`, so a class models that path. Copies of an unboxed enumerator are not modelled.
- Pinning, relocation by the garbage collector, the lifetime of the viewed memory and concurrent access: these are caller obligations and the type does nothing about them.
- Primitives.Reference: requires a non-null pointer, where the source forms the reference with no check at all; dereferencing it on a null pointer is undefined and not modelled.
- Behaviour of the source worth knowing:
  - The indexer throws `ArgumentOutOfRangeException` (parameter "idx") for an index at or past the end.
  - The constructor with an explicit length throws `ArgumentOutOfRangeException` (parameter "length").
  - The enumerator never yields element 0 and faults after the last successful `MoveNext` (see Findings).
  - The reference constructor forwards to the pointer constructor, so its length is 1 only for a non-null location.

## Findings

| source | as written | input that shows it | evidently intended | confidence | as-written member | corrected member |
|---|---|---|---|---|---|---|
| LibMemCs.Primitives/UnmanagedSpan.cs:110-133 | `_index` starts at 0 and `MoveNext` increments it before `Current` reads `_reference[_index]` | a span of length 3 over [10, 20, 30]: a foreach yields 20, 30 and then throws ArgumentOutOfRangeException | a foreach yields 10, 20, 30 and ends | high; not executed | `Enumeration.ForEach` | `Enumeration.ForEachCorrected` |
