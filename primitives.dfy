/** `UnmanagedSpan<T>`: a non-owning view made of a raw element address and an
    unsigned element count, with bounds-checked access into memory it does not own.

    Memory is element-indexed: an `array<T>` whose index is an element address,
    with address 0 standing for the null pointer. How an address is obtained
    (`Unsafe.AsPointer`, `MemoryMarshal.GetArrayDataReference`) is left to the
    caller, who supplies it as a plain `Address`. */
module Primitives {
  import opened Wrappers

  /** An element address; `Null` is the null pointer. */
  type Address = nat

  const Null: Address := 0

  /** The exception the span throws: `ArgumentOutOfRangeException` with the name
      of the offending parameter. */
  datatype Error = ArgumentOutOfRange(paramName: string)

  /** The struct's two readonly fields. The struct is `readonly`, so a value
      never changes after construction; writes go to the pointee only. */
  datatype UnmanagedSpan = UnmanagedSpan(Pointer: Address, Length: nat)

  /** The construction invariant: a null pointer has no elements. A non-null
      pointer may have any length, zero included. */
  predicate Wf(s: UnmanagedSpan)
  {
    s.Pointer == Null ==> s.Length == 0
  }

  /** The caller's obligation: a non-empty span views live memory, that is, a
      non-null region [Pointer, Pointer + Length) inside `size` cells. An empty
      span is never dereferenced, so it asks for nothing. */
  predicate Backed(s: UnmanagedSpan, size: nat)
  {
    s.Length == 0 || (s.Pointer != Null && s.Pointer + s.Length <= size)
  }

  /** A non-null managed `T[]` as the runtime presents it: the address of its
      element 0, which is never null (not even for an empty array), and its
      `Int32` length. */
  datatype ArrayHandle = ArrayHandle(data: Address, length: nat)

  type ManagedArray = a: ArrayHandle | a.data != Null && a.length <= 0x7FFF_FFFF
    witness ArrayHandle(1, 0)

  // ---------------------------------------------------------------- construction

  /** `new UnmanagedSpan<T>()`: the default value. */
  function Default(): (s: UnmanagedSpan)
    ensures Wf(s) && s.Pointer == Null && IsEmpty(s)
  {
    UnmanagedSpan(Null, 0)
  }

  /** `UnmanagedSpan(T* pointer)`: one element behind a non-null pointer, none
      behind null, whatever region the pointer actually sits in. */
  function FromPointer(pointer: Address): (s: UnmanagedSpan)
    ensures Wf(s) && s.Pointer == pointer
    ensures s.Length <= 1 && (s.Length == 1 <==> pointer != Null)
  {
    UnmanagedSpan(pointer, if pointer != Null then 1 else 0)
  }

  /** `UnmanagedSpan(ref T reference)`: forwards the reference's address to the
      pointer constructor, so a reference to a real location gives length 1. */
  function FromReference(location: Address): (s: UnmanagedSpan)
    ensures Wf(s) && s.Pointer == location
    ensures location != Null ==> s.Length == 1
  {
    FromPointer(location)
  }

  /** `UnmanagedSpan(T[]? array)`: the default span for a null array, otherwise
      the array's element 0 and its length. */
  function FromArray(arr: Option<ManagedArray>): (s: UnmanagedSpan)
    ensures Wf(s)
    ensures arr.None? ==> s == Default()
    ensures arr.Some? ==> s.Pointer != Null && s.Pointer == arr.value.data
    ensures arr.Some? ==> s.Length == arr.value.length
  {
    match arr
    case None => Default()
    case Some(a) => UnmanagedSpan(a.data, a.length)
  }

  /** `UnmanagedSpan(T* pointer, UIntPtr length)`. Its `ThrowIfNegative` check
      can never fire on an unsigned length, which `nat` states by construction;
      the remaining check rejects a null pointer with a non-zero length. */
  function FromPointerAndLength(pointer: Address, length: nat): (r: Result<UnmanagedSpan, Error>)
    ensures r.Failure? <==> pointer == Null && length != 0
    ensures r.Failure? ==> r.error == ArgumentOutOfRange("length")
    ensures r.Success? ==> Wf(r.value) && r.value.Pointer == pointer && r.value.Length == length
  {
    if pointer == Null && length != 0 then Failure(ArgumentOutOfRange("length"))
    else Success(UnmanagedSpan(pointer, length))
  }

  /** Every way of building a span yields a value that keeps the invariant. */
  lemma EveryConstructionIsWellFormed(pointer: Address, arr: Option<ManagedArray>, length: nat)
    ensures Wf(Default()) && Wf(FromPointer(pointer)) && Wf(FromReference(pointer)) && Wf(FromArray(arr))
    ensures FromPointerAndLength(pointer, length).Success? ==> Wf(FromPointerAndLength(pointer, length).value)
  {
  }

  /** A non-null but empty array gives an addressed span with no elements. */
  lemma EmptyArrayGivesAddressedEmptySpan(a: ManagedArray)
    requires a.length == 0
    ensures FromArray(Some(a)).Pointer != Null && IsEmpty(FromArray(Some(a)))
  {
  }

  // ---------------------------------------------------------------- the indexer

  /** The indexer's getter: `ThrowIfGreaterThanOrEqual(idx, Length)`, then
      `Pointer[idx]`. Memory must be valid only where it is read, so an index
      out of range faults whatever the memory is. */
  function Get<T>(s: UnmanagedSpan, memory: array<T>, idx: nat): (r: Result<T, Error>)
    reads memory
    requires idx < s.Length ==> Backed(s, memory.Length)
    ensures r.Failure? <==> idx >= s.Length
    ensures r.Failure? ==> r.error == ArgumentOutOfRange("idx")
    ensures r.Success? ==> s.Pointer + idx < memory.Length && r.value == memory[s.Pointer + idx]
  {
    if idx >= s.Length then Failure(ArgumentOutOfRange("idx"))
    else Success(memory[s.Pointer + idx])
  }

  /** The bounds check comes before any access: an out-of-range read gives the
      same fault over any two memories, even one with no cells at all. */
  lemma BoundsCheckPrecedesAccess<T>(s: UnmanagedSpan, m1: array<T>, m2: array<T>, idx: nat)
    requires idx >= s.Length
    ensures Get(s, m1, idx) == Get(s, m2, idx) == Failure(ArgumentOutOfRange("idx"))
  {
  }

  /** The indexer's setter: the same check, then `Pointer[idx] = value`. The
      span is a value and stays as it is; exactly one cell of memory changes,
      and every view over that cell, this one or another, sees the new value. */
  method Set<T>(s: UnmanagedSpan, memory: array<T>, idx: nat, value: T) returns (r: Outcome<Error>)
    requires idx < s.Length ==> Backed(s, memory.Length)
    modifies memory
    ensures r.Fail? <==> idx >= s.Length
    ensures r.Fail? ==> r.error == ArgumentOutOfRange("idx") && memory[..] == old(memory[..])
    ensures r.Pass? ==> memory[..] == old(memory[..])[s.Pointer + idx := value]
    ensures r.Pass? ==> Get(s, memory, idx) == Success(value)
    ensures forall t: UnmanagedSpan, j: nat | j < t.Length && Backed(t, memory.Length) ::
              Get(t, memory, j) == if r.Pass? && t.Pointer + j == s.Pointer + idx then Success(value)
                                   else old(Get(t, memory, j))
  {
    if idx >= s.Length {
      return Fail(ArgumentOutOfRange("idx"));
    }
    memory[s.Pointer + idx] := value;
    r := Pass;
  }

  // ---------------------------------------------------------------- emptiness and references

  /** `IsEmpty`. */
  function IsEmpty(s: UnmanagedSpan): (empty: bool)
  {
    s.Length == 0
  }

  /** A span is empty exactly when no index can be read through it. */
  lemma IsEmptyIffNoIndexReadable<T>(s: UnmanagedSpan, memory: array<T>)
    requires Backed(s, memory.Length)
    ensures IsEmpty(s) <==> forall idx: nat :: Get(s, memory, idx).Failure?
  {
    if !IsEmpty(s) {
      assert Get(s, memory, 0).Success?;
    }
  }

  /** `Reference`: a ref to the element at `Pointer`, formed with no check at
      all; the model asks for a non-null pointer. */
  function Reference(s: UnmanagedSpan): (r: Address)
    requires s.Pointer != Null
    ensures r != Null && r == s.Pointer
  {
    s.Pointer
  }

  /** On a non-empty span, `Reference` designates the element at index 0. */
  lemma ReferenceIsFirstElement<T>(s: UnmanagedSpan, memory: array<T>)
    requires Wf(s) && Backed(s, memory.Length) && !IsEmpty(s)
    ensures Reference(s) < memory.Length
    ensures Get(s, memory, 0) == Success(memory[Reference(s)])
  {
  }

  /** `GetPinnableReference`: the null reference for an empty span, otherwise
      `Reference`. By the invariant this is null exactly when the span is empty. */
  function GetPinnableReference(s: UnmanagedSpan): (r: Address)
    requires Wf(s)
    ensures r == Null <==> IsEmpty(s)
    ensures !IsEmpty(s) ==> r == Reference(s)
  {
    if s.Length != 0 then Reference(s) else Null
  }

  // ---------------------------------------------------------------- equality and hashing

  /** `Equals(UnmanagedSpan<T>)`: same pointer and same length. That is equality
      of the two fields and nothing else: the memory is never consulted. */
  function Equals(a: UnmanagedSpan, b: UnmanagedSpan): (r: bool)
    ensures r <==> a == b
  {
    a.Pointer == b.Pointer && a.Length == b.Length
  }

  /** `operator ==`. */
  function EqualityOperator(left: UnmanagedSpan, right: UnmanagedSpan): (equal: bool)
  {
    Equals(left, right)
  }

  /** `operator !=`. */
  function InequalityOperator(left: UnmanagedSpan, right: UnmanagedSpan): (unequal: bool)
  {
    !EqualityOperator(left, right)
  }

  /** `Equals` is an equivalence relation, and the operators agree with it. */
  lemma EqualsIsEquivalence(a: UnmanagedSpan, b: UnmanagedSpan, c: UnmanagedSpan)
    ensures Equals(a, a)
    ensures Equals(a, b) ==> Equals(b, a)
    ensures Equals(a, b) && Equals(b, c) ==> Equals(a, c)
    ensures EqualityOperator(a, b) == Equals(a, b)
    ensures InequalityOperator(a, b) == !Equals(a, b)
  {
  }

  /** Equality is identity, not content: two spans at different addresses are
      never equal, even when every element they view holds the same value.
      The different addresses alone decide it; the equal-contents hypothesis is
      there only to spell out the scenario. */
  lemma EqualityIgnoresContents<T>(a: UnmanagedSpan, b: UnmanagedSpan, memory: array<T>)
    requires Backed(a, memory.Length) && Backed(b, memory.Length)
    requires a.Pointer != b.Pointer && a.Length == b.Length
    requires forall idx: nat :: Get(a, memory, idx) == Get(b, memory, idx)
    ensures !Equals(a, b)
  {
  }

  /** `GetHashCode`: `HashCode.Combine((IntPtr)Pointer, Length)`. The combiner's
      internals are not modelled; it is a parameter. */
  function GetHashCode(s: UnmanagedSpan, combine: (int, nat) -> int): (hash: int)
  {
    combine(s.Pointer, s.Length)
  }

  /** Equal spans hash equally, whatever the combiner. */
  lemma EqualSpansHashEqually(a: UnmanagedSpan, b: UnmanagedSpan, combine: (int, nat) -> int)
    requires Equals(a, b)
    ensures GetHashCode(a, combine) == GetHashCode(b, combine)
  {
  }
}
