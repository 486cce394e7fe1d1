/** `UnmanagedSpan<T>.UnmanagedSpanEnumerator`: a cursor over a span whose
    `MoveNext` advances an unsigned index and whose `Current` reads the span at
    that index.

    As written, the index starts at 0 and `MoveNext` increments it before
    `Current` is read, so after the k-th successful `MoveNext` `Current` reads
    element k: element 0 is never produced, and the read after the last
    successful `MoveNext` faults. The model keeps this behaviour and states it;
    `CorrectedCurrent` is the accessor that produces elements 0 .. Length - 1. */
module Enumeration {
  import opened Wrappers
  import opened Primitives

  // ---------------------------------------------------------------- the cursor as values

  /** The result of one `MoveNext` and the index it leaves behind. */
  datatype Step = Step(moved: bool, index: nat)

  /** One `MoveNext` from `index` over `length` elements: at or past the end it
      answers false and leaves the index alone, otherwise it steps forward. */
  function MoveNextStep(index: nat, length: nat): (step: Step)
  {
    if index >= length then Step(false, index) else Step(true, index + 1)
  }

  /** The answers of `count` consecutive `MoveNext` calls and the final index. */
  datatype Trace = Trace(results: seq<bool>, index: nat)

  function Run(index: nat, length: nat, count: nat): (trace: Trace)
    decreases count
  {
    if count == 0 then Trace([], index)
    else
      var step := MoveNextStep(index, length);
      var rest := Run(step.index, length, count - 1);
      Trace([step.moved] + rest.results, rest.index)
  }

  function Min(a: nat, b: nat): (m: nat)
  {
    if a <= b then a else b
  }

  /** From any index not past the end, the i-th call succeeds exactly when
      index + i is still short of the end, and the index stops at the end. */
  lemma {:induction false} RunFrom(index: nat, length: nat, count: nat)
    requires index <= length
    ensures |Run(index, length, count).results| == count
    ensures forall i :: 0 <= i < count ==> Run(index, length, count).results[i] == (index + i < length)
    ensures Run(index, length, count).index == Min(index + count, length)
    decreases count
  {
    if count > 0 {
      var step := MoveNextStep(index, length);
      RunFrom(step.index, length, count - 1);
      var rest := Run(step.index, length, count - 1);
      assert Run(index, length, count).results == [step.moved] + rest.results;
      forall i | 0 < i < count
        ensures Run(index, length, count).results[i] == (index + i < length)
      {
        assert Run(index, length, count).results[i] == rest.results[i - 1];
      }
    }
  }

  /** The cursor protocol from a fresh or reset enumerator: `MoveNext` answers
      true exactly `length` times and false on every later call, and after k
      calls the index is k, capped at `length`. */
  lemma CursorProtocol(length: nat, count: nat)
    ensures |Run(0, length, count).results| == count
    ensures forall i :: 0 <= i < count ==> (Run(0, length, count).results[i] <==> i < length)
    ensures Run(0, length, count).index == Min(count, length)
  {
    RunFrom(0, length, count);
  }

  /** Once the cursor is at the end, `MoveNext` answers false for good and the
      index does not move. */
  lemma ExhaustedStaysExhausted(length: nat, count: nat)
    ensures Run(length, length, count) == Trace(seq(count, _ => false), length)
  {
    RunFrom(length, length, count);
  }

  // ---------------------------------------------------------------- the enumerator object

  /** `UnmanagedSpanEnumerator`: the span it walks (readonly) and its index. */
  class UnmanagedSpanEnumerator {
    const reference: UnmanagedSpan
    var index: nat

    /** The index never passes the end. */
    ghost predicate Valid()
      reads this
    {
      index <= reference.Length
    }

    /** `UnmanagedSpanEnumerator(reference)`: the index keeps its default, 0. */
    constructor (reference: UnmanagedSpan)
      ensures this.reference == reference && index == 0 && Valid()
    {
      this.reference := reference;
      index := 0;
    }

    /** `Current`: the span's indexer at the current index, faulting whenever
        the index is at the end. */
    function Current<T>(memory: array<T>): (r: Result<T, Error>)
      reads this, memory
      requires Backed(reference, memory.Length)
      ensures r.Failure? <==> index >= reference.Length
      ensures r.Success? ==> r.value == memory[reference.Pointer + index]
    {
      Get(reference, memory, index)
    }

    /** `MoveNext`: one step of the cursor. */
    method MoveNext() returns (moved: bool)
      modifies this
      ensures Step(moved, index) == MoveNextStep(old(index), reference.Length)
      ensures old(Valid()) ==> Valid()
    {
      var i := index;
      if i >= reference.Length {
        return false;
      }
      i := i + 1;
      index := i;
      moved := true;
    }

    /** `Reset`: back to index 0. */
    method Reset()
      modifies this
      ensures index == 0 && Valid()
    {
      index := 0;
    }
  }

  /** `GetEnumerator`: a fresh enumerator at index 0. */
  method GetEnumerator(s: UnmanagedSpan) returns (e: UnmanagedSpanEnumerator)
    ensures fresh(e) && e.reference == s && e.index == 0 && e.Valid()
  {
    e := new UnmanagedSpanEnumerator(s);
  }

  // ---------------------------------------------------------------- what a foreach observes

  /** A `foreach` over the span as written: it calls `MoveNext` and reads
      `Current` until `MoveNext` answers false or `Current` throws. An empty
      span yields nothing; any other yields elements 1 .. Length - 1 and then
      faults, so element 0 is never produced. */
  method ForEach<T>(s: UnmanagedSpan, memory: array<T>) returns (yielded: seq<T>, fault: Option<Error>)
    requires Backed(s, memory.Length)
    ensures s.Length == 0 ==> yielded == [] && fault == None
    ensures s.Length > 0 ==> yielded == memory[s.Pointer + 1 .. s.Pointer + s.Length]
    ensures s.Length > 0 ==> |yielded| == s.Length - 1 && fault == Some(ArgumentOutOfRange("idx"))
  {
    var e := GetEnumerator(s);
    yielded, fault := [], None;
    var moved := e.MoveNext();
    while moved
      invariant e.reference == s && e.Valid()
      invariant moved <==> s.Length > 0
      invariant !moved ==> yielded == []
      invariant moved ==> e.index == |yielded| + 1
      invariant moved ==> yielded == memory[s.Pointer + 1 .. s.Pointer + e.index]
      invariant fault == None
      decreases s.Length - e.index
    {
      var current := e.Current(memory);
      if current.Failure? {
        fault := Some(current.error);
        break;
      }
      yielded := yielded + [current.value];
      moved := e.MoveNext();
    }
  }

  /** The accessor the enumerator evidently means: the element the last
      successful `MoveNext` stepped over, index - 1. Before the first
      `MoveNext` the unsigned `index - 1` wraps past the end and faults. */
  function CorrectedCurrent<T>(e: UnmanagedSpanEnumerator, memory: array<T>): (r: Result<T, Error>)
    reads e, memory
    requires e.Valid() && Backed(e.reference, memory.Length)
    ensures r.Failure? <==> e.index == 0
    ensures e.index > 0 ==> r == Success(memory[e.reference.Pointer + e.index - 1])
  {
    if e.index == 0 then Failure(ArgumentOutOfRange("idx"))
    else Get(e.reference, memory, e.index - 1)
  }

  /** A `foreach` with the corrected accessor yields every element 0 ..
      Length - 1 in address order and never faults. */
  method ForEachCorrected<T>(s: UnmanagedSpan, memory: array<T>) returns (yielded: seq<T>, fault: Option<Error>)
    requires Backed(s, memory.Length)
    ensures s.Length == 0 ==> yielded == []
    ensures s.Length > 0 ==> yielded == memory[s.Pointer .. s.Pointer + s.Length]
    ensures fault == None
  {
    var e := GetEnumerator(s);
    yielded, fault := [], None;
    var moved := e.MoveNext();
    while moved
      invariant e.reference == s && e.Valid()
      invariant moved ==> e.index == |yielded| + 1
      invariant !moved ==> e.index == |yielded| == s.Length
      invariant s.Length == 0 ==> yielded == []
      invariant s.Length > 0 ==> yielded == memory[s.Pointer .. s.Pointer + |yielded|]
      invariant fault == None
      decreases s.Length - e.index, moved
    {
      var current := CorrectedCurrent(e, memory);
      yielded := yielded + [current.value];
      moved := e.MoveNext();
    }
  }

  /** A span over the three-element buffer [10, 20, 30]: the enumerator as
      written yields 20 and 30 and then throws, where 10, 20, 30 is meant. */
  method ThreeElementBuffer() returns (yielded: seq<int>, fault: Option<Error>, intended: seq<int>)
    ensures yielded == [20, 30] && fault == Some(ArgumentOutOfRange("idx"))
    ensures intended == [10, 20, 30]
  {
    var memory := new int[] [0, 10, 20, 30];
    var s := UnmanagedSpan(1, 3);
    assert memory[2..4] == [20, 30] && memory[1..4] == [10, 20, 30];
    yielded, fault := ForEach(s, memory);
    var ignored;
    intended, ignored := ForEachCorrected(s, memory);
  }
}
