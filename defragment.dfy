/**
 * The allocator exercise: Defragment compacts the bytes the pointers refer to
 * into the front of the memory, in pointer order, makes every pointer refer to
 * its new cell and clears the rest.  A pointer is modelled as the index of the
 * byte it refers to.
 */
module Allocator {

  /** Every pointer refers to a byte of the memory, and there is a cell for each. */
  predicate ValidPointers(ptrs: seq<nat>, size: nat)
  {
    |ptrs| <= size && forall i :: 0 <= i < |ptrs| ==> ptrs[i] < size
  }

  /** Pointers that already refer to the first cells, in order. */
  function Identity(n: nat): (ptrs: seq<nat>)
    ensures |ptrs| == n && forall i :: 0 <= i < n ==> ptrs[i] == i
  {
    seq(n, i requires 0 <= i < n => i)
  }

  /**
   * The memory after the first k pointers have been handled: a pointer that
   * already refers to its own cell is skipped, otherwise the byte it refers
   * to, as the memory holds it at that moment, is copied into that cell.
   */
  function Moved(mem: seq<bv8>, ptrs: seq<nat>, k: nat): (r: seq<bv8>)
    requires ValidPointers(ptrs, |mem|) && k <= |ptrs|
    ensures |r| == |mem|
    ensures forall j :: k <= j < |mem| ==> r[j] == mem[j]
  {
    if k == 0 then mem
    else
      var m := Moved(mem, ptrs, k - 1);
      if ptrs[k - 1] == k - 1 then m else m[k - 1 := m[ptrs[k - 1]]]
  }

  /** The whole outcome: the moved bytes in the first cells and zero everywhere after them. */
  function Defragmented(mem: seq<bv8>, ptrs: seq<nat>): (r: seq<bv8>)
    requires ValidPointers(ptrs, |mem|)
    ensures |r| == |mem|
  {
    var m := Moved(mem, ptrs, |ptrs|);
    seq(|mem|, i requires 0 <= i < |mem| => if i < |ptrs| then m[i] else 0)
  }

  /**
   * Defragment: the memory becomes Defragmented of what it held, so every byte
   * past the last pointer is zero, and each pointer refers to its own cell.
   * Both lengths are those of the arrays, which never change.
   */
  method Defragment(memory: array<bv8>, pointers: array<nat>)
    requires ValidPointers(pointers[..], memory.Length)
    requires memory as object != pointers
    modifies memory, pointers
    ensures memory[..] == Defragmented(old(memory[..]), old(pointers[..]))
    ensures forall i :: pointers.Length <= i < memory.Length ==> memory[i] == 0
    ensures pointers[..] == Identity(pointers.Length)
  {
    ghost var mem, ptrs := memory[..], pointers[..];
    var i := 0;
    while i < pointers.Length
      invariant 0 <= i <= pointers.Length
      invariant memory[..] == Moved(mem, ptrs, i)
      invariant forall k :: 0 <= k < i ==> pointers[k] == k
      invariant forall k :: i <= k < pointers.Length ==> pointers[k] == ptrs[k]
    {
      ghost var before := memory[..];
      var source := pointers[i];
      if source != i {
        memory[i] := memory[source];
        assert memory[..] == before[i := before[source]];
        pointers[i] := i;
      }
      assert memory[..] == Moved(mem, ptrs, i + 1);
      i := i + 1;
    }
    assert pointers[..] == Identity(pointers.Length);
    ghost var moved := memory[..];
    var j := pointers.Length;
    while j < memory.Length
      modifies memory
      invariant pointers.Length <= j <= memory.Length
      invariant forall k :: 0 <= k < memory.Length ==> memory[k] == if pointers.Length <= k < j then 0 else moved[k]
    {
      memory[j] := 0;
      j := j + 1;
    }
    ghost var result := Defragmented(mem, ptrs);
    assert forall k :: 0 <= k < memory.Length ==> memory[k] == result[k];
    assert memory[..] == result;
  }

  /**
   * When no pointer refers to a cell before its own, each handled cell holds
   * the byte its pointer referred to originally, and the others are untouched.
   */
  lemma {:induction false} MovedInOrder(mem: seq<bv8>, ptrs: seq<nat>, k: nat)
    requires ValidPointers(ptrs, |mem|) && k <= |ptrs|
    requires forall i :: 0 <= i < |ptrs| ==> ptrs[i] >= i
    ensures forall j :: 0 <= j < k ==> Moved(mem, ptrs, k)[j] == mem[ptrs[j]]
  {
    if k > 0 {
      MovedInOrder(mem, ptrs, k - 1);
    }
  }

  /** Strictly increasing pointers never refer to a cell before their own. */
  lemma {:induction false} IncreasingNotBelow(ptrs: seq<nat>)
    requires forall i, j :: 0 <= i < j < |ptrs| ==> ptrs[i] < ptrs[j]
    ensures forall i :: 0 <= i < |ptrs| ==> ptrs[i] >= i
  {
    if ptrs != [] {
      var init := ptrs[..|ptrs| - 1];
      IncreasingNotBelow(init);
      assert forall i :: 0 <= i < |init| ==> init[i] == ptrs[i];
      if |ptrs| > 1 {
        assert ptrs[|ptrs| - 2] < ptrs[|ptrs| - 1];
      }
    }
  }

  /**
   * With strictly increasing pointers, as in the tests, the i-th cell ends
   * holding the byte the i-th pointer referred to, and the rest is zero.
   */
  lemma DefragmentedInOrder(mem: seq<bv8>, ptrs: seq<nat>)
    requires ValidPointers(ptrs, |mem|)
    requires forall i, j :: 0 <= i < j < |ptrs| ==> ptrs[i] < ptrs[j]
    ensures forall i :: 0 <= i < |ptrs| ==> Defragmented(mem, ptrs)[i] == mem[ptrs[i]]
    ensures forall i :: |ptrs| <= i < |mem| ==> Defragmented(mem, ptrs)[i] == 0
  {
    IncreasingNotBelow(ptrs);
    MovedInOrder(mem, ptrs, |ptrs|);
  }

  /** Pointers that already refer to their own cells move nothing. */
  lemma {:induction false} MovedIdle(mem: seq<bv8>, n: nat, k: nat)
    requires n <= |mem| && k <= n
    ensures Moved(mem, Identity(n), k) == mem
  {
    if k > 0 {
      MovedIdle(mem, n, k - 1);
    }
  }

  /** Memory that is already compacted, with a zero tail, is left exactly as it is. */
  lemma DefragmentedIdle(mem: seq<bv8>, n: nat)
    requires n <= |mem|
    requires forall i :: n <= i < |mem| ==> mem[i] == 0
    ensures Defragmented(mem, Identity(n)) == mem
  {
    MovedIdle(mem, n, n);
  }

  /** Defragmenting a second time, through the updated pointers, changes nothing. */
  lemma DefragmentIdempotent(mem: seq<bv8>, ptrs: seq<nat>)
    requires ValidPointers(ptrs, |mem|)
    ensures Defragmented(Defragmented(mem, ptrs), Identity(|ptrs|)) == Defragmented(mem, ptrs)
  {
    DefragmentedIdle(Defragmented(mem, ptrs), |ptrs|);
  }

  /**
   * A pointer that refers to a cell already overwritten reads the new byte:
   * with the two pointers swapped, the first byte is lost.
   */
  lemma SwappedPointers(a: bv8, b: bv8)
    ensures Defragmented([a, b], [1, 0]) == [b, b]
  {
    var m1 := Moved([a, b], [1, 0], 1);
    assert m1 == [b, b];
  }

  /** TestDefragmentation: the four scattered bytes end up in the first four cells. */
  method ScenarioDefragmentation() returns (memory: array<bv8>, pointers: array<nat>)
    ensures memory[..] == seq(16, i requires 0 <= i < 16 => if i < 4 then 0xFF else 0)
    ensures pointers[..] == [0, 1, 2, 3]
  {
    memory := new bv8[16](i => if i % 5 == 0 then 0xFF else 0);
    pointers := new nat[4](i => 5 * i);
    ghost var mem, ptrs := memory[..], pointers[..];
    DefragmentedInOrder(mem, ptrs);
    Defragment(memory, pointers);
    assert forall i :: 0 <= i < 4 ==> mem[ptrs[i]] == 0xFF;
  }

  /** TestDefragmentationTwice: memory that is already compacted stays as it is. */
  method ScenarioDefragmentationTwice() returns (memory: array<bv8>, pointers: array<nat>)
    ensures memory[..] == seq(16, i requires 0 <= i < 16 => if i < 4 then 0xFF else 0)
    ensures pointers[..] == [0, 1, 2, 3]
  {
    memory := new bv8[16](i => if i < 4 then 0xFF else 0);
    pointers := new nat[4](i => i);
    assert pointers[..] == Identity(4);
    DefragmentedIdle(memory[..], 4);
    Defragment(memory, pointers);
  }
}
