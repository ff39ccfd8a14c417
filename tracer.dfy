/**
 * The garbage collector exercise: Trace walks every word of every stack as a
 * pointer, following each one through memory until it reaches zero or an
 * address already visited, and reports every address visited.  Memory is a
 * map from address to the word stored there; an address is a pointer when
 * it is zero or mapped, and memory is closed when every stored word is a
 * pointer in that sense.
 */
module Tracer {

  /** Every word stored in memory is zero or another mapped address. */
  predicate Closed(mem: map<nat, nat>)
  {
    forall a :: a in mem ==> mem[a] == 0 || mem[a] in mem
  }

  /** A word the walker may dereference: zero, or a mapped address. */
  predicate Pointer(mem: map<nat, nat>, p: nat)
  {
    p == 0 || p in mem
  }

  /** Every word of the sequence is a pointer. */
  predicate Pointers(mem: map<nat, nat>, ptrs: seq<nat>)
  {
    forall i :: 0 <= i < |ptrs| ==> Pointer(mem, ptrs[i])
  }

  /**
   * The visited set after Add(p) starting from seen: nothing for zero or a
   * visited address, otherwise p joins and the walk goes on at the word it
   * holds.  The set only grows, and p is in it unless p is zero.
   */
  function Walked(mem: map<nat, nat>, seen: set<nat>, p: nat): (r: set<nat>)
    requires Closed(mem) && Pointer(mem, p) && seen <= mem.Keys
    ensures seen <= r <= mem.Keys
    ensures p != 0 ==> p in r
    ensures 0 in r ==> 0 in seen
    decreases |mem.Keys - seen|
  {
    if p == 0 || p in seen then seen
    else
      assert mem.Keys - (seen + {p}) == (mem.Keys - seen) - {p};
      Walked(mem, seen + {p}, mem[p])
  }

  /** The visited set after Add of each pointer in turn. */
  function WalkedAll(mem: map<nat, nat>, seen: set<nat>, ptrs: seq<nat>): (r: set<nat>)
    requires Closed(mem) && Pointers(mem, ptrs) && seen <= mem.Keys
    ensures seen <= r <= mem.Keys
    decreases |ptrs|
  {
    if ptrs == [] then seen
    else Walked(mem, WalkedAll(mem, seen, ptrs[..|ptrs| - 1]), ptrs[|ptrs| - 1])
  }

  /** Every word of every stack is a pointer. */
  predicate StackPointers(mem: map<nat, nat>, stacks: seq<seq<nat>>)
  {
    forall s, k :: 0 <= s < |stacks| && 0 <= k < |stacks[s]| ==> Pointer(mem, stacks[s][k])
  }

  /** The words of all the stacks, stack after stack. */
  function Flatten(stacks: seq<seq<nat>>): (ptrs: seq<nat>)
    decreases |stacks|
  {
    if stacks == [] then [] else Flatten(stacks[..|stacks| - 1]) + stacks[|stacks| - 1]
  }

  /** The word reached from p after n dereferences; zero stays zero. */
  function Follow(mem: map<nat, nat>, p: nat, n: nat): (q: nat)
    requires Closed(mem) && Pointer(mem, p)
    ensures Pointer(mem, q)
    decreases n
  {
    if n == 0 || p == 0 then p else Follow(mem, mem[p], n - 1)
  }

  /** q is a nonzero address on the dereference chain starting at p. */
  ghost predicate OnChain(mem: map<nat, nat>, p: nat, q: nat)
    requires Closed(mem) && Pointer(mem, p)
  {
    q != 0 && exists n: nat :: Follow(mem, p, n) == q
  }

  /** Every mapped address of the set holds zero or another address of the set. */
  predicate ClosedSet(mem: map<nat, nat>, s: set<nat>)
  {
    forall a :: a in s ==> a in mem && (mem[a] == 0 || mem[a] in s)
  }

  /** The walker: the set of addresses visited so far. */
  class Walker {
    var visited: set<nat>

    constructor()
      ensures visited == {}
    {
      visited := {};
    }

    /** Add: visits p and the chain behind it, stopping at zero or at a visited address. */
    method Add(ptr: nat, mem: map<nat, nat>)
      requires Closed(mem) && Pointer(mem, ptr) && visited <= mem.Keys
      modifies this
      ensures visited == Walked(mem, old(visited), ptr)
      ensures ptr == 0 || ptr in old(visited) ==> visited == old(visited)
      ensures old(visited) <= visited && (ptr != 0 ==> ptr in visited)
      decreases |mem.Keys - visited|
    {
      if ptr == 0 {
        return;
      }
      if ptr in visited {
        return;
      }
      assert mem.Keys - (visited + {ptr}) == (mem.Keys - visited) - {ptr};
      visited := visited + {ptr};
      var next := mem[ptr];
      Add(next, mem);
    }

    /** Slice: every visited address exactly once, in an order left unspecified. */
    method Slice() returns (res: seq<nat>)
      ensures forall a :: a in res <==> a in visited
      ensures forall i, j :: 0 <= i < j < |res| ==> res[i] != res[j]
    {
      res := [];
      var rest := visited;
      while rest != {}
        invariant rest <= visited
        invariant forall a :: a in res <==> a in visited && a !in rest
        invariant forall i, j :: 0 <= i < j < |res| ==> res[i] != res[j]
        decreases |rest|
      {
        var a :| a in rest;
        res := res + [a];
        rest := rest - {a};
      }
    }
  }

  /**
   * Trace: every address reached from a word of a stack, each once; the set
   * is the union over all stack words of their nonzero dereference chains.
   */
  method Trace(stacks: seq<seq<nat>>, mem: map<nat, nat>) returns (res: seq<nat>)
    requires Closed(mem) && StackPointers(mem, stacks)
    ensures Pointers(mem, Flatten(stacks))
    ensures forall a :: a in res <==> a in WalkedAll(mem, {}, Flatten(stacks))
    ensures forall a :: a in res <==>
      exists s, k :: 0 <= s < |stacks| && 0 <= k < |stacks[s]| && OnChain(mem, stacks[s][k], a)
    ensures forall i, j :: 0 <= i < j < |res| ==> res[i] != res[j]
  {
    var walker := new Walker();
    var i := 0;
    while i < |stacks|
      invariant 0 <= i <= |stacks|
      invariant Pointers(mem, Flatten(stacks[..i]))
      invariant walker.visited == WalkedAll(mem, {}, Flatten(stacks[..i]))
    {
      FlattenPrefix(stacks, i);
      assert Pointers(mem, Flatten(stacks[..i + 1]));
      var stack := stacks[i];
      var j := 0;
      assert Flatten(stacks[..i]) + stack[..j] == Flatten(stacks[..i]);
      while j < |stack|
        invariant 0 <= j <= |stack|
        invariant Pointers(mem, Flatten(stacks[..i]) + stack[..j])
        invariant walker.visited == WalkedAll(mem, {}, Flatten(stacks[..i]) + stack[..j])
      {
        var done := Flatten(stacks[..i]) + stack[..j];
        assert Pointers(mem, done + [stack[j]]);
        assert (done + [stack[j]])[..|done|] == done;
        assert Flatten(stacks[..i]) + stack[..j + 1] == done + [stack[j]];
        walker.Add(stack[j], mem);
        j := j + 1;
      }
      assert stack[..j] == stack;
      i := i + 1;
    }
    assert stacks[..i] == stacks;
    res := walker.Slice();
    TracedExactly(mem, Flatten(stacks));
    var ptrs := Flatten(stacks);
    forall s, k | 0 <= s < |stacks| && 0 <= k < |stacks[s]|
      ensures exists i :: 0 <= i < |ptrs| && ptrs[i] == stacks[s][k]
    {
      var i := FlattenIndex(stacks, s, k);
    }
    forall i | 0 <= i < |ptrs|
      ensures exists s, k :: 0 <= s < |stacks| && 0 <= k < |stacks[s]| && ptrs[i] == stacks[s][k]
    {
      var s, k := FlattenSlot(stacks, i);
    }
  }

  /** The first i + 1 stacks flatten to the first i stacks followed by stack i, all pointers. */
  lemma FlattenPrefix(stacks: seq<seq<nat>>, i: nat)
    requires i < |stacks|
    ensures Flatten(stacks[..i + 1]) == Flatten(stacks[..i]) + stacks[i]
  {
    assert stacks[..i + 1][..i] == stacks[..i];
  }

  /** The place in the flattened sequence of word k of stack s. */
  lemma {:induction false} FlattenIndex(stacks: seq<seq<nat>>, s: nat, k: nat) returns (i: nat)
    requires s < |stacks| && k < |stacks[s]|
    ensures i < |Flatten(stacks)| && Flatten(stacks)[i] == stacks[s][k]
    decreases |stacks|
  {
    var init := stacks[..|stacks| - 1];
    var prefix := Flatten(init);
    assert Flatten(stacks) == prefix + stacks[|stacks| - 1];
    if s < |init| {
      assert init[s] == stacks[s];
      i := FlattenIndex(init, s, k);
    } else {
      i := |prefix| + k;
    }
  }

  /** The stack and the word within it that a place of the flattened sequence holds. */
  lemma {:induction false} FlattenSlot(stacks: seq<seq<nat>>, i: nat) returns (s: nat, k: nat)
    requires i < |Flatten(stacks)|
    ensures s < |stacks| && k < |stacks[s]| && Flatten(stacks)[i] == stacks[s][k]
    decreases |stacks|
  {
    var init := stacks[..|stacks| - 1];
    var prefix := Flatten(init);
    assert Flatten(stacks) == prefix + stacks[|stacks| - 1];
    if i < |prefix| {
      s, k := FlattenSlot(init, i);
      assert init[s] == stacks[s];
    } else {
      s, k := |stacks| - 1, i - |prefix|;
    }
  }

  /** Walking from p visits nothing beyond what was seen and the chain starting at p. */
  lemma {:induction false} WalkedWithin(mem: map<nat, nat>, seen: set<nat>, p: nat)
    requires Closed(mem) && Pointer(mem, p) && seen <= mem.Keys
    ensures forall a :: a in Walked(mem, seen, p) ==> a in seen || OnChain(mem, p, a)
    decreases |mem.Keys - seen|
  {
    if p != 0 && p !in seen {
      assert mem.Keys - (seen + {p}) == (mem.Keys - seen) - {p};
      var next := mem[p];
      WalkedWithin(mem, seen + {p}, next);
      forall a | a in Walked(mem, seen, p) && a !in seen
        ensures OnChain(mem, p, a)
      {
        if a == p {
          assert Follow(mem, p, 0) == p;
        } else {
          assert OnChain(mem, next, a);
          var n: nat :| Follow(mem, next, n) == a;
          assert Follow(mem, p, n + 1) == a;
        }
      }
    }
  }

  /**
   * If every address seen holds zero, a seen address or p, the walk from p
   * ends with a set in which every address holds zero or another of its
   * addresses.
   */
  lemma {:induction false} WalkedClosed(mem: map<nat, nat>, seen: set<nat>, p: nat)
    requires Closed(mem) && Pointer(mem, p) && seen <= mem.Keys
    requires forall a :: a in seen ==> mem[a] == 0 || mem[a] in seen || mem[a] == p
    ensures ClosedSet(mem, Walked(mem, seen, p))
    decreases |mem.Keys - seen|
  {
    if p != 0 && p !in seen {
      assert mem.Keys - (seen + {p}) == (mem.Keys - seen) - {p};
      WalkedClosed(mem, seen + {p}, mem[p]);
    }
  }

  /** A chain that starts inside a closed set never leaves it, except to reach zero. */
  lemma {:induction false} FollowStays(mem: map<nat, nat>, s: set<nat>, p: nat, n: nat)
    requires Closed(mem) && ClosedSet(mem, s) && (p == 0 || p in s)
    ensures Follow(mem, p, n) == 0 || Follow(mem, p, n) in s
    decreases n
  {
    if n > 0 && p != 0 {
      FollowStays(mem, s, mem[p], n - 1);
    }
  }

  /**
   * From a closed visited set, Add(p) visits exactly the visited addresses
   * and the nonzero addresses of the chain starting at p.
   */
  lemma WalkedExactly(mem: map<nat, nat>, seen: set<nat>, p: nat)
    requires Closed(mem) && Pointer(mem, p) && seen <= mem.Keys && ClosedSet(mem, seen)
    ensures ClosedSet(mem, Walked(mem, seen, p))
    ensures forall a :: a in Walked(mem, seen, p) <==> a in seen || OnChain(mem, p, a)
  {
    var r := Walked(mem, seen, p);
    WalkedWithin(mem, seen, p);
    WalkedClosed(mem, seen, p);
    forall a | OnChain(mem, p, a)
      ensures a in r
    {
      var n: nat :| Follow(mem, p, n) == a;
      FollowStays(mem, r, p, n);
    }
  }

  /** Adding pointers in turn from the empty set leaves a closed set. */
  lemma {:induction false} TracedClosed(mem: map<nat, nat>, ptrs: seq<nat>)
    requires Closed(mem) && Pointers(mem, ptrs)
    ensures ClosedSet(mem, WalkedAll(mem, {}, ptrs))
    decreases |ptrs|
  {
    if ptrs != [] {
      var init := ptrs[..|ptrs| - 1];
      assert Pointers(mem, init);
      TracedClosed(mem, init);
      WalkedClosed(mem, WalkedAll(mem, {}, init), ptrs[|ptrs| - 1]);
    }
  }

  /** Every address visited lies on the chain of one of the pointers. */
  lemma {:induction false} TracedWithin(mem: map<nat, nat>, ptrs: seq<nat>)
    requires Closed(mem) && Pointers(mem, ptrs)
    ensures forall a :: a in WalkedAll(mem, {}, ptrs) ==>
      exists k :: 0 <= k < |ptrs| && OnChain(mem, ptrs[k], a)
    decreases |ptrs|
  {
    if ptrs != [] {
      var init := ptrs[..|ptrs| - 1];
      assert Pointers(mem, init);
      TracedWithin(mem, init);
      var before := WalkedAll(mem, {}, init);
      WalkedWithin(mem, before, ptrs[|ptrs| - 1]);
      forall a | a in WalkedAll(mem, {}, ptrs)
        ensures exists k :: 0 <= k < |ptrs| && OnChain(mem, ptrs[k], a)
      {
        if a in before {
          var k :| 0 <= k < |init| && OnChain(mem, init[k], a);
          assert ptrs[k] == init[k];
        } else {
          assert OnChain(mem, ptrs[|ptrs| - 1], a);
        }
      }
    }
  }

  /** Every nonzero address on the chain of one of the pointers is visited. */
  lemma {:induction false} TracedCovers(mem: map<nat, nat>, ptrs: seq<nat>)
    requires Closed(mem) && Pointers(mem, ptrs)
    ensures forall a, k :: 0 <= k < |ptrs| && OnChain(mem, ptrs[k], a) ==> a in WalkedAll(mem, {}, ptrs)
    decreases |ptrs|
  {
    if ptrs != [] {
      var init := ptrs[..|ptrs| - 1];
      assert Pointers(mem, init);
      TracedCovers(mem, init);
      TracedClosed(mem, init);
      WalkedExactly(mem, WalkedAll(mem, {}, init), ptrs[|ptrs| - 1]);
      forall a, k | 0 <= k < |ptrs| && OnChain(mem, ptrs[k], a)
        ensures a in WalkedAll(mem, {}, ptrs)
      {
        if k < |init| {
          assert init[k] == ptrs[k];
        }
      }
    }
  }

  /**
   * Adding every pointer in turn from the empty set visits exactly the
   * nonzero addresses on the chains of those pointers.
   */
  lemma TracedExactly(mem: map<nat, nat>, ptrs: seq<nat>)
    requires Closed(mem) && Pointers(mem, ptrs)
    ensures forall a :: a in WalkedAll(mem, {}, ptrs) <==>
      exists k :: 0 <= k < |ptrs| && OnChain(mem, ptrs[k], a)
  {
    TracedWithin(mem, ptrs);
    TracedCovers(mem, ptrs);
  }

  /**
   * A closed set holding every nonzero word of the stacks holds every
   * address on their chains.
   */
  lemma ChainsWithin(mem: map<nat, nat>, stacks: seq<seq<nat>>, e: set<nat>)
    requires Closed(mem) && StackPointers(mem, stacks)
    requires ClosedSet(mem, e)
    requires forall s, k :: 0 <= s < |stacks| && 0 <= k < |stacks[s]| ==> stacks[s][k] == 0 || stacks[s][k] in e
    ensures forall a, s, k :: 0 <= s < |stacks| && 0 <= k < |stacks[s]| && OnChain(mem, stacks[s][k], a) ==> a in e
  {
    forall a, s, k | 0 <= s < |stacks| && 0 <= k < |stacks[s]| && OnChain(mem, stacks[s][k], a)
      ensures a in e
    {
      var n: nat :| Follow(mem, stacks[s][k], n) == a;
      FollowStays(mem, e, stacks[s][k], n);
    }
  }

  /** The addresses TestTrace expects. */
  function TestExpected(): set<nat>
  {
    {20, 10, 21, 11, 12, 23, 22, 13}
  }

  /**
   * In the memory of TestTrace (five zero ints at 10 to 14, heapPointer1 at
   * 20 and heapPointer2 at 21 referring to the second and third ints,
   * heapPointer3 at 22 holding nil and heapPointer4 at 23 referring to it),
   * the chains of the test's stack words are exactly the expected addresses.
   */
  lemma TestChains(mem: map<nat, nat>, stacks: seq<seq<nat>>)
    requires mem == map[10 := 0, 11 := 0, 12 := 0, 13 := 0, 14 := 0, 20 := 11, 21 := 12, 22 := 0, 23 := 22]
    requires stacks == [ [20, 0, 0, 0, 0, 0, 0, 0, 0, 0, 0, 10, 0, 0, 0, 0],
                         [21, 0, 0, 0, 0, 0, 0, 11, 0, 0, 0, 12, 23, 0, 0, 0],
                         [0, 0, 0, 0, 0, 0, 0, 0, 0, 0, 0, 0, 0, 0, 0, 13] ]
    ensures Closed(mem) && StackPointers(mem, stacks)
    ensures forall a :: a in TestExpected() <==>
      exists s, k :: 0 <= s < |stacks| && 0 <= k < |stacks[s]| && OnChain(mem, stacks[s][k], a)
  {
    var e := TestExpected();
    assert ClosedSet(mem, e);
    ChainsWithin(mem, stacks, e);
    assert Follow(mem, 20, 1) == 11 && Follow(mem, 23, 1) == 22;
    assert Follow(mem, 20, 0) == 20 && Follow(mem, 10, 0) == 10 && Follow(mem, 21, 1) == 12;
    assert Follow(mem, 21, 0) == 21 && Follow(mem, 23, 0) == 23 && Follow(mem, 13, 0) == 13;
    assert stacks[0][0] == 20 && stacks[0][11] == 10 && stacks[1][0] == 21;
    assert stacks[1][12] == 23 && stacks[2][15] == 13;
  }

  /** TestTrace: the eight addresses reachable from the stacks, each once, and not the unused int at 14. */
  method ScenarioTrace() returns (res: seq<nat>)
    ensures forall a :: a in res <==> a in TestExpected()
    ensures forall i, j :: 0 <= i < j < |res| ==> res[i] != res[j]
  {
    var mem := map[10 := 0, 11 := 0, 12 := 0, 13 := 0, 14 := 0, 20 := 11, 21 := 12, 22 := 0, 23 := 22];
    var stacks := [ [20, 0, 0, 0, 0, 0, 0, 0, 0, 0, 0, 10, 0, 0, 0, 0],
                    [21, 0, 0, 0, 0, 0, 0, 11, 0, 0, 0, 12, 23, 0, 0, 0],
                    [0, 0, 0, 0, 0, 0, 0, 0, 0, 0, 0, 0, 0, 0, 0, 13] ];
    TestChains(mem, stacks);
    res := Trace(stacks, mem);
  }
}
