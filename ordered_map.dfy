/**
 * The maps exercise: an ordered map kept as an unbalanced binary search tree,
 * with a size counter beside the root.  Keys are integers (the exercise is
 * generic over any ordered key type).
 */
module OrderedMaps {

  /** A node pointer: Nil is Go's nil, a Node owns its two subtrees. */
  datatype Tree<V> = Nil | Node(left: Tree<V>, key: int, value: V, right: Tree<V>)

  /** The keys stored in a tree. */
  ghost function Keys<V>(t: Tree<V>): set<int>
  {
    match t
    case Nil => {}
    case Node(l, k, _, r) => Keys(l) + {k} + Keys(r)
  }

  /** Binary-search-tree order: every key on the left is smaller, every key on the right larger. */
  ghost predicate IsBst<V>(t: Tree<V>)
  {
    match t
    case Nil => true
    case Node(l, k, _, r) =>
      && IsBst(l) && IsBst(r)
      && (forall x :: x in Keys(l) ==> x < k)
      && (forall x :: x in Keys(r) ==> k < x)
  }

  /** The key-to-value bindings a tree stands for. */
  ghost function Elements<V>(t: Tree<V>): map<int, V>
  {
    match t
    case Nil => map[]
    case Node(l, k, v, r) => (Elements(l) + Elements(r))[k := v]
  }

  lemma {:induction false} ElementsKeys<V>(t: Tree<V>)
    ensures Elements(t).Keys == Keys(t)
  {
    match t
    case Nil =>
    case Node(l, _, _, r) =>
      ElementsKeys(l);
      ElementsKeys(r);
  }

  /** In a search tree the bindings of the two subtrees and of the node itself are disjoint. */
  lemma ElementsOfNode<V>(t: Tree<V>)
    requires t.Node? && IsBst(t)
    ensures forall x :: x in Elements(t.left) ==> x < t.key && x !in Elements(t.right)
    ensures forall x :: x in Elements(t.right) ==> t.key < x
  {
    ElementsKeys(t.left);
    ElementsKeys(t.right);
  }

  /** Keys in strictly ascending order, so none occurs twice. */
  ghost predicate Ascending(keys: seq<int>)
  {
    forall i, j :: 0 <= i < j < |keys| ==> keys[i] < keys[j]
  }

  /** The keys of a traversal, as the exercise's callback collects them. */
  function KeysOf<V>(visits: seq<(int, V)>): seq<int>
  {
    seq(|visits|, i requires 0 <= i < |visits| => visits[i].0)
  }

  /**
   * insert on a non-nil node: overwrites the value of an existing key and
   * reports 0, or hangs a new leaf where the search falls off and reports 1.
   */
  function InsertInto<V>(cur: Tree<V>, key: int, value: V): (r: (Tree<V>, int))
    requires cur.Node?
    ensures r.0.Node? && Keys(r.0) == Keys(cur) + {key}
  {
    if key == cur.key then
      (cur.(value := value), 0)
    else if key < cur.key then
      if cur.left.Nil? then
        (cur.(left := Node(Nil, key, value, Nil)), 1)
      else
        var (l, count) := InsertInto(cur.left, key, value);
        (cur.(left := l), count)
    else
      if cur.right.Nil? then
        (cur.(right := Node(Nil, key, value, Nil)), 1)
      else
        var (r, count) := InsertInto(cur.right, key, value);
        (cur.(right := r), count)
  }

  /** Adding a key grows a key set by one exactly when the key is new. */
  lemma CardAdd(s: set<int>, x: int)
    ensures |s + {x}| == |s| + if x in s then 0 else 1
  {
    if x in s {
      assert s + {x} == s;
    }
  }

  /** Removing a key shrinks a key set by one exactly when the key was there. */
  lemma CardRemove(s: set<int>, x: int)
    ensures |s - {x}| == |s| - if x in s then 1 else 0
  {
    if x !in s {
      assert s - {x} == s;
    }
  }

  /** Two disjoint key sets and a fresh key between them add up. */
  lemma CardDisjoint(a: set<int>, k: int, b: set<int>)
    requires forall x :: x in a ==> x < k
    requires forall x :: x in b ==> k < x
    ensures |a + {k} + b| == |a| + 1 + |b|
  {
    assert k !in a;
    assert forall x :: x in b ==> x !in a + {k};
    assert (a + {k}) !! b;
  }

  /** Rebinding a key that only the left part may hold commutes with the node's own binding. */
  lemma UpdateUnderNode<V>(a: map<int, V>, b: map<int, V>, k: int, v: V, key: int, value: V)
    requires key != k
    ensures key !in b ==> (a[key := value] + b)[k := v] == (a + b)[k := v][key := value]
    ensures (a + b[key := value])[k := v] == (a + b)[k := v][key := value]
  {
  }

  /** insert keeps search order, binds key to value and counts 1 exactly for a new key. */
  lemma {:induction false} InsertIntoCorrect<V>(cur: Tree<V>, key: int, value: V)
    requires cur.Node? && IsBst(cur)
    ensures var (t, count) := InsertInto(cur, key, value);
            && IsBst(t)
            && Elements(t) == Elements(cur)[key := value]
            && count == if key in Keys(cur) then 0 else 1
  {
    ElementsOfNode(cur);
    if key < cur.key {
      if !cur.left.Nil? {
        InsertIntoCorrect(cur.left, key, value);
      }
      ElementsKeys(cur.right);
      UpdateUnderNode(Elements(cur.left), Elements(cur.right), cur.key, cur.value, key, value);
    } else if cur.key < key {
      if !cur.right.Nil? {
        InsertIntoCorrect(cur.right, key, value);
      }
      UpdateUnderNode(Elements(cur.left), Elements(cur.right), cur.key, cur.value, key, value);
    }
  }

  /** findMin: the leftmost node. */
  function FindMin<V>(cur: Tree<V>): (m: Tree<V>)
    requires cur.Node?
    ensures m.Node? && m.left.Nil? && m.key in Keys(cur)
  {
    if cur.left.Nil? then cur else FindMin(cur.left)
  }

  /** In a search tree the leftmost node holds the smallest key and its own binding. */
  lemma {:induction false} FindMinCorrect<V>(cur: Tree<V>)
    requires cur.Node? && IsBst(cur)
    ensures var m := FindMin(cur);
            && (forall x :: x in Keys(cur) ==> m.key <= x)
            && m.key in Elements(cur) && Elements(cur)[m.key] == m.value
  {
    ElementsOfNode(cur);
    ElementsKeys(cur);
    if !cur.left.Nil? {
      FindMinCorrect(cur.left);
      ElementsKeys(cur.left);
    }
  }

  /** find: the node holding key, or Nil when the search falls off the tree. */
  function Find<V>(cur: Tree<V>, key: int): (n: Tree<V>)
    ensures n.Node? ==> n.key == key && key in Keys(cur)
  {
    if cur.Nil? || key == cur.key then
      cur
    else if key < cur.key then
      Find(cur.left, key)
    else
      Find(cur.right, key)
  }

  /** In a search tree find succeeds exactly for the bound keys, and returns the bound value. */
  lemma {:induction false} FindCorrect<V>(cur: Tree<V>, key: int)
    requires IsBst(cur)
    ensures Find(cur, key).Node? <==> key in Elements(cur)
    ensures Find(cur, key).Node? ==> Elements(cur)[key] == Find(cur, key).value
  {
    ElementsKeys(cur);
    if cur.Node? && key != cur.key {
      ElementsOfNode(cur);
      if key < cur.key {
        FindCorrect(cur.left, key);
        ElementsKeys(cur.left);
      } else {
        FindCorrect(cur.right, key);
        ElementsKeys(cur.right);
      }
    }
  }

  /**
   * erase: removes key and reports how many nodes went (0 or 1).  A node with
   * two children takes over the smallest binding of its right subtree, which
   * is then erased from that subtree.
   */
  function EraseFrom<V>(cur: Tree<V>, key: int): (r: (Tree<V>, int))
    ensures Keys(r.0) <= Keys(cur)
  {
    match cur
    case Nil => (Nil, 0)
    case Node(l, k, v, right) =>
      if key == k then
        if right.Nil? && l.Nil? then (Nil, 1)
        else if right.Nil? then (l, 1)
        else if l.Nil? then (right, 1)
        else
          var mv := FindMin(right);
          var (right', count) := EraseFrom(right, mv.key);
          (Node(l, mv.key, mv.value, right'), count)
      else if key < k then
        var (l', count) := EraseFrom(l, key);
        (Node(l', k, v, right), count)
      else
        var (right', count) := EraseFrom(right, key);
        (Node(l, k, v, right'), count)
  }

  /** Dropping a key that only one side of a node may hold commutes with the node's own binding. */
  lemma RemoveUnderNode<V>(a: map<int, V>, b: map<int, V>, k: int, v: V, key: int)
    requires key != k
    ensures key !in b ==> ((a - {key}) + b)[k := v] == (a + b)[k := v] - {key}
    ensures key !in a ==> (a + (b - {key}))[k := v] == (a + b)[k := v] - {key}
  {
  }

  /** Dropping a node's own key leaves the union of its two disjoint sides. */
  lemma RemoveNode<V>(a: map<int, V>, b: map<int, V>, k: int, v: V)
    requires k !in a && k !in b
    ensures (a + b)[k := v] - {k} == a + b
  {
  }

  /** A node that takes over the smallest binding m of its right side loses its own binding and nothing else. */
  lemma ReplaceByMin<V>(a: map<int, V>, b: map<int, V>, k: int, v: V, m: int)
    requires m in b && m !in a && k !in a && k !in b
    ensures (a + (b - {m}))[m := b[m]] == (a + b)[k := v] - {k}
  {
  }

  /** The smallest key m of the right side, once erased there, can stand in for the node's own key. */
  lemma ReplaceByMinBst<V>(cur: Tree<V>, m: int, mv: V, right': Tree<V>)
    requires cur.Node? && IsBst(cur) && m in Keys(cur.right)
    requires forall x :: x in Keys(cur.right) ==> m <= x
    requires IsBst(right') && Keys(right') == Keys(cur.right) - {m}
    ensures IsBst(Node(cur.left, m, mv, right'))
    ensures Keys(Node(cur.left, m, mv, right')) == Keys(cur) - {cur.key}
  {
  }

  /** erase keeps search order, drops exactly the binding of key, and counts 1 exactly when it was there. */
  lemma {:induction false} EraseFromCorrect<V>(cur: Tree<V>, key: int)
    requires IsBst(cur)
    ensures var (t, count) := EraseFrom(cur, key);
            && IsBst(t) && Keys(t) == Keys(cur) - {key}
            && Elements(t) == Elements(cur) - {key}
            && count == if key in Keys(cur) then 1 else 0
  {
    match cur
    case Nil =>
    case Node(l, k, v, right) =>
      ElementsOfNode(cur);
      ElementsKeys(l);
      ElementsKeys(right);
      if key == k {
        RemoveNode(Elements(l), Elements(right), k, v);
        if !right.Nil? && !l.Nil? {
          var mv := FindMin(right);
          FindMinCorrect(right);
          EraseFromCorrect(right, mv.key);
          ReplaceByMinBst(cur, mv.key, mv.value, EraseFrom(right, mv.key).0);
          ReplaceByMin(Elements(l), Elements(right), k, v, mv.key);
        } else if right.Nil? {
          assert Elements(l) + Elements(right) == Elements(l);
        } else {
          assert Elements(l) + Elements(right) == Elements(right);
        }
      } else if key < k {
        EraseFromCorrect(l, key);
        RemoveUnderNode(Elements(l), Elements(right), k, v, key);
      } else {
        EraseFromCorrect(right, key);
        RemoveUnderNode(Elements(l), Elements(right), k, v, key);
      }
  }

  /** each: the (key, value) pairs handed to the callback, in the order it is called. */
  function Each<V>(t: Tree<V>): (visits: seq<(int, V)>)
    ensures forall i :: 0 <= i < |visits| ==> visits[i].0 in Keys(t)
  {
    match t
    case Nil => []
    case Node(l, k, v, r) => Each(l) + [(k, v)] + Each(r)
  }

  lemma KeysOfAppend<V>(a: seq<(int, V)>, b: seq<(int, V)>)
    ensures KeysOf(a + b) == KeysOf(a) + KeysOf(b)
  {
  }

  /** Two ascending runs separated by a pivot ascend as a whole. */
  lemma AscendingAround(a: seq<int>, k: int, b: seq<int>)
    requires Ascending(a) && Ascending(b)
    requires forall x :: x in a ==> x < k
    requires forall x :: x in b ==> k < x
    ensures Ascending(a + [k] + b)
  {
    var s := a + [k] + b;
    forall i, j | 0 <= i < j < |s|
      ensures s[i] < s[j]
    {
      if j < |a| {
      } else if i < |a| {
        assert s[i] in a;
        if j > |a| {
          assert s[j] == b[j - |a| - 1] && s[j] in b;
        }
      } else if i == |a| {
        assert s[j] == b[j - |a| - 1] && s[j] in b;
      } else {
        assert s[i] == b[i - |a| - 1] && s[j] == b[j - |a| - 1];
      }
    }
  }

  /** each visits exactly the keys of the tree. */
  lemma {:induction false} EachKeys<V>(t: Tree<V>)
    ensures forall x :: x in Keys(t) <==> x in KeysOf(Each(t))
  {
    match t
    case Nil =>
    case Node(l, k, v, r) =>
      EachKeys(l);
      EachKeys(r);
      KeysOfAppend(Each(l) + [(k, v)], Each(r));
      KeysOfAppend(Each(l), [(k, v)]);
      assert KeysOf(Each(t)) == KeysOf(Each(l)) + [k] + KeysOf(Each(r));
  }

  /** In a search tree each visits the keys in strictly ascending order. */
  lemma {:induction false} EachAscending<V>(t: Tree<V>)
    requires IsBst(t)
    ensures Ascending(KeysOf(Each(t)))
  {
    match t
    case Nil =>
    case Node(l, k, v, r) =>
      EachAscending(l);
      EachAscending(r);
      EachKeys(l);
      EachKeys(r);
      KeysOfAppend(Each(l) + [(k, v)], Each(r));
      KeysOfAppend(Each(l), [(k, v)]);
      AscendingAround(KeysOf(Each(l)), k, KeysOf(Each(r)));
  }

  /** In a search tree each makes exactly one visit per key. */
  lemma {:induction false} EachCount<V>(t: Tree<V>)
    requires IsBst(t)
    ensures |Each(t)| == |Keys(t)|
  {
    match t
    case Nil =>
    case Node(l, k, v, r) =>
      EachCount(l);
      EachCount(r);
      CardDisjoint(Keys(l), k, Keys(r));
  }

  /** In a search tree each hands every key its bound value. */
  lemma {:induction false} EachValues<V>(t: Tree<V>)
    requires IsBst(t)
    ensures forall i :: 0 <= i < |Each(t)| ==> Each(t)[i].0 in Elements(t) && Elements(t)[Each(t)[i].0] == Each(t)[i].1
  {
    match t
    case Nil =>
    case Node(l, k, v, r) =>
      EachValues(l);
      EachValues(r);
      ElementsOfNode(t);
      var el, er := Each(l), Each(r);
      forall i | 0 <= i < |Each(t)|
        ensures Each(t)[i].0 in Elements(t) && Elements(t)[Each(t)[i].0] == Each(t)[i].1
      {
        assert Elements(t) == (Elements(l) + Elements(r))[k := v];
        if i < |el| {
          assert Each(t)[i] == el[i];
          var x := el[i].0;
          assert x in Elements(l) && Elements(l)[x] == el[i].1;
          assert x < k && x !in Elements(r);
        } else if i > |el| {
          var j := i - |el| - 1;
          assert Each(t)[i] == er[j];
          var x := er[j].0;
          assert x in Elements(r) && Elements(r)[x] == er[j].1;
          assert k < x;
        } else {
          assert Each(t)[i] == (k, v);
        }
      }
  }

  /** The map object: the root and the counter the exercise keeps beside it. */
  class OrderedMap<V> {
    var root: Tree<V>
    var size: int

    /** The counter equals the number of keys, and the tree is a search tree. */
    ghost predicate Valid()
      reads this
    {
      IsBst(root) && size == |Keys(root)|
    }

    /** The bindings the map holds. */
    ghost function Contents(): map<int, V>
      reads this
    {
      Elements(root)
    }

    /** NewOrderedMap: an empty map. */
    constructor()
      ensures Valid() && Contents() == map[]
    {
      root := Nil;
      size := 0;
    }

    /** Insert: binds key to value; the size grows only for a new key. */
    method Insert(key: int, value: V)
      requires Valid()
      modifies this
      ensures Valid()
      ensures Contents() == old(Contents())[key := value]
      ensures size == old(size) + if key in old(Contents()) then 0 else 1
    {
      if root.Nil? {
        root := Node(Nil, key, value, Nil);
        size := size + 1;
        assert Keys(root) == {key};
        assert Elements(root) == map[key := value];
      } else {
        ghost var before := root;
        var (r, count) := InsertInto(root, key, value);
        InsertIntoCorrect(before, key, value);
        ElementsKeys(before);
        CardAdd(Keys(before), key);
        root := r;
        size := size + count;
      }
    }

    /** Erase: drops key when present, and then only it; an absent key changes nothing. */
    method Erase(key: int)
      requires Valid()
      modifies this
      ensures Valid()
      ensures Contents() == old(Contents()) - {key}
      ensures size == old(size) - if key in old(Contents()) then 1 else 0
    {
      ElementsKeys(root);
      EraseFromCorrect(root, key);
      CardRemove(Keys(root), key);
      var (r, count) := EraseFrom(root, key);
      root := r;
      size := size - count;
    }

    /** Contains: whether key is bound. */
    function Contains(key: int): (b: bool)
      requires Valid()
      reads this
      ensures b <==> key in Contents()
    {
      FindCorrect(root, key);
      Find(root, key).Node?
    }

    /** Size: the number of bindings. */
    function Size(): (n: int)
      requires Valid()
      reads this
      ensures n == |Contents()|
    {
      ElementsKeys(root);
      size
    }

    /** ForEach: every binding exactly once, in strictly ascending key order. */
    function ForEach(): (visits: seq<(int, V)>)
      requires Valid()
      reads this
      ensures Ascending(KeysOf(visits)) && |visits| == |Contents()|
      ensures forall x :: x in Contents() <==> x in KeysOf(visits)
      ensures forall i :: 0 <= i < |visits| ==> visits[i].0 in Contents() && Contents()[visits[i].0] == visits[i].1
    {
      ElementsKeys(root);
      EachKeys(root);
      EachAscending(root);
      EachValues(root);
      EachCount(root);
      Each(root)
    }
  }

  /** Two ascending sequences with the same elements are the same sequence. */
  lemma {:induction false} AscendingUnique(a: seq<int>, b: seq<int>)
    requires Ascending(a) && Ascending(b)
    requires forall x :: x in a <==> x in b
    ensures a == b
  {
    if a != [] {
      assert a[0] in a;
      assert a[0] in b;
    }
    if b != [] {
      assert b[0] in b;
      assert b[0] in a;
    }
    if a != [] && b != [] {
      assert a[0] == b[0];
      forall x
        ensures x in a[1..] <==> x in b[1..]
      {
        if x in a[1..] {
          assert x in a && x != a[0];
        }
        if x in b[1..] {
          assert x in b && x != b[0];
        }
      }
      AscendingUnique(a[1..], b[1..]);
      assert a == [a[0]] + a[1..];
      assert b == [b[0]] + b[1..];
    }
  }

  /** TestOrderedMap's seven inserts. */
  method ScenarioSevenKeys() returns (m: OrderedMap<int>)
    ensures fresh(m) && m.Valid()
    ensures m.Contents().Keys == {2, 4, 5, 10, 12, 14, 15}
  {
    m := new OrderedMap<int>();
    m.Insert(10, 10);
    m.Insert(5, 5);
    m.Insert(15, 15);
    m.Insert(2, 2);
    m.Insert(4, 4);
    m.Insert(12, 12);
    m.Insert(14, 14);
  }

  /** TestOrderedMap's three erasures. */
  method ScenarioEraseThree(m: OrderedMap<int>)
    requires m.Valid() && m.Contents().Keys == {2, 4, 5, 10, 12, 14, 15}
    modifies m
    ensures m.Valid() && m.Contents().Keys == {4, 5, 10, 12}
  {
    m.Erase(15);
    m.Erase(14);
    m.Erase(2);
  }

  /**
   * What the test reads back from a map whose bound keys are exactly those of an
   * ascending list: ForEach yields that list, and Size its length.
   */
  method ReadBack(m: OrderedMap<int>, expected: seq<int>, bound: set<int>) returns (keys: seq<int>, size: int)
    requires m.Valid() && Ascending(expected)
    requires m.Contents().Keys == bound && forall x :: x in expected <==> x in bound
    ensures keys == expected && size == |expected|
  {
    keys := KeysOf(m.ForEach());
    AscendingUnique(keys, expected);
    size := m.Size();
  }

  /**
   * TestOrderedMap: after the inserts the map holds seven keys and traverses them in
   * order; erasing 15, 14 and 2 leaves four keys, again traversed in order.
   */
  method ScenarioOrderedMap() returns (size1: int, first: seq<int>, size2: int, second: seq<int>)
    ensures size1 == 7 && first == [2, 4, 5, 10, 12, 14, 15]
    ensures size2 == 4 && second == [4, 5, 10, 12]
  {
    var m := ScenarioSevenKeys();
    first, size1 := ReadBack(m, [2, 4, 5, 10, 12, 14, 15], {2, 4, 5, 10, 12, 14, 15});
    ScenarioEraseThree(m);
    second, size2 := ReadBack(m, [4, 5, 10, 12], {4, 5, 10, 12});
  }
  /** TestOrderedMap_HappyPaths, "map is empty" and "add an element". */
  method ScenarioEmptyThenOne() returns (empty: int, added: int)
    ensures empty == 0 && added == 1
  {
    var m0 := new OrderedMap<int>();
    empty := m0.Size();
    var m1 := new OrderedMap<int>();
    m1.Insert(10, 10);
    added := m1.Size();
  }

  /** TestOrderedMap_HappyPaths, "erase last element". */
  method ScenarioEraseLast() returns (size: int)
    ensures size == 0
  {
    var m := new OrderedMap<int>();
    m.Insert(10, 10);
    m.Erase(10);
    size := m.Size();
  }

  /** TestOrderedMap_HappyPaths, "erase element with 1 child". */
  method ScenarioEraseOneChild() returns (size: int)
    ensures size == 1
  {
    var m := new OrderedMap<int>();
    m.Insert(10, 1);
    m.Insert(5, 0);
    m.Erase(10);
    assert m.Contents().Keys == {5};
    size := m.Size();
  }

  /** TestOrderedMap_HappyPaths, "erase element with 2 child": the four inserts. */
  method ScenarioFourKeys() returns (m: OrderedMap<int>)
    ensures fresh(m) && m.Valid()
    ensures m.Contents().Keys == {2, 5, 6, 7}
  {
    m := new OrderedMap<int>();
    m.Insert(5, 0);
    m.Insert(2, 0);
    m.Insert(7, 0);
    m.Insert(6, 0);
  }

  /**
   * TestOrderedMap_HappyPaths, "erase element with 2 child": erasing the root,
   * which has two children, leaves the other three keys, in order.
   */
  method ScenarioEraseTwoChildren() returns (keys: seq<int>, size: int)
    ensures keys == [2, 6, 7] && size == 3
  {
    var m := ScenarioFourKeys();
    m.Erase(5);
    keys, size := ReadBack(m, [2, 6, 7], {2, 6, 7});
  }
}
