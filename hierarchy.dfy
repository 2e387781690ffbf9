/**
 * Hierarchical ordering of the active list: top-level items in key order,
 * each one immediately followed by its own children in key order. Children
 * whose parent is not a top-level item of the same input are dropped.
 */
module Hierarchy {
  import opened Models
  import opened SortKey

  /** The items without a parent, in input order. */
  function TopLevel(s: seq<TodoItem>): seq<TodoItem>
  {
    if s == [] then []
    else (if s[0].parentId.None? then [s[0]] else []) + TopLevel(s[1..])
  }

  /** The items with a parent, in input order. */
  function Children(s: seq<TodoItem>): seq<TodoItem>
  {
    if s == [] then []
    else (if s[0].parentId.Some? then [s[0]] else []) + Children(s[1..])
  }

  /** The items whose parent reference equals `pid`, in input order. */
  function ChildrenOf(s: seq<TodoItem>, pid: Option<int>): seq<TodoItem>
  {
    if s == [] then []
    else (if s[0].parentId == pid then [s[0]] else []) + ChildrenOf(s[1..], pid)
  }

  /** `x` has a parent, and that parent is the id of some member of `tops`. */
  predicate HasParentIn(x: TodoItem, tops: seq<TodoItem>) {
    x.parentId.Some? && exists p :: p in tops && p.id == x.parentId
  }

  /** The items whose parent is the id of some member of `tops`, in input order. */
  function Adopted(s: seq<TodoItem>, tops: seq<TodoItem>): seq<TodoItem>
  {
    if s == [] then []
    else (if HasParentIn(s[0], tops) then [s[0]] else []) + Adopted(s[1..], tops)
  }

  lemma {:induction false} TopLevelMembers(s: seq<TodoItem>)
    ensures forall x :: x in TopLevel(s) <==> x in s && x.parentId.None?
  {
    if s != [] {
      TopLevelMembers(s[1..]);
      assert s == [s[0]] + s[1..];
    }
  }

  lemma {:induction false} ChildrenMembers(s: seq<TodoItem>)
    ensures forall x :: x in Children(s) <==> x in s && x.parentId.Some?
  {
    if s != [] {
      ChildrenMembers(s[1..]);
      assert s == [s[0]] + s[1..];
    }
  }

  lemma {:induction false} ChildrenOfMembers(s: seq<TodoItem>, pid: Option<int>)
    ensures forall x :: x in ChildrenOf(s, pid) <==> x in s && x.parentId == pid
  {
    if s != [] {
      ChildrenOfMembers(s[1..], pid);
      assert s == [s[0]] + s[1..];
    }
  }

  lemma {:induction false} AdoptedMembers(s: seq<TodoItem>, tops: seq<TodoItem>)
    ensures forall x :: x in Adopted(s, tops) <==> x in s && HasParentIn(x, tops)
  {
    if s != [] {
      AdoptedMembers(s[1..], tops);
      assert s == [s[0]] + s[1..];
    }
  }

  /** Each parent in turn, followed by its children sorted by key. */
  function Expand(parents: seq<TodoItem>, children: seq<TodoItem>): seq<TodoItem>
  {
    if parents == [] then []
    else [parents[0]] + SortByKey(ChildrenOf(children, parents[0].id)) + Expand(parents[1..], children)
  }

  /** The display order of an unordered collection of items. */
  function Hierarchical(items: seq<TodoItem>): seq<TodoItem>
  {
    Expand(SortByKey(TopLevel(items)), Children(items))
  }

  /** Builds the display order one parent at a time, as the program does. */
  method SortTodosHierarchically(items: seq<TodoItem>) returns (result: seq<TodoItem>)
    ensures result == Hierarchical(items)
  {
    var topLevel := SortByKey(TopLevel(items));
    var children := Children(items);
    result := [];
    assert topLevel[0..] == topLevel;
    for i := 0 to |topLevel|
      invariant result + Expand(topLevel[i..], children) == Expand(topLevel, children)
    {
      var parent := topLevel[i];
      var parentChildren := SortByKey(ChildrenOf(children, parent.id));
      ExpandStep(result, topLevel, i, children);
      result := result + [parent] + parentChildren;
    }
    assert topLevel[|topLevel|..] == [];
  }

  lemma ExpandStep(acc: seq<TodoItem>, ps: seq<TodoItem>, i: nat, cs: seq<TodoItem>)
    requires i < |ps|
    ensures acc + Expand(ps[i..], cs) == acc + [ps[i]] + SortByKey(ChildrenOf(cs, ps[i].id)) + Expand(ps[i + 1..], cs)
  {
    assert ps[i..][1..] == ps[i + 1..];
    assert Expand(ps[i..], cs) == [ps[i]] + SortByKey(ChildrenOf(cs, ps[i].id)) + Expand(ps[i + 1..], cs);
    Assoc(acc, [ps[i]], SortByKey(ChildrenOf(cs, ps[i].id)));
    Assoc(acc, [ps[i]] + SortByKey(ChildrenOf(cs, ps[i].id)), Expand(ps[i + 1..], cs));
  }

  // ---------------------------------------------------------------------
  // Filters distribute over concatenation

  lemma TopLevelCons(x: TodoItem, t: seq<TodoItem>)
    ensures TopLevel([x] + t) == (if x.parentId.None? then [x] else []) + TopLevel(t)
  {
    assert ([x] + t)[1..] == t;
  }

  lemma ChildrenOfCons(x: TodoItem, t: seq<TodoItem>, pid: Option<int>)
    ensures ChildrenOf([x] + t, pid) == (if x.parentId == pid then [x] else []) + ChildrenOf(t, pid)
  {
    assert ([x] + t)[1..] == t;
  }

  lemma {:induction false} TopLevelAppend(a: seq<TodoItem>, b: seq<TodoItem>)
    ensures TopLevel(a + b) == TopLevel(a) + TopLevel(b)
  {
    if a == [] {
      assert a + b == b;
    } else {
      var t := a[1..];
      HeadTail(a);
      Assoc([a[0]], t, b);
      TopLevelAppend(t, b);
      TopLevelCons(a[0], t + b);
      TopLevelCons(a[0], t);
    }
  }

  lemma {:induction false} ChildrenOfAppend(a: seq<TodoItem>, b: seq<TodoItem>, pid: Option<int>)
    ensures ChildrenOf(a + b, pid) == ChildrenOf(a, pid) + ChildrenOf(b, pid)
  {
    if a == [] {
      assert a + b == b;
    } else {
      var t := a[1..];
      HeadTail(a);
      Assoc([a[0]], t, b);
      ChildrenOfAppend(t, b, pid);
      ChildrenOfCons(a[0], t + b, pid);
      ChildrenOfCons(a[0], t, pid);
    }
  }

  lemma {:induction false} TopLevelOfChildren(s: seq<TodoItem>)
    requires forall x :: x in s ==> x.parentId.Some?
    ensures TopLevel(s) == []
  {
    if s != [] {
      assert s[0] in s;
      TopLevelOfChildren(s[1..]);
    }
  }

  /** Filtering by `pid` keeps everything when every item already has that parent. */
  lemma {:induction false} ChildrenOfAll(s: seq<TodoItem>, pid: Option<int>)
    requires forall x :: x in s ==> x.parentId == pid
    ensures ChildrenOf(s, pid) == s
  {
    if s != [] {
      assert s[0] in s;
      ChildrenOfAll(s[1..], pid);
    }
  }

  lemma {:induction false} ChildrenOfNone(s: seq<TodoItem>, pid: Option<int>)
    requires forall x :: x in s ==> x.parentId != pid
    ensures ChildrenOf(s, pid) == []
  {
    if s != [] {
      assert s[0] in s;
      ChildrenOfNone(s[1..], pid);
    }
  }

  /** Restricting to children first does not change the children of an actual id. */
  lemma {:induction false} ChildrenOfChildren(s: seq<TodoItem>, pid: Option<int>)
    ensures pid.Some? ==> ChildrenOf(Children(s), pid) == ChildrenOf(s, pid)
    ensures pid.None? ==> ChildrenOf(Children(s), pid) == []
  {
    if s != [] {
      ChildrenOfChildren(s[1..], pid);
      ChildrenOfAppend(if s[0].parentId.Some? then [s[0]] else [], Children(s[1..]), pid);
    }
  }

  lemma {:induction false} PartitionLength(s: seq<TodoItem>)
    ensures |TopLevel(s)| + |Children(s)| == |s|
  {
    if s != [] {
      PartitionLength(s[1..]);
    }
  }

  lemma {:induction false} AdoptedOfChildren(s: seq<TodoItem>, tops: seq<TodoItem>)
    ensures Adopted(Children(s), tops) == Adopted(s, tops)
  {
    if s != [] {
      var x, t := s[0], s[1..];
      AdoptedOfChildren(t, tops);
      assert Adopted(s, tops) == (if HasParentIn(x, tops) then [x] else []) + Adopted(t, tops);
      if x.parentId.Some? {
        assert Children(s) == [x] + Children(t);
        AdoptedCons(x, Children(t), tops);
      } else {
        assert Children(s) == Children(t);
      }
    }
  }

  lemma AdoptedCons(x: TodoItem, t: seq<TodoItem>, tops: seq<TodoItem>)
    ensures Adopted([x] + t, tops) == (if HasParentIn(x, tops) then [x] else []) + Adopted(t, tops)
  {
    assert ([x] + t)[1..] == t;
  }

  /** Adoption depends on the parents only through which items they are. */
  lemma {:induction false} AdoptedSameMembers(s: seq<TodoItem>, t1: seq<TodoItem>, t2: seq<TodoItem>)
    requires forall p :: p in t1 <==> p in t2
    ensures Adopted(s, t1) == Adopted(s, t2)
  {
    if s != [] {
      AdoptedSameMembers(s[1..], t1, t2);
    }
  }

  // ---------------------------------------------------------------------
  // Which items are shown

  lemma {:induction false} ExpandMembers(ps: seq<TodoItem>, cs: seq<TodoItem>, x: TodoItem)
    ensures x in Expand(ps, cs) <==> x in ps || (x in cs && exists p :: p in ps && p.id == x.parentId)
  {
    if ps != [] {
      ExpandMembers(ps[1..], cs, x);
      SortByKeyMembers(ChildrenOf(cs, ps[0].id));
      ChildrenOfMembers(cs, ps[0].id);
      assert ps == [ps[0]] + ps[1..];
      if x in cs && (exists p :: p in ps && p.id == x.parentId) && x !in ps {
        var p :| p in ps && p.id == x.parentId;
        if p != ps[0] {
          assert p in ps[1..];
        }
      }
    }
  }

  /**
   * An input item is shown exactly when it is top-level or its parent is the
   * id of a top-level input item. Orphans, grandchildren and the children of
   * a top-level item without an id never appear.
   */
  lemma HierarchicalMembers(items: seq<TodoItem>, x: TodoItem)
    ensures x in Hierarchical(items) <==>
      x in items && (x.parentId.None? || exists p :: p in items && p.parentId.None? && p.id == x.parentId)
  {
    var tops := SortByKey(TopLevel(items));
    SortByKeyMembers(TopLevel(items));
    TopLevelMembers(items);
    ChildrenMembers(items);
    ExpandMembers(tops, Children(items), x);
    if x in items && x.parentId.Some? && exists p :: p in items && p.parentId.None? && p.id == x.parentId {
      var p :| p in items && p.parentId.None? && p.id == x.parentId;
      assert p in tops;
    }
  }

  // ---------------------------------------------------------------------
  // Top-level order

  lemma {:induction false} ExpandTopLevel(ps: seq<TodoItem>, cs: seq<TodoItem>)
    requires forall p :: p in ps ==> p.parentId.None?
    requires forall c :: c in cs ==> c.parentId.Some?
    ensures TopLevel(Expand(ps, cs)) == ps
  {
    if ps != [] {
      var p0 := ps[0];
      var group := SortByKey(ChildrenOf(cs, p0.id));
      var tail := Expand(ps[1..], cs);
      GroupMembers(cs, p0.id);
      TopLevelOfChildren(group);
      ExpandTopLevel(ps[1..], cs);
      TopLevelAppend(group, tail);
      ExpandCons(ps, cs);
      TopLevelCons(p0, group + tail);
      HeadTail(ps);
    }
  }

  /** One step of the expansion, with the rest grouped to the right. */
  lemma ExpandCons(ps: seq<TodoItem>, cs: seq<TodoItem>)
    requires ps != []
    ensures Expand(ps, cs) == [ps[0]] + (SortByKey(ChildrenOf(cs, ps[0].id)) + Expand(ps[1..], cs))
  {
    Assoc([ps[0]], SortByKey(ChildrenOf(cs, ps[0].id)), Expand(ps[1..], cs));
  }

  /** Concatenation is associative. */
  lemma Assoc(a: seq<TodoItem>, b: seq<TodoItem>, c: seq<TodoItem>)
    ensures a + b + c == a + (b + c)
  {
  }

  lemma HeadTail(s: seq<TodoItem>)
    requires s != []
    ensures [s[0]] + s[1..] == s
  {
  }

  /** The run shown under a parent consists of exactly that parent's children. */
  lemma GroupMembers(cs: seq<TodoItem>, pid: Option<int>)
    ensures forall x :: x in SortByKey(ChildrenOf(cs, pid)) <==> x in cs && x.parentId == pid
  {
    SortByKeyMembers(ChildrenOf(cs, pid));
    ChildrenOfMembers(cs, pid);
  }

  /**
   * The top-level items of the display order are the top-level input items
   * sorted by key, and items sharing a key keep their input order.
   */
  lemma HierarchicalTopLevel(items: seq<TodoItem>)
    ensures TopLevel(Hierarchical(items)) == SortByKey(TopLevel(items))
    ensures SortedByKey(TopLevel(Hierarchical(items)))
    ensures forall k :: WithKey(TopLevel(Hierarchical(items)), k) == WithKey(TopLevel(items), k)
  {
    SortByKeyMembers(TopLevel(items));
    TopLevelMembers(items);
    ChildrenMembers(items);
    ExpandTopLevel(SortByKey(TopLevel(items)), Children(items));
    SortByKeySorted(TopLevel(items));
    forall k ensures WithKey(TopLevel(Hierarchical(items)), k) == WithKey(TopLevel(items), k) {
      SortByKeyStable(TopLevel(items), k);
    }
  }

  // ---------------------------------------------------------------------
  // Grouping: a child always sits under its own parent

  /**
   * The sequence starts with a top-level item, and every item between a
   * top-level item and the next top-level item is a child of the former.
   */
  predicate Grouped(r: seq<TodoItem>) {
    (|r| > 0 ==> r[0].parentId.None?) &&
    forall i, j :: 0 <= i < j < |r| && r[i].parentId.None? && ChildRun(r, i, j) ==> r[j].parentId == r[i].id
  }

  /** Every item after position `i` up to and including position `j` has a parent. */
  predicate ChildRun(r: seq<TodoItem>, i: int, j: int)
    requires 0 <= i < j < |r|
  {
    forall k :: i < k <= j ==> r[k].parentId.Some?
  }

  lemma GroupedCons(p: TodoItem, group: seq<TodoItem>, rest: seq<TodoItem>)
    requires p.parentId.None?
    requires forall g :: g in group ==> g.parentId.Some? && g.parentId == p.id
    requires Grouped(rest)
    ensures Grouped([p] + group + rest)
  {
    var pre := [p] + group;
    var r := pre + rest;
    forall i, j | 0 <= i < j < |r| && r[i].parentId.None? && ChildRun(r, i, j)
      ensures r[j].parentId == r[i].id
    {
      if i == 0 {
        GroupedHead(p, group, rest, j);
      } else if i < |pre| {
        assert false;
      } else {
        GroupedTail(pre, rest, i, j);
      }
    }
  }

  lemma GroupedHead(p: TodoItem, group: seq<TodoItem>, rest: seq<TodoItem>, j: nat)
    requires forall g :: g in group ==> g.parentId == p.id
    requires |rest| > 0 ==> rest[0].parentId.None?
    requires 0 < j < |[p] + group + rest|
    requires ChildRun([p] + group + rest, 0, j)
    ensures ([p] + group + rest)[j].parentId == p.id
  {
    var r := [p] + group + rest;
    var n := |group|;
    if n + 1 < |r| {
      assert r[n + 1] == rest[0];
    }
    assert j <= n;
    assert r[j] == group[j - 1];
  }

  lemma GroupedTail(pre: seq<TodoItem>, rest: seq<TodoItem>, i: nat, j: nat)
    requires Grouped(rest)
    requires |pre| <= i < j < |pre + rest|
    requires (pre + rest)[i].parentId.None?
    requires ChildRun(pre + rest, i, j)
    ensures (pre + rest)[j].parentId == (pre + rest)[i].id
  {
    var r := pre + rest;
    var i', j' := i - |pre|, j - |pre|;
    assert r[i] == rest[i'] && r[j] == rest[j'];
    forall k | i' < k <= j' ensures rest[k].parentId.Some? {
      assert r[k + |pre|] == rest[k];
    }
    assert ChildRun(rest, i', j');
  }

  lemma {:induction false} ExpandGrouped(ps: seq<TodoItem>, cs: seq<TodoItem>)
    requires forall p :: p in ps ==> p.parentId.None?
    requires forall c :: c in cs ==> c.parentId.Some?
    ensures Grouped(Expand(ps, cs))
  {
    if ps != [] {
      SortByKeyMembers(ChildrenOf(cs, ps[0].id));
      ChildrenOfMembers(cs, ps[0].id);
      ExpandGrouped(ps[1..], cs);
      GroupedCons(ps[0], SortByKey(ChildrenOf(cs, ps[0].id)), Expand(ps[1..], cs));
    }
  }

  /** In the display order every child sits directly under its own parent's run. */
  lemma HierarchicalGrouped(items: seq<TodoItem>)
    ensures Grouped(Hierarchical(items))
  {
    SortByKeyMembers(TopLevel(items));
    TopLevelMembers(items);
    ChildrenMembers(items);
    ExpandGrouped(SortByKey(TopLevel(items)), Children(items));
  }

  // ---------------------------------------------------------------------
  // Children of one parent

  lemma {:induction false} ExpandChildrenOf(ps: seq<TodoItem>, cs: seq<TodoItem>, v: Option<int>)
    requires v.Some? && DistinctIds(ps)
    requires forall p :: p in ps ==> p.parentId.None?
    requires forall c :: c in cs ==> c.parentId.Some?
    ensures (exists p :: p in ps && p.id == v) ==> ChildrenOf(Expand(ps, cs), v) == SortByKey(ChildrenOf(cs, v))
    ensures (forall p :: p in ps ==> p.id != v) ==> ChildrenOf(Expand(ps, cs), v) == []
  {
    if ps != [] {
      var p0 := ps[0];
      var group := SortByKey(ChildrenOf(cs, p0.id));
      var tail := Expand(ps[1..], cs);
      GroupMembers(cs, p0.id);
      DistinctIdsTail(ps);
      ExpandChildrenOf(ps[1..], cs, v);
      ExpandCons(ps, cs);
      ChildrenOfCons(p0, group + tail, v);
      ChildrenOfAppend(group, tail, v);
      if p0.id == v {
        ChildrenOfAll(group, v);
      } else {
        ChildrenOfNone(group, v);
        if exists p :: p in ps && p.id == v {
          var p :| p in ps && p.id == v;
          assert p in ps[1..];
        }
      }
    }
  }

  /**
   * When top-level ids are distinct, the children shown for a top-level item
   * with an id are exactly its input children, sorted by key (stable on ties).
   */
  lemma HierarchicalChildren(items: seq<TodoItem>, p: TodoItem)
    requires DistinctIds(TopLevel(items))
    requires p in items && p.parentId.None? && p.id.Some?
    ensures ChildrenOf(Hierarchical(items), p.id) == SortByKey(ChildrenOf(items, p.id))
  {
    var tops := SortByKey(TopLevel(items));
    SortByKeyMembers(TopLevel(items));
    SortByKeyDistinct(TopLevel(items));
    TopLevelMembers(items);
    ChildrenMembers(items);
    assert p in tops;
    ExpandChildrenOf(tops, Children(items), p.id);
    ChildrenOfChildren(items, p.id);
  }

  // ---------------------------------------------------------------------
  // Permutation of the kept items

  /** With `p0`'s id absent from `rest`, a child is adopted by `[p0] + rest` through exactly one of the two. */
  lemma HasParentInCons(c: TodoItem, p0: TodoItem, rest: seq<TodoItem>)
    requires c.parentId.Some?
    requires p0.id.Some? ==> forall q :: q in rest ==> q.id != p0.id
    ensures HasParentIn(c, [p0] + rest) <==> c.parentId == p0.id || HasParentIn(c, rest)
    ensures !(c.parentId == p0.id && HasParentIn(c, rest))
  {
    assert p0 in [p0] + rest;
    if HasParentIn(c, [p0] + rest) && c.parentId != p0.id {
      var p :| p in [p0] + rest && p.id == c.parentId;
      assert p in rest;
    }
    if HasParentIn(c, rest) {
      var p :| p in rest && p.id == c.parentId;
      assert p in [p0] + rest;
    }
  }

  lemma {:induction false} AdoptedSplit(cs: seq<TodoItem>, p0: TodoItem, rest: seq<TodoItem>)
    requires forall c :: c in cs ==> c.parentId.Some?
    requires p0.id.Some? ==> forall q :: q in rest ==> q.id != p0.id
    ensures multiset(Adopted(cs, [p0] + rest)) == multiset(ChildrenOf(cs, p0.id)) + multiset(Adopted(cs, rest))
  {
    if cs != [] {
      var c := cs[0];
      assert c in cs;
      AdoptedSplit(cs[1..], p0, rest);
      HasParentInCons(c, p0, rest);
    }
  }

  lemma ExpandConsMultiset(ps: seq<TodoItem>, cs: seq<TodoItem>)
    requires ps != []
    ensures multiset(Expand(ps, cs)) ==
      multiset{ps[0]} + multiset(SortByKey(ChildrenOf(cs, ps[0].id))) + multiset(Expand(ps[1..], cs))
  {
    assert [ps[0]] + SortByKey(ChildrenOf(cs, ps[0].id)) + Expand(ps[1..], cs) == Expand(ps, cs);
  }

  lemma {:induction false} ExpandMultiset(ps: seq<TodoItem>, cs: seq<TodoItem>)
    requires DistinctIds(ps)
    requires forall c :: c in cs ==> c.parentId.Some?
    ensures multiset(Expand(ps, cs)) == multiset(ps) + multiset(Adopted(cs, ps))
  {
    if ps == [] {
      AdoptedNone(cs, ps);
    } else {
      DistinctIdsTail(ps);
      ExpandMultiset(ps[1..], cs);
      ExpandMultisetStep(ps, cs);
    }
  }

  lemma ExpandMultisetStep(ps: seq<TodoItem>, cs: seq<TodoItem>)
    requires ps != []
    requires forall c :: c in cs ==> c.parentId.Some?
    requires ps[0].id.Some? ==> forall q :: q in ps[1..] ==> q.id != ps[0].id
    requires multiset(Expand(ps[1..], cs)) == multiset(ps[1..]) + multiset(Adopted(cs, ps[1..]))
    ensures multiset(Expand(ps, cs)) == multiset(ps) + multiset(Adopted(cs, ps))
  {
    var p0, rest := ps[0], ps[1..];
    SortByKeyPermutation(ChildrenOf(cs, p0.id));
    AdoptedSplit(cs, p0, rest);
    ExpandConsMultiset(ps, cs);
    HeadTail(ps);
    MultisetCons(p0, rest);
    UnionShuffle(multiset{p0}, multiset(ChildrenOf(cs, p0.id)), multiset(rest), multiset(Adopted(cs, rest)));
  }

  lemma MultisetCons(x: TodoItem, t: seq<TodoItem>)
    ensures multiset([x] + t) == multiset{x} + multiset(t)
  {
  }

  lemma UnionShuffle(p: multiset<TodoItem>, co: multiset<TodoItem>, rest: multiset<TodoItem>, ad: multiset<TodoItem>)
    ensures p + co + (rest + ad) == (p + rest) + (co + ad)
  {
  }

  lemma {:induction false} AdoptedLength(s: seq<TodoItem>, tops: seq<TodoItem>)
    ensures |Adopted(s, tops)| <= |s|
  {
    if s != [] {
      AdoptedLength(s[1..], tops);
    }
  }

  lemma {:induction false} AdoptedNone(s: seq<TodoItem>, tops: seq<TodoItem>)
    requires tops == []
    ensures Adopted(s, tops) == []
  {
    if s != [] {
      AdoptedNone(s[1..], tops);
    }
  }

  /**
   * With distinct top-level ids the display order is a rearrangement of the
   * top-level items together with the children of top-level items; so it is
   * never longer than the input.
   */
  lemma HierarchicalPermutation(items: seq<TodoItem>)
    requires DistinctIds(TopLevel(items))
    ensures multiset(Hierarchical(items)) == multiset(TopLevel(items)) + multiset(Adopted(items, TopLevel(items)))
    ensures |Hierarchical(items)| <= |items|
  {
    var tops := SortByKey(TopLevel(items));
    SortByKeyMembers(TopLevel(items));
    SortByKeyDistinct(TopLevel(items));
    TopLevelMembers(items);
    ChildrenMembers(items);
    ExpandMultiset(tops, Children(items));
    SortByKeyPermutation(TopLevel(items));
    AdoptedSameMembers(Children(items), tops, TopLevel(items));
    AdoptedOfChildren(items, TopLevel(items));
    PartitionLength(items);
    var h := Hierarchical(items);
    assert |h| == |multiset(h)|;
    AdoptedLength(Children(items), TopLevel(items));
  }

  // ---------------------------------------------------------------------
  // Idempotence

  lemma {:induction false} ExpandSameGroups(ps: seq<TodoItem>, c1: seq<TodoItem>, c2: seq<TodoItem>)
    requires forall p :: p in ps ==> SortByKey(ChildrenOf(c1, p.id)) == SortByKey(ChildrenOf(c2, p.id))
    ensures Expand(ps, c1) == Expand(ps, c2)
  {
    if ps != [] {
      assert ps[0] in ps;
      ExpandSameGroups(ps[1..], c1, c2);
    }
  }

  /** With distinct top-level ids, ordering an already ordered list changes nothing. */
  lemma HierarchicalIdempotent(items: seq<TodoItem>)
    requires DistinctIds(TopLevel(items))
    ensures Hierarchical(Hierarchical(items)) == Hierarchical(items)
  {
    var tops := SortByKey(TopLevel(items));
    var cs := Children(items);
    var h := Hierarchical(items);
    SortByKeyMembers(TopLevel(items));
    SortByKeyDistinct(TopLevel(items));
    TopLevelMembers(items);
    ChildrenMembers(items);
    HierarchicalTopLevel(items);
    SortByKeySorted(TopLevel(items));
    SortByKeyOfSorted(tops);
    forall p | p in tops
      ensures SortByKey(ChildrenOf(Children(h), p.id)) == SortByKey(ChildrenOf(cs, p.id))
    {
      ChildrenOfChildren(h, p.id);
      ChildrenOfChildren(items, p.id);
      if p.id.Some? {
        ExpandChildrenOf(tops, cs, p.id);
        SortByKeyIdempotent(ChildrenOf(cs, p.id));
      }
    }
    ExpandSameGroups(tops, Children(h), cs);
  }

  // Two top-level items sharing the id 1, and one child of 1.
  const DupA := TodoItem(Some(1), "a", "", None, 0, None, 10)
  const DupB := TodoItem(Some(1), "b", "", None, 0, None, 20)
  const DupC := TodoItem(None, "c", "", None, 0, Some(1), 0)

  lemma DupFilters()
    ensures TopLevel([DupA, DupB, DupC]) == [DupA, DupB] && Children([DupA, DupB, DupC]) == [DupC]
  {
    assert [DupA, DupB, DupC][1..] == [DupB, DupC] && [DupB, DupC][1..] == [DupC] && [DupC][1..] == [];
    assert TopLevel([DupC]) == [] && Children([DupC]) == [DupC];
    assert TopLevel([DupB, DupC]) == [DupB] && Children([DupB, DupC]) == [DupC];
  }

  lemma DupSortTops()
    ensures SortByKey([DupA, DupB]) == [DupA, DupB]
  {
    assert [DupA, DupB][1..] == [DupB] && [DupB][1..] == [];
    assert SortByKey([DupB]) == InsertByKey(DupB, []) == [DupB];
  }

  lemma DupGroup()
    ensures SortByKey(ChildrenOf([DupC], Some(1))) == [DupC]
  {
    assert [DupC][1..] == [];
    assert ChildrenOf([DupC], Some(1)) == [DupC];
    assert SortByKey([DupC]) == InsertByKey(DupC, []) == [DupC];
  }

  /** Two top-level items sharing an id each get a copy of the child. */
  lemma DuplicateIdsRepeatChild()
    ensures Hierarchical([DupA, DupB, DupC]) == [DupA, DupC, DupB, DupC]
  {
    DupFilters();
    DupSortTops();
    DupGroup();
    assert [DupA, DupB][1..] == [DupB] && [DupB][1..] == [];
    assert Expand([DupB], [DupC]) == [DupB, DupC];
    assert Expand([DupA, DupB], [DupC]) == [DupA, DupC] + Expand([DupB], [DupC]);
  }

  lemma DupShownFilters()
    ensures TopLevel([DupA, DupC, DupB, DupC]) == [DupA, DupB]
    ensures Children([DupA, DupC, DupB, DupC]) == [DupC, DupC]
  {
    var h := [DupA, DupC, DupB, DupC];
    assert h[1..] == [DupC, DupB, DupC] && h[1..][1..] == [DupB, DupC];
    assert [DupB, DupC][1..] == [DupC] && [DupC][1..] == [];
    assert TopLevel([DupC]) == [] && Children([DupC]) == [DupC];
    assert TopLevel([DupB, DupC]) == [DupB] && Children([DupB, DupC]) == [DupC];
    assert TopLevel(h[1..]) == [DupB] && Children(h[1..]) == [DupC, DupC];
  }

  /**
   * A top-level id shared by two items that has a child breaks idempotence:
   * the child is copied under each of them, so a second pass sees two copies
   * and emits each of them twice.
   */
  lemma DuplicateIdsBreakIdempotence()
    ensures Hierarchical(Hierarchical([DupA, DupB, DupC])) != Hierarchical([DupA, DupB, DupC])
  {
    DuplicateIdsRepeatChild();
    DupShownFilters();
    DupSortTops();
    assert DupC.parentId == Some(1);
    assert [DupC, DupC][1..] == [DupC] && [DupC][1..] == [];
    assert ChildrenOf([DupC], Some(1)) == [DupC];
    assert ChildrenOf([DupC, DupC], Some(1)) == [DupC, DupC];
    SortByKeyMembers([DupC, DupC]);
    assert |Expand([DupA, DupB], [DupC, DupC])| >= 3;
  }
}
