/** The scene graph of `Shape` (Shape/Shape.h). Every shape is owned by
    `shared_ptr`s held elsewhere and points to its children and its parent
    through `weak_ptr`s. Here the shapes live in an arena: a handle is the
    index of a record, and a record that is no longer `alive` stands for a
    shape whose last owner has let go, so that every `weak_ptr` to it has
    expired. Pointer equality is handle equality. */
module ShapeTree {
  import opened Wrappers
  import Seqs

  type Handle = nat

  /** `uint32_t`, the type of `m_priority`. */
  type uint32 = x: int | 0 <= x < 0x1_0000_0000

  /** The fields of one shape that the tree operations read or write (`name`
      is `m_label`; `label` is a Dafny keyword). The
      material and the geometry are not part of this model. */
  datatype ShapeRecord = ShapeRecord(
    name: string,
    priority: uint32,
    parent: Option<Handle>,
    children: seq<Handle>,
    alive: bool)

  /** A `weak_ptr` to `h` has not expired. */
  predicate Live(rs: seq<ShapeRecord>, h: Handle)
  {
    h < |rs| && rs[h].alive
  }

  /** The two lambdas handed to `std::remove_if`: the one of `removeChild(ptr)`
      and the one of `removeAllChildrenWithLabel(label)`. Both also remove
      every expired entry. */
  datatype Doomed = Pointer(ptr: Handle) | Labelled(name: string)

  predicate Removed(rs: seq<ShapeRecord>, d: Doomed, h: Handle)
  {
    !Live(rs, h) ||
    match d
    case Pointer(p) => h == p
    case Labelled(l) => rs[h].name == l
  }

  /** What `erase(remove_if(...), end())` leaves of `s`: the entries the
      lambda does not remove, in their order. */
  function Survivors(rs: seq<ShapeRecord>, d: Doomed, s: seq<Handle>): seq<Handle>
  {
    if |s| == 0 then []
    else
      var last := s[|s| - 1];
      Survivors(rs, d, s[..|s| - 1]) + (if Removed(rs, d, last) then [] else [last])
  }

  /** An entry survives exactly when it was there and the lambda keeps it. */
  lemma {:induction false} SurvivorsMembers(rs: seq<ShapeRecord>, d: Doomed, s: seq<Handle>, x: Handle)
    ensures x in Survivors(rs, d, s) <==> x in s && !Removed(rs, d, x)
  {
    if |s| > 0 {
      var init := s[..|s| - 1];
      SurvivorsMembers(rs, d, init, x);
      assert s == init + [s[|s| - 1]];
    }
  }

  /** Survivors keep their relative order: those of a left part come before
      those of a right part. */
  lemma {:induction false} SurvivorsAppend(rs: seq<ShapeRecord>, d: Doomed, a: seq<Handle>, b: seq<Handle>)
    ensures Survivors(rs, d, a + b) == Survivors(rs, d, a) + Survivors(rs, d, b)
    decreases |b|
  {
    if |b| == 0 {
      assert a + b == a;
    } else {
      var init, last := b[..|b| - 1], b[|b| - 1];
      assert (a + b)[..|a + b| - 1] == a + init;
      SurvivorsAppend(rs, d, a, init);
      var tail := if Removed(rs, d, last) then [] else [last];
      calc {
        Survivors(rs, d, a + b);
        Survivors(rs, d, a + init) + tail;
        (Survivors(rs, d, a) + Survivors(rs, d, init)) + tail;
        { Seqs.AppendAssoc(Survivors(rs, d, a), Survivors(rs, d, init), tail); }
        Survivors(rs, d, a) + (Survivors(rs, d, init) + tail);
      }
    }
  }

  /** When the lambda removes nothing, the entries are left as they are. */
  lemma {:induction false} SurvivorsAll(rs: seq<ShapeRecord>, d: Doomed, s: seq<Handle>)
    requires forall i :: 0 <= i < |s| ==> !Removed(rs, d, s[i])
    ensures Survivors(rs, d, s) == s
  {
    if |s| > 0 {
      var init := s[..|s| - 1];
      SurvivorsAll(rs, d, init);
      assert s == init + [s[|s| - 1]];
    }
  }

  /** The lambdas read only which records are alive and their labels, so
      editing children or parents elsewhere does not change what survives. */
  predicate SameShapes(rs: seq<ShapeRecord>, rs': seq<ShapeRecord>)
  {
    |rs| == |rs'| &&
    forall h :: 0 <= h < |rs| ==> rs[h].alive == rs'[h].alive && rs[h].name == rs'[h].name
  }

  lemma {:induction false} SurvivorsOfSameShapes(rs: seq<ShapeRecord>, rs': seq<ShapeRecord>, d: Doomed, s: seq<Handle>)
    requires SameShapes(rs, rs')
    ensures Survivors(rs, d, s) == Survivors(rs', d, s)
  {
    if |s| > 0 {
      SurvivorsOfSameShapes(rs, rs', d, s[..|s| - 1]);
      var last := s[|s| - 1];
      assert Removed(rs, d, last) == Removed(rs', d, last);
    }
  }

  // ---------------------------------------------------------------------------
  // What each editing operation does to the whole arena.

  /** `addChild(child)`: `push_back` on the children of `p`. */
  function AddChildState(rs: seq<ShapeRecord>, p: Handle, c: Handle): seq<ShapeRecord>
    requires p < |rs|
  {
    rs[p := rs[p].(children := rs[p].children + [c])]
  }

  /** `removeChild(ptr)` or `removeAllChildrenWithLabel(label)` on shape `n`. */
  function RemoveState(rs: seq<ShapeRecord>, n: Handle, d: Doomed): seq<ShapeRecord>
    requires n < |rs|
  {
    rs[n := rs[n].(children := Survivors(rs, d, rs[n].children))]
  }

  /** `setParent(parent)` on shape `n`: a live old parent first drops `n` from
      its children (and, as `removeChild` does, every expired child); then the
      link is overwritten. `None` is a null `shared_ptr`. */
  function SetParentState(rs: seq<ShapeRecord>, n: Handle, q: Option<Handle>): seq<ShapeRecord>
    requires n < |rs|
  {
    var detached :=
      match rs[n].parent
      case Some(p) => if Live(rs, p) then RemoveState(rs, p, Pointer(n)) else rs
      case None => rs;
    detached[n := detached[n].(parent := q)]
  }

  /** `bindShapes(parent, child)`: `parent->addChild(child)`, then
      `child->setParent(parent)`. */
  function BindState(rs: seq<ShapeRecord>, p: Handle, c: Handle): seq<ShapeRecord>
    requires p < |rs| && c < |rs|
  {
    SetParentState(AddChildState(rs, p, c), c, Some(p))
  }

  /** No live parent: `c` is appended to the children of `p` and its parent
      becomes `p`; no other shape changes. */
  lemma BindFresh(rs: seq<ShapeRecord>, p: Handle, c: Handle)
    requires p < |rs| && c < |rs|
    requires rs[c].parent.None? || !Live(rs, rs[c].parent.value)
    ensures var r := BindState(rs, p, c);
      |r| == |rs| &&
      r[p].children == rs[p].children + [c] &&
      r[c].parent == Some(p) &&
      forall h :: 0 <= h < |rs| && h != p && h != c ==> r[h] == rs[h]
  {
    var added := AddChildState(rs, p, c);
    assert added[c].parent == rs[c].parent;
  }

  /** Rebinding from a live parent `q` to another shape `p` drops `c` from the
      children of `q` (together with the expired ones there); `p` gains `c` at
      the end. */
  lemma BindMoves(rs: seq<ShapeRecord>, p: Handle, c: Handle, q: Handle)
    requires p < |rs| && c < |rs|
    requires rs[c].parent == Some(q) && Live(rs, q) && q != p
    ensures var r := BindState(rs, p, c);
      |r| == |rs| &&
      r[q].children == Survivors(rs, Pointer(c), rs[q].children) &&
      c !in r[q].children &&
      r[p].children == rs[p].children + [c] &&
      r[c].parent == Some(p)
  {
    var added := AddChildState(rs, p, c);
    assert added[c].parent == Some(q) && added[q] == rs[q];
    assert SameShapes(rs, added);
    SurvivorsOfSameShapes(rs, added, Pointer(c), rs[q].children);
    SurvivorsMembers(rs, Pointer(c), rs[q].children, c);
  }

  /** Rebinding `c` to the parent it already has: `addChild` appends it, and
      `setParent` then removes every entry for `c` from that same list, so
      `c` ends up out of the children of `p` while its parent is still `p`. */
  lemma BindSameParent(rs: seq<ShapeRecord>, p: Handle, c: Handle)
    requires p < |rs| && c < |rs|
    requires rs[c].parent == Some(p) && Live(rs, p)
    ensures var r := BindState(rs, p, c);
      |r| == |rs| &&
      c !in r[p].children &&
      r[p].children == Survivors(rs, Pointer(c), rs[p].children) &&
      r[c].parent == Some(p)
  {
    var added := AddChildState(rs, p, c);
    assert added[c].parent == Some(p);
    assert SameShapes(rs, added);
    var s := rs[p].children;
    SurvivorsOfSameShapes(rs, added, Pointer(c), s + [c]);
    SurvivorsMembers(rs, Pointer(c), s + [c], c);
    SurvivorsAppend(rs, Pointer(c), s, [c]);
    assert Survivors(rs, Pointer(c), [c]) == [] by {
      assert [c][..0] == [];
    }
  }

  // ---------------------------------------------------------------------------
  // Acyclicity. The recursive walks of the source only end when no shape is
  // its own descendant; a rank that strictly decreases from a live parent to
  // each of its live children says so.

  ghost predicate Ranked(rs: seq<ShapeRecord>, rank: seq<nat>)
  {
    |rank| == |rs| && forall h: Handle, k: nat :: ChildRanked(rs, rank, h, k)
  }

  /** Child `k` of `h`, when both are live, has the lower rank. */
  ghost predicate ChildRanked(rs: seq<ShapeRecord>, rank: seq<nat>, h: Handle, k: nat)
  {
    |rank| == |rs| &&
    (Live(rs, h) && k < |rs[h].children| && Live(rs, rs[h].children[k]) ==>
      rank[rs[h].children[k]] < rank[h])
  }

  /** Adding a child of lower rank keeps the arena ranked. */
  lemma AddChildKeepsRanked(rs: seq<ShapeRecord>, rank: seq<nat>, p: Handle, c: Handle)
    requires Ranked(rs, rank) && p < |rs|
    requires Live(rs, p) && Live(rs, c) ==> rank[c] < rank[p]
    ensures Ranked(AddChildState(rs, p, c), rank)
  {
    var r := AddChildState(rs, p, c);
    forall h: Handle, k: nat ensures ChildRanked(r, rank, h, k) {
      if Live(r, h) && k < |r[h].children| && Live(r, r[h].children[k]) {
        if h == p && k == |rs[p].children| {
          assert r[h].children[k] == c;
        } else {
          assert r[h].children[k] == rs[h].children[k];
          assert ChildRanked(rs, rank, h, k);
        }
      }
    }
  }

  /** Removing children never breaks the ranking. */
  lemma RemoveKeepsRanked(rs: seq<ShapeRecord>, rank: seq<nat>, n: Handle, d: Doomed)
    requires Ranked(rs, rank) && n < |rs|
    ensures Ranked(RemoveState(rs, n, d), rank)
  {
    var r := RemoveState(rs, n, d);
    forall h: Handle, k: nat ensures ChildRanked(r, rank, h, k) {
      if Live(r, h) && k < |r[h].children| && Live(r, r[h].children[k]) {
        var x := r[h].children[k];
        if h == n {
          SurvivorsMembers(rs, d, rs[n].children, x);
          var k': nat :| k' < |rs[n].children| && rs[n].children[k'] == x;
          assert ChildRanked(rs, rank, h, k');
        } else {
          assert x == rs[h].children[k];
          assert ChildRanked(rs, rank, h, k);
        }
      }
    }
  }

  /** `setParent` only removes children and rewrites a parent link, so it
      never breaks the ranking. */
  lemma SetParentKeepsRanked(rs: seq<ShapeRecord>, rank: seq<nat>, n: Handle, q: Option<Handle>)
    requires Ranked(rs, rank) && n < |rs|
    ensures Ranked(SetParentState(rs, n, q), rank)
  {
    var detached :=
      match rs[n].parent
      case Some(p) => if Live(rs, p) then RemoveState(rs, p, Pointer(n)) else rs
      case None => rs;
    if rs[n].parent.Some? && Live(rs, rs[n].parent.value) {
      RemoveKeepsRanked(rs, rank, rs[n].parent.value, Pointer(n));
    }
    var r := SetParentState(rs, n, q);
    forall h: Handle, k: nat ensures ChildRanked(r, rank, h, k) {
      assert ChildRanked(detached, rank, h, k);
    }
  }

  /** `bindShapes(p, c)` keeps the arena ranked when `c` ranks below `p`. */
  lemma BindKeepsRanked(rs: seq<ShapeRecord>, rank: seq<nat>, p: Handle, c: Handle)
    requires Ranked(rs, rank) && p < |rs| && c < |rs|
    requires Live(rs, p) && Live(rs, c) ==> rank[c] < rank[p]
    ensures Ranked(BindState(rs, p, c), rank)
  {
    AddChildKeepsRanked(rs, rank, p, c);
    SetParentKeepsRanked(AddChildState(rs, p, c), rank, c, Some(p));
  }

  // ---------------------------------------------------------------------------
  // The recursive walks: pre-order flattening and the hit search.

  /** The shapes `generatePriorityList` collects from `h` before sorting:
      `h` itself, then the list of each live child in `m_children` order. */
  ghost function PreOrder(rs: seq<ShapeRecord>, rank: seq<nat>, h: Handle): seq<Handle>
    requires Ranked(rs, rank) && Live(rs, h)
    decreases rank[h], |rs[h].children| + 1
  {
    [h] + ChildrenOrder(rs, rank, h, 0)
  }

  /** The lists of the children of `h` from position `k` on. */
  ghost function ChildrenOrder(rs: seq<ShapeRecord>, rank: seq<nat>, h: Handle, k: nat): seq<Handle>
    requires Ranked(rs, rank) && Live(rs, h) && k <= |rs[h].children|
    decreases rank[h], |rs[h].children| - k
  {
    if k == |rs[h].children| then []
    else
      var c := rs[h].children[k];
      assert ChildRanked(rs, rank, h, k);
      (if Live(rs, c) then PreOrder(rs, rank, c) else []) + ChildrenOrder(rs, rank, h, k + 1)
  }

  /** Every shape in the flattened list is live. */
  lemma {:induction false} PreOrderLive(rs: seq<ShapeRecord>, rank: seq<nat>, h: Handle, x: Handle)
    requires Ranked(rs, rank) && Live(rs, h)
    requires x in PreOrder(rs, rank, h)
    ensures Live(rs, x)
    decreases rank[h], |rs[h].children| + 1
  {
    if x != h {
      ChildrenOrderLive(rs, rank, h, 0, x);
    }
  }

  lemma {:induction false} ChildrenOrderLive(rs: seq<ShapeRecord>, rank: seq<nat>, h: Handle, k: nat, x: Handle)
    requires Ranked(rs, rank) && Live(rs, h) && k <= |rs[h].children|
    requires x in ChildrenOrder(rs, rank, h, k)
    ensures Live(rs, x)
    decreases rank[h], |rs[h].children| - k
  {
    var c := rs[h].children[k];
    assert ChildRanked(rs, rank, h, k);
    if Live(rs, c) && x in PreOrder(rs, rank, c) {
      PreOrderLive(rs, rank, c, x);
    } else {
      ChildrenOrderLive(rs, rank, h, k + 1, x);
    }
  }

  /** `hitAll`: the shape whose `hit` succeeds first, trying a shape before
      its live children and the children in order; `None` when `hitAll`
      returns false. `hit` stands for `Shape::hit` with the ray and the
      interval of the call fixed. */
  function HitAll(rs: seq<ShapeRecord>, ghost rank: seq<nat>, h: Handle, hit: Handle -> bool): Option<Handle>
    requires Ranked(rs, rank) && Live(rs, h)
    decreases rank[h], |rs[h].children| + 1
  {
    if hit(h) then Some(h) else HitChildren(rs, rank, h, 0, hit)
  }

  /** The `for` loop of `hitAll` from child `k` on. */
  function HitChildren(rs: seq<ShapeRecord>, ghost rank: seq<nat>, h: Handle, k: nat, hit: Handle -> bool): Option<Handle>
    requires Ranked(rs, rank) && Live(rs, h) && k <= |rs[h].children|
    decreases rank[h], |rs[h].children| - k
  {
    if k == |rs[h].children| then None
    else
      var c := rs[h].children[k];
      assert ChildRanked(rs, rank, h, k);
      if Live(rs, c) && HitAll(rs, rank, c, hit).Some? then HitAll(rs, rank, c, hit)
      else HitChildren(rs, rank, h, k + 1, hit)
  }

  /** The first element of `s` that `p` accepts. */
  function FirstWhere(s: seq<Handle>, p: Handle -> bool): Option<Handle>
  {
    if |s| == 0 then None else if p(s[0]) then Some(s[0]) else FirstWhere(s[1..], p)
  }

  /** `FirstWhere` finds nothing exactly when no element is accepted, and
      otherwise an accepted element with none accepted before it. */
  lemma {:induction false} FirstWhereSpec(s: seq<Handle>, p: Handle -> bool)
    ensures FirstWhere(s, p).None? <==> forall i :: 0 <= i < |s| ==> !p(s[i])
    ensures FirstWhere(s, p).Some? ==>
      exists i :: 0 <= i < |s| && s[i] == FirstWhere(s, p).value && p(s[i]) &&
        forall j :: 0 <= j < i ==> !p(s[j])
  {
    if |s| > 0 && !p(s[0]) {
      FirstWhereSpec(s[1..], p);
      if FirstWhere(s[1..], p).Some? {
        var i :| 0 <= i < |s| - 1 && s[1..][i] == FirstWhere(s[1..], p).value && p(s[1..][i]) &&
          forall j :: 0 <= j < i ==> !p(s[1..][j]);
        assert s[i + 1] == s[1..][i];
        forall j | 0 <= j < i + 1 ensures !p(s[j]) {
          if j > 0 {
            assert s[j] == s[1..][j - 1];
          }
        }
      } else {
        forall i | 0 <= i < |s| ensures !p(s[i]) {
          if i > 0 {
            assert s[i] == s[1..][i - 1];
          }
        }
      }
    }
  }

  lemma {:induction false} FirstWhereAppend(a: seq<Handle>, b: seq<Handle>, p: Handle -> bool)
    ensures FirstWhere(a + b, p) == if FirstWhere(a, p).Some? then FirstWhere(a, p) else FirstWhere(b, p)
  {
    if |a| == 0 {
      assert a + b == b;
    } else {
      assert (a + b)[0] == a[0];
      assert (a + b)[1..] == a[1..] + b;
      FirstWhereAppend(a[1..], b, p);
    }
  }

  /** `hitAll` succeeds exactly at the first shape of the pre-order list
      whose `hit` succeeds. */
  lemma {:induction false} HitAllIsFirstInPreOrder(rs: seq<ShapeRecord>, rank: seq<nat>, h: Handle, hit: Handle -> bool)
    requires Ranked(rs, rank) && Live(rs, h)
    ensures HitAll(rs, rank, h, hit) == FirstWhere(PreOrder(rs, rank, h), hit)
    decreases rank[h], |rs[h].children| + 1
  {
    FirstWhereAppend([h], ChildrenOrder(rs, rank, h, 0), hit);
    assert FirstWhere([h], hit) == if hit(h) then Some(h) else None by {
      assert [h][1..] == [];
    }
    HitChildrenIsFirst(rs, rank, h, 0, hit);
  }

  lemma {:induction false} HitChildrenIsFirst(rs: seq<ShapeRecord>, rank: seq<nat>, h: Handle, k: nat, hit: Handle -> bool)
    requires Ranked(rs, rank) && Live(rs, h) && k <= |rs[h].children|
    ensures HitChildren(rs, rank, h, k, hit) == FirstWhere(ChildrenOrder(rs, rank, h, k), hit)
    decreases rank[h], |rs[h].children| - k
  {
    if k < |rs[h].children| {
      var c := rs[h].children[k];
      assert ChildRanked(rs, rank, h, k);
      var sub := if Live(rs, c) then PreOrder(rs, rank, c) else [];
      FirstWhereAppend(sub, ChildrenOrder(rs, rank, h, k + 1), hit);
      HitChildrenIsFirst(rs, rank, h, k + 1, hit);
      if Live(rs, c) {
        HitAllIsFirstInPreOrder(rs, rank, c, hit);
      }
    }
  }

  /** The comparator handed to `std::sort`: `isAscending == true` selects
      `p1->priority() > p2->priority()`, `false` selects `<`. */
  predicate Before(rs: seq<ShapeRecord>, a: Handle, b: Handle, isAscending: bool)
    requires a < |rs| && b < |rs|
  {
    if isAscending then rs[a].priority > rs[b].priority else rs[a].priority < rs[b].priority
  }

  predicate InArena(rs: seq<ShapeRecord>, s: seq<Handle>)
  {
    forall i :: 0 <= i < |s| ==> s[i] < |rs|
  }

  /** Sorted for the comparator: no element goes before an earlier one. */
  predicate SortedFor(rs: seq<ShapeRecord>, s: seq<Handle>, isAscending: bool)
    requires InArena(rs, s)
  {
    forall i, j :: 0 <= i < j < |s| ==> !Before(rs, s[j], s[i], isAscending)
  }

  /** Despite its name, `isAscending == true` orders by non-increasing
      priority; `false` by non-decreasing priority. */
  lemma SortedForMeaning(rs: seq<ShapeRecord>, s: seq<Handle>, isAscending: bool, i: nat, j: nat)
    requires InArena(rs, s) && SortedFor(rs, s, isAscending) && i < j < |s|
    ensures isAscending ==> rs[s[i]].priority >= rs[s[j]].priority
    ensures !isAscending ==> rs[s[i]].priority <= rs[s[j]].priority
  {
    assert !Before(rs, s[j], s[i], isAscending);
  }

  /** `std::sort(list.begin(), list.end(), func)`, as an insertion sort: the
      result is a sorted permutation of the list. The order that `std::sort`
      gives to shapes of equal priority is not modelled. */
  method SortByPriority(rs: seq<ShapeRecord>, s: seq<Handle>, isAscending: bool) returns (r: seq<Handle>)
    requires InArena(rs, s)
    ensures multiset(r) == multiset(s)
    ensures InArena(rs, r) && SortedFor(rs, r, isAscending)
  {
    r := [];
    var i := 0;
    while i < |s|
      invariant i <= |s|
      invariant multiset(r) == multiset(s[..i])
      invariant InArena(rs, r) && SortedFor(rs, r, isAscending)
    {
      r := InsertSorted(rs, r, s[i], isAscending);
      assert s[..i + 1] == s[..i] + [s[i]];
      i := i + 1;
    }
    assert s[..i] == s;
  }

  /** Inserts `x` before the first element it goes before. */
  method InsertSorted(rs: seq<ShapeRecord>, s: seq<Handle>, x: Handle, isAscending: bool) returns (r: seq<Handle>)
    requires InArena(rs, s) && x < |rs| && SortedFor(rs, s, isAscending)
    ensures multiset(r) == multiset(s) + multiset{x}
    ensures InArena(rs, r) && SortedFor(rs, r, isAscending)
  {
    var j := 0;
    while j < |s| && !Before(rs, x, s[j], isAscending)
      invariant j <= |s|
      invariant forall m :: 0 <= m < j ==> !Before(rs, x, s[m], isAscending)
    {
      j := j + 1;
    }
    r := s[..j] + [x] + s[j..];
    assert s == s[..j] + s[j..];
    InsertKeepsSorted(rs, s, x, isAscending, j);
  }

  lemma InsertKeepsSorted(rs: seq<ShapeRecord>, s: seq<Handle>, x: Handle, isAscending: bool, j: nat)
    requires InArena(rs, s) && x < |rs| && SortedFor(rs, s, isAscending) && j <= |s|
    requires forall m :: 0 <= m < j ==> !Before(rs, x, s[m], isAscending)
    requires j < |s| ==> Before(rs, x, s[j], isAscending)
    ensures InArena(rs, s[..j] + [x] + s[j..])
    ensures SortedFor(rs, s[..j] + [x] + s[j..], isAscending)
  {
    var r := s[..j] + [x] + s[j..];
    assert forall m :: 0 <= m < |r| ==> r[m] == (if m < j then s[m] else if m == j then x else s[m - 1]);
    forall a, b | 0 <= a < b < |r| ensures !Before(rs, r[b], r[a], isAscending) {
      if b == j {
        assert r[a] == s[a];
      } else if a == j {
        assert r[b] == s[b - 1];
        assert !Before(rs, s[b - 1], s[j], isAscending) || b - 1 == j;
      }
    }
  }

  // ---------------------------------------------------------------------------
  // The shapes themselves, edited in place.

  class ShapeArena {
    var records: seq<ShapeRecord>

    constructor ()
      ensures records == []
    {
      records := [];
    }

    /** `Shape(label, material, priority)` owned by a new `shared_ptr`: no
        parent, no children. */
    method Create(name: string, priority: uint32) returns (h: Handle)
      modifies this
      ensures h == |old(records)|
      ensures records == old(records) + [ShapeRecord(name, priority, None, [], true)]
    {
      h := |records|;
      records := records + [ShapeRecord(name, priority, None, [], true)];
    }

    /** The last `shared_ptr` to `h` is released: every `weak_ptr` to it
        expires. */
    method Release(h: Handle)
      requires Live(records, h)
      modifies this
      ensures records == old(records)[h := old(records)[h].(alive := false)]
    {
      records := records[h := records[h].(alive := false)];
    }

    function Label(h: Handle): string
      reads this
      requires Live(records, h)
    {
      records[h].name
    }

    function Priority(h: Handle): uint32
      reads this
      requires Live(records, h)
    {
      records[h].priority
    }

    /** `setLabel(value)` assigns `m_label = label()`, the label it already
        has, so nothing changes. */
    method SetLabel(h: Handle, value: string)
      requires Live(records, h)
      modifies this
      ensures records == old(records)
    {
      records := records[h := records[h].(name := Label(h))];
    }

    method SetPriority(h: Handle, value: uint32)
      requires Live(records, h)
      modifies this
      ensures records == old(records)[h := old(records)[h].(priority := value)]
    {
      records := records[h := records[h].(priority := value)];
    }

    method AddChild(p: Handle, c: Handle)
      requires Live(records, p)
      modifies this
      ensures records == AddChildState(old(records), p, c)
    {
      records := records[p := records[p].(children := records[p].children + [c])];
    }

    method RemoveChild(n: Handle, ptr: Handle)
      requires Live(records, n)
      modifies this
      ensures records == RemoveState(old(records), n, Pointer(ptr))
    {
      var kept := RemoveIf(records, Pointer(ptr), records[n].children);
      records := records[n := records[n].(children := kept)];
    }

    method RemoveAllChildrenWithLabel(n: Handle, name: string)
      requires Live(records, n)
      modifies this
      ensures records == RemoveState(old(records), n, Labelled(name))
    {
      var kept := RemoveIf(records, Labelled(name), records[n].children);
      records := records[n := records[n].(children := kept)];
    }

    method SetParent(n: Handle, q: Option<Handle>)
      requires Live(records, n)
      modifies this
      ensures records == SetParentState(old(records), n, q)
    {
      match records[n].parent {
        case Some(p) =>
          if Live(records, p) {
            RemoveChild(p, n);
          }
        case None =>
      }
      records := records[n := records[n].(parent := q)];
    }

    method BindShapes(p: Handle, c: Handle)
      requires Live(records, p) && Live(records, c)
      modifies this
      ensures records == BindState(old(records), p, c)
    {
      AddChild(p, c);
      SetParent(c, Some(p));
    }

    /** `generatePriorityList(isAscending)` on shape `h`. Without a value the
        result is the pre-order list; with one, a permutation of it sorted for
        the comparator. Only live shapes appear. */
    method GeneratePriorityList(h: Handle, isAscending: Option<bool>, ghost rank: seq<nat>) returns (list: seq<Handle>)
      requires Ranked(records, rank) && Live(records, h)
      ensures isAscending.None? ==> list == PreOrder(records, rank, h)
      ensures multiset(list) == multiset(PreOrder(records, rank, h))
      ensures forall i :: 0 <= i < |list| ==> Live(records, list[i])
      ensures isAscending.Some? ==> InArena(records, list) && SortedFor(records, list, isAscending.value)
      decreases rank[h], 1
    {
      list := Collect(h, isAscending, rank);
      if isAscending.Some? {
        AllInArena(h, list, rank);
        list := SortByPriority(records, list, isAscending.value);
      }
      forall i | 0 <= i < |list| ensures Live(records, list[i]) {
        assert list[i] in multiset(PreOrder(records, rank, h));
        PreOrderLive(records, rank, h, list[i]);
      }
    }

    lemma AllInArena(h: Handle, list: seq<Handle>, rank: seq<nat>)
      requires Ranked(records, rank) && Live(records, h)
      requires multiset(list) == multiset(PreOrder(records, rank, h))
      ensures InArena(records, list)
    {
      forall i | 0 <= i < |list| ensures list[i] < |records| {
        assert list[i] in multiset(PreOrder(records, rank, h));
        PreOrderLive(records, rank, h, list[i]);
      }
    }

    /** The first half of `generatePriorityList`: `h`, then the list of each
        live child appended with `insert`. */
    method Collect(h: Handle, isAscending: Option<bool>, ghost rank: seq<nat>) returns (list: seq<Handle>)
      requires Ranked(records, rank) && Live(records, h)
      ensures isAscending.None? ==> list == PreOrder(records, rank, h)
      ensures multiset(list) == multiset(PreOrder(records, rank, h))
      decreases rank[h], 0
    {
      list := [h];
      var children := records[h].children;
      var k := 0;
      while k < |children|
        invariant k <= |children|
        invariant isAscending.None? ==> list + ChildrenOrder(records, rank, h, k) == PreOrder(records, rank, h)
        invariant multiset(list) + multiset(ChildrenOrder(records, rank, h, k)) == multiset(PreOrder(records, rank, h))
      {
        var child := children[k];
        var part := [];
        assert ChildRanked(records, rank, h, k);
        if Live(records, child) {
          part := GeneratePriorityList(child, isAscending, rank);
        }
        CollectStep(records, rank, h, k, isAscending.None?, list, part);
        list := list + part;
        k := k + 1;
      }
    }
  }

  /** One step of the loop over the children: appending the list of child
      `k` (a permutation of its pre-order list, or exactly that list when no
      sort happens; nothing for an expired child) keeps the loop invariants. */
  lemma CollectStep(rs: seq<ShapeRecord>, rank: seq<nat>, h: Handle, k: nat, unsorted: bool,
                    list: seq<Handle>, part: seq<Handle>)
    requires Ranked(rs, rank) && Live(rs, h) && k < |rs[h].children|
    requires Live(rs, rs[h].children[k]) ==>
      multiset(part) == multiset(PreOrder(rs, rank, rs[h].children[k])) &&
      (unsorted ==> part == PreOrder(rs, rank, rs[h].children[k]))
    requires !Live(rs, rs[h].children[k]) ==> part == []
    requires unsorted ==> list + ChildrenOrder(rs, rank, h, k) == PreOrder(rs, rank, h)
    requires multiset(list) + multiset(ChildrenOrder(rs, rank, h, k)) == multiset(PreOrder(rs, rank, h))
    ensures unsorted ==> (list + part) + ChildrenOrder(rs, rank, h, k + 1) == PreOrder(rs, rank, h)
    ensures multiset(list + part) + multiset(ChildrenOrder(rs, rank, h, k + 1)) == multiset(PreOrder(rs, rank, h))
  {
    var rest := ChildrenOrder(rs, rank, h, k + 1);
    var c := rs[h].children[k];
    var sub := if Live(rs, c) then PreOrder(rs, rank, c) else [];
    assert ChildrenOrder(rs, rank, h, k) == sub + rest;
    Seqs.AppendAssoc(list, part, rest);
    if unsorted {
      assert part == sub;
    }
  }

  /** `erase(remove_if(begin, end, lambda), end)`: one pass that keeps, in
      order, the entries the lambda does not remove. */
  method RemoveIf(rs: seq<ShapeRecord>, d: Doomed, s: seq<Handle>) returns (kept: seq<Handle>)
    ensures kept == Survivors(rs, d, s)
  {
    kept := [];
    var i := 0;
    while i < |s|
      invariant i <= |s|
      invariant kept == Survivors(rs, d, s[..i])
    {
      assert s[..i + 1][..i] == s[..i];
      if !Removed(rs, d, s[i]) {
        kept := kept + [s[i]];
      }
      i := i + 1;
    }
    assert s[..i] == s;
  }
}
