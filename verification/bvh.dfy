/** The bounding-volume hierarchy of render/bvh.py: a binary tree laid out
    in one flat list in pre-order (a node, then its left subtree, then its
    right subtree), with threaded `next_id` links for stackless traversal. */
module Bvh {
  import opened Vector
  import opened Rays
  import opened Options
  import opened MeshExport

  /** A node: its box, the primitive id of a leaf (-1 for an internal
      node), child ids (-1 for a leaf), the parent id (-1 for the root) and
      the threaded next id (-1 when the walk ends). */
  datatype BvhNode = BvhNode(boxMin: Vec3, boxMax: Vec3, objId: int,
                             leftId: int, rightId: int, parentId: int, nextId: int)

  // ---------------------------------------------------------------------
  // Boxes and centres

  /** `surrounding_box`: the smallest box containing both boxes. */
  function SurroundingBox(min1: Vec3, max1: Vec3, min2: Vec3, max2: Vec3): (box: (Vec3, Vec3))
    ensures Le3(box.0, min1) && Le3(box.0, min2)
    ensures Le3(max1, box.1) && Le3(max2, box.1)
    ensures (box.0.x == min1.x || box.0.x == min2.x) && (box.0.y == min1.y || box.0.y == min2.y) &&
            (box.0.z == min1.z || box.0.z == min2.z)
    ensures (box.1.x == max1.x || box.1.x == max2.x) && (box.1.y == max1.y || box.1.y == max2.y) &&
            (box.1.z == max1.z || box.1.z == max2.z)
  {
    (Min3(min1, min2), Max3(max1, max2))
  }

  /** `get_center`: the midpoint of the node's box, which lies inside a
      well-formed box. */
  function Center(n: BvhNode): (c: Vec3)
    ensures Le3(n.boxMin, n.boxMax) ==> Le3(n.boxMin, c) && Le3(c, n.boxMax)
    ensures c.x - n.boxMin.x == n.boxMax.x - c.x && c.y - n.boxMin.y == n.boxMax.y - c.y
    ensures c.z - n.boxMin.z == n.boxMax.z - c.z
  {
    Vec3((n.boxMin.x + n.boxMax.x) / 2.0, (n.boxMin.y + n.boxMax.y) / 2.0, (n.boxMin.z + n.boxMax.z) / 2.0)
  }

  /** The sort key of a node on an axis: its centre's coordinate. */
  function Key(n: BvhNode, axis: nat): real
    requires axis < 3
  {
    Comp(Center(n), axis)
  }

  // ---------------------------------------------------------------------
  // Axis choice

  /** `min([center[axis] for center in centers])`. */
  function MinKey(nodes: seq<BvhNode>, axis: nat): (m: real)
    requires |nodes| > 0 && axis < 3
    ensures forall i :: 0 <= i < |nodes| ==> m <= Key(nodes[i], axis)
    ensures exists i :: 0 <= i < |nodes| && m == Key(nodes[i], axis)
  {
    if |nodes| == 1 then Key(nodes[0], axis)
    else
      var rest := MinKey(nodes[1..], axis);
      assert forall i :: 1 <= i < |nodes| ==> nodes[i] == nodes[1..][i - 1];
      MinR(Key(nodes[0], axis), rest)
  }

  /** `max([center[axis] for center in centers])`. */
  function MaxKey(nodes: seq<BvhNode>, axis: nat): (m: real)
    requires |nodes| > 0 && axis < 3
    ensures forall i :: 0 <= i < |nodes| ==> Key(nodes[i], axis) <= m
    ensures exists i :: 0 <= i < |nodes| && m == Key(nodes[i], axis)
  {
    if |nodes| == 1 then Key(nodes[0], axis)
    else
      var rest := MaxKey(nodes[1..], axis);
      assert forall i :: 1 <= i < |nodes| ==> nodes[i] == nodes[1..][i - 1];
      MaxR(Key(nodes[0], axis), rest)
  }

  /** The extent of the centres along an axis. */
  function Span(nodes: seq<BvhNode>, axis: nat): real
    requires |nodes| > 0 && axis < 3
  {
    MaxKey(nodes, axis) - MinKey(nodes, axis)
  }

  /** The split axis of `sort_obj_list`: the first axis (x, then y, then z)
      whose centroid span is the largest. */
  function SplitAxis(nodes: seq<BvhNode>): (axis: nat)
    requires |nodes| > 0
    ensures axis < 3
    ensures Span(nodes, 0) <= Span(nodes, axis) && Span(nodes, 1) <= Span(nodes, axis) &&
            Span(nodes, 2) <= Span(nodes, axis)
    ensures axis > 0 ==> Span(nodes, 0) < Span(nodes, axis)
    ensures axis > 1 ==> Span(nodes, 1) < Span(nodes, axis)
  {
    var sx, sy, sz := Span(nodes, 0), Span(nodes, 1), Span(nodes, 2);
    if sx >= sy && sx >= sz then 0
    else if sy >= sz then 1
    else 2
  }

  // ---------------------------------------------------------------------
  // Stable sort by key (Python's list.sort is stable)

  ghost predicate SortedBy(s: seq<BvhNode>, axis: nat)
    requires axis < 3
  {
    forall i, j :: 0 <= i < j < |s| ==> Key(s[i], axis) <= Key(s[j], axis)
  }

  /** Inserts x in front of the first element whose key is not smaller. */
  function InsertByKey(x: BvhNode, s: seq<BvhNode>, axis: nat): (r: seq<BvhNode>)
    requires axis < 3
    ensures |r| == |s| + 1
  {
    if s == [] || Key(x, axis) <= Key(s[0], axis) then [x] + s
    else [s[0]] + InsertByKey(x, s[1..], axis)
  }

  /** Insertion sort by key, which like Python's `list.sort` is stable. */
  function SortByKey(s: seq<BvhNode>, axis: nat): (r: seq<BvhNode>)
    requires axis < 3
    ensures |r| == |s|
  {
    if s == [] then [] else InsertByKey(s[0], SortByKey(s[1..], axis), axis)
  }

  lemma {:induction false} InsertByKeyPermutes(x: BvhNode, s: seq<BvhNode>, axis: nat)
    requires axis < 3
    ensures multiset(InsertByKey(x, s, axis)) == multiset(s) + multiset{x}
  {
    if s != [] && Key(x, axis) > Key(s[0], axis) {
      InsertByKeyPermutes(x, s[1..], axis);
      assert s == [s[0]] + s[1..];
    }
  }

  /** A lower bound on the keys of x and of s bounds the keys after insertion. */
  lemma {:induction false} InsertByKeyAbove(x: BvhNode, s: seq<BvhNode>, axis: nat, lo: real)
    requires axis < 3 && lo <= Key(x, axis)
    requires forall i :: 0 <= i < |s| ==> lo <= Key(s[i], axis)
    ensures forall i :: 0 <= i < |InsertByKey(x, s, axis)| ==> lo <= Key(InsertByKey(x, s, axis)[i], axis)
  {
    var r := InsertByKey(x, s, axis);
    if s != [] && Key(x, axis) > Key(s[0], axis) {
      var rest := InsertByKey(x, s[1..], axis);
      forall i | 0 <= i < |s[1..]| ensures lo <= Key(s[1..][i], axis) {
        assert s[1..][i] == s[i + 1];
      }
      InsertByKeyAbove(x, s[1..], axis, lo);
      forall i | 0 <= i < |r| ensures lo <= Key(r[i], axis) {
        if i > 0 {
          assert r[i] == rest[i - 1];
        }
      }
    } else {
      forall i | 0 <= i < |r| ensures lo <= Key(r[i], axis) {
        if i > 0 {
          assert r[i] == s[i - 1];
        }
      }
    }
  }

  lemma {:induction false} InsertByKeySorted(x: BvhNode, s: seq<BvhNode>, axis: nat)
    requires axis < 3 && SortedBy(s, axis)
    ensures SortedBy(InsertByKey(x, s, axis), axis)
  {
    if s != [] && Key(x, axis) > Key(s[0], axis) {
      var rest := InsertByKey(x, s[1..], axis);
      InsertByKeySorted(x, s[1..], axis);
      forall i | 0 <= i < |s[1..]| ensures Key(s[0], axis) <= Key(s[1..][i], axis) {
        assert s[1..][i] == s[i + 1];
      }
      InsertByKeyAbove(x, s[1..], axis, Key(s[0], axis));
      var r := [s[0]] + rest;
      forall i, j | 0 <= i < j < |r| ensures Key(r[i], axis) <= Key(r[j], axis) {
        assert r[j] == rest[j - 1];
        if i > 0 {
          assert r[i] == rest[i - 1];
        }
      }
    }
  }

  /** Sorting yields a sorted permutation of its input. */
  lemma SortByKeySorted(s: seq<BvhNode>, axis: nat)
    requires axis < 3
    ensures SortedBy(SortByKey(s, axis), axis)
    ensures multiset(SortByKey(s, axis)) == multiset(s)
  {
    SortByKeyOrdered(s, axis);
    SortByKeyPermutes(s, axis);
  }

  lemma {:induction false} SortByKeyOrdered(s: seq<BvhNode>, axis: nat)
    requires axis < 3
    ensures SortedBy(SortByKey(s, axis), axis)
  {
    if s != [] {
      SortByKeyOrdered(s[1..], axis);
      InsertByKeySorted(s[0], SortByKey(s[1..], axis), axis);
    }
  }

  lemma {:induction false} SortByKeyPermutes(s: seq<BvhNode>, axis: nat)
    requires axis < 3
    ensures multiset(SortByKey(s, axis)) == multiset(s)
  {
    if s != [] {
      SortByKeyPermutes(s[1..], axis);
      InsertByKeyPermutes(s[0], SortByKey(s[1..], axis), axis);
      assert s == [s[0]] + s[1..];
    }
  }

  /** The elements whose key equals v, in order. */
  function WithKey(s: seq<BvhNode>, axis: nat, v: real): seq<BvhNode>
    requires axis < 3
  {
    if s == [] then []
    else (if Key(s[0], axis) == v then [s[0]] else []) + WithKey(s[1..], axis, v)
  }

  lemma {:induction false} InsertWithKey(x: BvhNode, s: seq<BvhNode>, axis: nat, v: real)
    requires axis < 3
    ensures WithKey(InsertByKey(x, s, axis), axis, v) ==
            (if Key(x, axis) == v then [x] else []) + WithKey(s, axis, v)
  {
    if s == [] || Key(x, axis) <= Key(s[0], axis) {
      var r := [x] + s;
      assert r[1..] == s;
    } else {
      var rest := InsertByKey(x, s[1..], axis);
      InsertWithKey(x, s[1..], axis, v);
      var a: seq<BvhNode> := if Key(s[0], axis) == v then [s[0]] else [];
      var xa: seq<BvhNode> := if Key(x, axis) == v then [x] else [];
      assert ([s[0]] + rest)[0] == s[0] && ([s[0]] + rest)[1..] == rest;
      assert WithKey([s[0]] + rest, axis, v) == a + WithKey(rest, axis, v);
      assert WithKey(s, axis, v) == a + WithKey(s[1..], axis, v);
      if Key(x, axis) == v {
        assert a == [];
        assert a + (xa + WithKey(s[1..], axis, v)) == xa + (a + WithKey(s[1..], axis, v));
      } else {
        assert xa == [];
        assert a + (xa + WithKey(s[1..], axis, v)) == xa + (a + WithKey(s[1..], axis, v));
      }
    }
  }

  /** Stability: sorting keeps the relative order of the elements that share
      a key. Together with sortedness and permutation this pins the result. */
  lemma {:induction false} SortStable(s: seq<BvhNode>, axis: nat, v: real)
    requires axis < 3
    ensures WithKey(SortByKey(s, axis), axis, v) == WithKey(s, axis, v)
  {
    if s != [] {
      SortStable(s[1..], axis, v);
      InsertWithKey(s[0], SortByKey(s[1..], axis), axis, v);
    }
  }

  /** `sort_obj_list`: sorts by centre on the axis of largest centroid span.
      On an empty list the source raises (`min([])`). */
  function SortObjList(nodes: seq<BvhNode>): (r: Option<seq<BvhNode>>)
    ensures r.None? <==> |nodes| == 0
    ensures r.Some? ==> |r.value| == |nodes|
  {
    if |nodes| == 0 then None else Some(SortByKey(nodes, SplitAxis(nodes)))
  }

  /** What `sort_obj_list` promises: a permutation of its input, sorted by
      centre on the split axis, with equal keys in their original order. */
  lemma SortObjListSpec(nodes: seq<BvhNode>)
    requires |nodes| > 0
    ensures SortedBy(SortObjList(nodes).value, SplitAxis(nodes))
    ensures multiset(SortObjList(nodes).value) == multiset(nodes)
    ensures forall v :: WithKey(SortObjList(nodes).value, SplitAxis(nodes), v) == WithKey(nodes, SplitAxis(nodes), v)
  {
    SortByKeySorted(nodes, SplitAxis(nodes));
    forall v ensures WithKey(SortObjList(nodes).value, SplitAxis(nodes), v) == WithKey(nodes, SplitAxis(nodes), v) {
      SortStable(nodes, SplitAxis(nodes), v);
    }
  }

  // ---------------------------------------------------------------------
  // Tree shape

  /** The shape of the leaves the builders hand to `build_bvh_inner`: a
      primitive id (never the internal marker -1) and no children. */
  ghost predicate LeafInputs(nodes: seq<BvhNode>)
  {
    forall i :: 0 <= i < |nodes| ==> nodes[i].objId != -1 && nodes[i].leftId == -1 && nodes[i].rightId == -1
  }

  /** g[lo..hi) is a pre-order subtree whose node at position i has id
      i + off and whose root's parent id is p: a leaf alone, or an internal
      node (obj_id -1) followed by its left subtree, which starts right
      after it, and its right subtree, which starts at right_id, with the
      surround of the two children's boxes as its box. */
  ghost predicate Tree(g: seq<BvhNode>, lo: nat, hi: nat, p: int, off: int)
    decreases hi - lo
  {
    lo < hi <= |g| && g[lo].parentId == p &&
    if g[lo].objId != -1 then
      hi == lo + 1 && g[lo].leftId == -1 && g[lo].rightId == -1
    else
      var r := g[lo].rightId - off;
      g[lo].leftId == lo + 1 + off && lo + 1 < r < hi &&
      Tree(g, lo + 1, r, lo + off, off) && Tree(g, r, hi, lo + off, off) &&
      (g[lo].boxMin, g[lo].boxMax) == SurroundingBox(g[lo + 1].boxMin, g[lo + 1].boxMax, g[r].boxMin, g[r].boxMax)
  }

  /** t appears in g starting at position pos. */
  ghost predicate EmbeddedAt(g: seq<BvhNode>, pos: nat, t: seq<BvhNode>)
  {
    pos + |t| <= |g| && forall k :: 0 <= k < |t| ==> g[pos + k] == t[k]
  }

  /** A subtree keeps its ids when the list holding it is copied into a
      larger one: positions move by pos, so the offset moves by -pos. */
  lemma {:induction false} TreeEmbedded(t: seq<BvhNode>, lo: nat, hi: nat, p: int, off: int, g: seq<BvhNode>, pos: nat)
    requires Tree(t, lo, hi, p, off) && EmbeddedAt(g, pos, t)
    ensures Tree(g, pos + lo, pos + hi, p, off - pos)
    decreases hi - lo
  {
    assert g[pos + lo] == t[lo];
    if t[lo].objId == -1 {
      var r := t[lo].rightId - off;
      TreeEmbedded(t, lo + 1, r, lo + off, off, g, pos);
      TreeEmbedded(t, r, hi, lo + off, off, g, pos);
      assert g[pos + lo + 1] == t[lo + 1] && g[pos + r] == t[r];
    }
  }

  // ---------------------------------------------------------------------
  // Leaf ids

  /** The primitive ids of the leaves, in list order. */
  function LeafIds(t: seq<BvhNode>): (ids: seq<int>)
    ensures |ids| <= |t|
    ensures forall i :: 0 <= i < |ids| ==> ids[i] != -1
  {
    if t == [] then []
    else (if t[0].objId != -1 then [t[0].objId] else []) + LeafIds(t[1..])
  }

  lemma {:induction false} LeafIdsAppend(a: seq<BvhNode>, b: seq<BvhNode>)
    ensures LeafIds(a + b) == LeafIds(a) + LeafIds(b)
  {
    if a != [] {
      assert (a + b)[1..] == a[1..] + b;
      LeafIdsAppend(a[1..], b);
    } else {
      assert a + b == b;
    }
  }

  lemma LeafIdsCons(s: seq<BvhNode>)
    requires s != []
    ensures LeafIds(s) == LeafIds([s[0]]) + LeafIds(s[1..])
  {
    assert [s[0]][1..] == [];
  }

  lemma {:induction false} LeafIdsInsert(x: BvhNode, s: seq<BvhNode>, axis: nat)
    requires axis < 3
    ensures multiset(LeafIds(InsertByKey(x, s, axis))) == multiset(LeafIds([x])) + multiset(LeafIds(s))
  {
    LeafIdsAppend([x], s);
    if s != [] && Key(x, axis) > Key(s[0], axis) {
      var rest := InsertByKey(x, s[1..], axis);
      assert InsertByKey(x, s, axis) == [s[0]] + rest;
      LeafIdsInsert(x, s[1..], axis);
      LeafIdsAppend([s[0]], rest);
      LeafIdsCons(s);
    } else {
      assert InsertByKey(x, s, axis) == [x] + s;
    }
  }

  /** Sorting permutes the leaf ids. */
  lemma {:induction false} LeafIdsSort(s: seq<BvhNode>, axis: nat)
    requires axis < 3
    ensures multiset(LeafIds(SortByKey(s, axis))) == multiset(LeafIds(s))
  {
    if s != [] {
      var rest := SortByKey(s[1..], axis);
      assert SortByKey(s, axis) == InsertByKey(s[0], rest, axis);
      LeafIdsSort(s[1..], axis);
      LeafIdsInsert(s[0], rest, axis);
      LeafIdsCons(s);
    }
  }

  /** A permutation of leaf inputs holds leaf inputs. */
  lemma PermutationKeepsLeaves(a: seq<BvhNode>, b: seq<BvhNode>)
    requires multiset(a) == multiset(b)
    ensures LeafInputs(a) ==> LeafInputs(b)
  {
    if LeafInputs(a) {
      forall i | 0 <= i < |b| ensures b[i].objId != -1 && b[i].leftId == -1 && b[i].rightId == -1 {
        assert b[i] in multiset(a);
      }
    }
  }

  /** Sorting keeps leaf inputs leaf inputs and permutes their ids. */
  lemma SortObjListLeaves(nodes: seq<BvhNode>)
    requires |nodes| > 0
    ensures LeafInputs(nodes) ==> LeafInputs(SortObjList(nodes).value)
    ensures multiset(LeafIds(SortObjList(nodes).value)) == multiset(LeafIds(nodes))
  {
    SortByKeySorted(nodes, SplitAxis(nodes));
    PermutationKeepsLeaves(nodes, SortObjList(nodes).value);
    LeafIdsSort(nodes, SplitAxis(nodes));
  }

  /** Both halves of a split list of leaf inputs are leaf inputs. */
  lemma LeafInputsHalves(s: seq<BvhNode>, mid: nat)
    requires mid <= |s|
    ensures LeafInputs(s) ==> LeafInputs(s[..mid]) && LeafInputs(s[mid..])
  {
  }

  /** The leaf ids of a split list are those of its halves. */
  lemma LeafIdsSplit(s: seq<BvhNode>, mid: nat)
    requires mid <= |s|
    ensures LeafIds(s) == LeafIds(s[..mid]) + LeafIds(s[mid..])
  {
    assert s == s[..mid] + s[mid..];
    LeafIdsAppend(s[..mid], s[mid..]);
  }

  // ---------------------------------------------------------------------
  // Construction

  /** An internal node with id currId over the two subtree lists, followed
      by them: its children are their first entries, its box their boxes'
      surround. */
  function Join(left: seq<BvhNode>, right: seq<BvhNode>, parentId: int, currId: int): (out: seq<BvhNode>)
    requires |left| >= 1 && |right| >= 1
    ensures |out| == 1 + |left| + |right|
    ensures EmbeddedAt(out, 1, left) && EmbeddedAt(out, 1 + |left|, right)
    ensures out[0].objId == -1 && out[0].leftId == currId + 1 && out[0].rightId == currId + 1 + |left|
    ensures out[0].parentId == parentId && out[0].nextId == -1
    ensures (out[0].boxMin, out[0].boxMax) == SurroundingBox(left[0].boxMin, left[0].boxMax, right[0].boxMin, right[0].boxMax)
    ensures LeafIds(out) == LeafIds(left) + LeafIds(right)
  {
    var box := SurroundingBox(left[0].boxMin, left[0].boxMax, right[0].boxMin, right[0].boxMax);
    var node := BvhNode(box.0, box.1, -1, currId + 1, currId + |left| + 1, parentId, -1);
    LeafIdsAppend([node], left);
    LeafIdsAppend([node] + left, right);
    assert ([node] + left + right)[1..] == left + right;
    [node] + left + right
  }

  /** The internal-node case of Tree, folded back up. */
  lemma InternalTree(g: seq<BvhNode>, lo: nat, hi: nat, p: int, off: int, r: int)
    requires lo < hi <= |g| && g[lo].parentId == p && g[lo].objId == -1
    requires g[lo].leftId == lo + 1 + off && r == g[lo].rightId - off && lo + 1 < r < hi
    requires Tree(g, lo + 1, r, lo + off, off) && Tree(g, r, hi, lo + off, off)
    requires (g[lo].boxMin, g[lo].boxMax) == SurroundingBox(g[lo + 1].boxMin, g[lo + 1].boxMax, g[r].boxMin, g[r].boxMax)
    ensures Tree(g, lo, hi, p, off)
  {
  }

  /** Joining two subtrees, numbered right after the new node, gives a tree. */
  lemma JoinTree(left: seq<BvhNode>, right: seq<BvhNode>, parentId: int, currId: int)
    requires |left| >= 1 && |right| >= 1
    ensures Tree(left, 0, |left|, currId, currId + 1) && Tree(right, 0, |right|, currId, currId + |left| + 1) ==>
            Tree(Join(left, right, parentId, currId), 0, |Join(left, right, parentId, currId)|, parentId, currId)
  {
    var out := Join(left, right, parentId, currId);
    if Tree(left, 0, |left|, currId, currId + 1) && Tree(right, 0, |right|, currId, currId + |left| + 1) {
      JoinedTree(out, left, right, parentId, currId);
    }
  }

  /** The tree argument of JoinTree on any list laid out as Join lays it out. */
  lemma JoinedTree(out: seq<BvhNode>, left: seq<BvhNode>, right: seq<BvhNode>, parentId: int, currId: int)
    requires |left| >= 1 && |right| >= 1 && |out| == 1 + |left| + |right|
    requires EmbeddedAt(out, 1, left) && EmbeddedAt(out, 1 + |left|, right)
    requires out[0].objId == -1 && out[0].leftId == currId + 1 && out[0].rightId == currId + 1 + |left|
    requires out[0].parentId == parentId
    requires (out[0].boxMin, out[0].boxMax) == SurroundingBox(left[0].boxMin, left[0].boxMax, right[0].boxMin, right[0].boxMax)
    requires Tree(left, 0, |left|, currId, currId + 1) && Tree(right, 0, |right|, currId, currId + |left| + 1)
    ensures Tree(out, 0, |out|, parentId, currId)
  {
    var r := 1 + |left|;
    TreeEmbedded(left, 0, |left|, currId, currId + 1, out, 1);
    TreeEmbedded(right, 0, |right|, currId, currId + |left| + 1, out, r);
    assert out[1 + 0] == left[0] && out[r + 0] == right[0];
    InternalTree(out, 0, |out|, parentId, currId, r);
  }

  /** A single leaf input with its parent id set is a one-node tree. */
  lemma LeafTree(nodes: seq<BvhNode>, parentId: int, currId: int)
    requires |nodes| == 1
    ensures LeafInputs(nodes) ==> Tree([nodes[0].(parentId := parentId)], 0, 1, parentId, currId)
    ensures LeafIds([nodes[0].(parentId := parentId)]) == LeafIds(nodes)
  {
    assert nodes[1..] == [];
  }

  /** `build_bvh_inner(nodes, parent_id, curr_id)`: the subtree over nodes,
      its root getting id curr_id. A single primitive becomes a leaf whose
      parent id is set; otherwise the list is sorted and split at its
      middle, the left half's subtree takes the ids from curr_id + 1 and
      the right half's the ids right after it. The output is a pre-order
      tree of 2n - 1 nodes whose leaves carry exactly the input's primitive
      ids. The empty list makes the source raise; see `BuildBvh`. */
  function BuildBvhInner(nodes: seq<BvhNode>, parentId: int, currId: int): (out: seq<BvhNode>)
    requires |nodes| >= 1
    ensures |out| == 2 * |nodes| - 1
    ensures LeafInputs(nodes) ==> Tree(out, 0, |out|, parentId, currId)
    ensures multiset(LeafIds(out)) == multiset(LeafIds(nodes))
    decreases |nodes|
  {
    if |nodes| == 1 then
      LeafTree(nodes, parentId, currId);
      [nodes[0].(parentId := parentId)]
    else
      var sorted := SortObjList(nodes).value;
      var mid := |nodes| / 2;
      var left := BuildBvhInner(sorted[..mid], currId, currId + 1);
      var right := BuildBvhInner(sorted[mid..], currId, currId + |left| + 1);
      var out := Join(left, right, parentId, currId);
      SortObjListLeaves(nodes);
      LeafInputsHalves(sorted, mid);
      LeafIdsSplit(sorted, mid);
      JoinTree(left, right, parentId, currId);
      out
  }

  // ---------------------------------------------------------------------
  // Links of a built tree (ids equal positions)

  /** Every parent id is -1 or an earlier position: what makes the
      upward walk of `set_next_id_links` end. */
  ghost predicate ParentsBefore(g: seq<BvhNode>)
  {
    forall i :: 0 <= i < |g| ==> g[i].parentId == -1 || 0 <= g[i].parentId < i
  }

  /** The number of nodes in the subtree rooted at k, read off the links:
      a leaf is one node, an internal node spans up to its right child
      and then the right child's subtree. */
  ghost function Size(g: seq<BvhNode>, k: nat): nat
    requires k < |g|
    decreases |g| - k
  {
    var r := g[k].rightId;
    if g[k].objId != -1 || r <= k || r >= |g| then 1 else (r - k) + Size(g, r)
  }

  /** A subtree over [lo, hi) has hi - lo nodes by Size. */
  lemma {:induction false} TreeSize(g: seq<BvhNode>, lo: nat, hi: nat, p: int)
    requires Tree(g, lo, hi, p, 0)
    ensures Size(g, lo) == hi - lo
    decreases hi - lo
  {
    if g[lo].objId == -1 {
      TreeSize(g, g[lo].rightId, hi, lo);
    }
  }

  /** Inside a subtree every node k roots a subtree of its own, of
      Size(g, k) nodes, that ends within it. */
  lemma {:induction false} SubtreeAt(g: seq<BvhNode>, lo: nat, hi: nat, p: int, k: nat)
    requires Tree(g, lo, hi, p, 0) && lo <= k < hi
    ensures k + Size(g, k) <= hi && Tree(g, k, k + Size(g, k), g[k].parentId, 0)
    decreases hi - lo
  {
    TreeSize(g, lo, hi, p);
    if k != lo {
      var r := g[lo].rightId;
      if k < r {
        SubtreeAt(g, lo + 1, r, lo, k);
      } else {
        SubtreeAt(g, r, hi, lo, k);
      }
    }
  }

  /** Parent and child links agree inside a subtree: an internal node's
      children name it as their parent, and every node but the root names
      an internal node before it that has it as a child. */
  lemma {:induction false} TreeLinks(g: seq<BvhNode>, lo: nat, hi: nat, p: int)
    requires Tree(g, lo, hi, p, 0)
    ensures forall k :: lo <= k < hi && g[k].objId == -1 ==>
              k + 1 < g[k].rightId < hi && g[k].leftId == k + 1 &&
              g[k + 1].parentId == k && g[g[k].rightId].parentId == k
    ensures forall k :: lo < k < hi ==>
              var q := g[k].parentId;
              lo <= q < k && g[q].objId == -1 && (g[q].leftId == k || g[q].rightId == k)
    decreases hi - lo
  {
    if g[lo].objId == -1 {
      var r := g[lo].rightId;
      assert Tree(g, lo + 1, r, lo, 0) && Tree(g, r, hi, lo, 0);
      TreeLinks(g, lo + 1, r, lo);
      TreeLinks(g, r, hi, lo);
      assert g[lo + 1].parentId == lo && g[r].parentId == lo;
      forall k | lo <= k < hi && g[k].objId == -1
        ensures k + 1 < g[k].rightId < hi && g[k].leftId == k + 1 &&
                g[k + 1].parentId == k && g[g[k].rightId].parentId == k
      {
        if k == lo {
        } else if k < r {
        } else {
        }
      }
      forall k | lo < k < hi
        ensures var q := g[k].parentId;
                lo <= q < k && g[q].objId == -1 && (g[q].leftId == k || g[q].rightId == k)
      {
        if k == lo + 1 || k == r {
        } else if k < r {
        } else {
        }
      }
    }
  }

  /** A whole tree built from leaves: parents come before children and the
      root alone has parent -1. */
  lemma WholeTreeParents(g: seq<BvhNode>)
    requires Tree(g, 0, |g|, -1, 0)
    ensures ParentsBefore(g)
    ensures forall k :: 0 < k < |g| ==> g[k].parentId != -1
  {
    TreeLinks(g, 0, |g|, -1);
  }

  /** `inner_loop(node_id)`: walk up from the node until an ancestor has a
      right sibling other than the node walked from; -1 when the root is
      reached. */
  function NextOf(g: seq<BvhNode>, i: nat): int
    requires ParentsBefore(g) && i < |g|
    decreases i
  {
    var q := g[i].parentId;
    if q == -1 then -1
    else if g[q].rightId != -1 && g[q].rightId != i then g[q].rightId
    else NextOf(g, q)
  }

  /** Threading inside a subtree: a node's next is the position right after
      its own subtree, or the subtree root's next when it is last. */
  lemma {:induction false} NextInSubtree(g: seq<BvhNode>, lo: nat, hi: nat, p: int)
    requires Tree(g, lo, hi, p, 0) && ParentsBefore(g)
    ensures forall k :: lo <= k < hi ==>
              NextOf(g, k) == if k + Size(g, k) < hi then k + Size(g, k) else NextOf(g, lo)
    decreases hi - lo
  {
    TreeSize(g, lo, hi, p);
    if g[lo].objId == -1 {
      var r := g[lo].rightId;
      NextInSubtree(g, lo + 1, r, lo);
      NextInSubtree(g, r, hi, lo);
      assert NextOf(g, lo + 1) == r;
      assert NextOf(g, r) == NextOf(g, lo);
      forall k | lo + 1 <= k < r ensures k + Size(g, k) <= r {
        SubtreeAt(g, lo + 1, r, lo, k);
      }
    }
  }

  /** `set_next_id_links` on a whole tree: each node's next is the first
      position after its subtree, -1 for the nodes on the rightmost path;
      in particular a left child's next is its parent's right child. */
  lemma NextLinks(g: seq<BvhNode>)
    requires Tree(g, 0, |g|, -1, 0)
    ensures ParentsBefore(g)
    ensures forall k :: 0 <= k < |g| ==>
              NextOf(g, k) == if k + Size(g, k) < |g| then k + Size(g, k) else -1
    ensures NextOf(g, 0) == -1
    ensures forall k :: 0 <= k < |g| && g[k].objId == -1 ==> k + 1 < |g| && NextOf(g, k + 1) == g[k].rightId
  {
    WholeTreeParents(g);
    NextInSubtree(g, 0, |g|, -1);
    TreeLinks(g, 0, |g|, -1);
    forall k | 0 <= k < |g| && g[k].objId == -1 ensures k + 1 < |g| && NextOf(g, k + 1) == g[k].rightId {
      SubtreeAt(g, 0, |g|, -1, k);
      TreeSize(g, k + 1, g[k].rightId, k);
    }
  }

  // ---------------------------------------------------------------------
  // set_next_id_links

  /** g and h agree on the fields the upward walk reads. */
  ghost predicate SameLinks(g: seq<BvhNode>, h: seq<BvhNode>)
  {
    |g| == |h| && forall i :: 0 <= i < |g| ==> g[i].parentId == h[i].parentId && g[i].rightId == h[i].rightId
  }

  lemma {:induction false} NextOfSameLinks(g: seq<BvhNode>, h: seq<BvhNode>, i: nat)
    requires SameLinks(g, h) && ParentsBefore(g) && i < |g|
    ensures ParentsBefore(h) && NextOf(g, i) == NextOf(h, i)
    decreases i
  {
    var q := g[i].parentId;
    if q != -1 && !(g[q].rightId != -1 && g[q].rightId != i) {
      NextOfSameLinks(g, h, q);
    }
  }

  /** The list with every node's next id set by the upward walk. */
  ghost function WithNextLinks(g: seq<BvhNode>): (out: seq<BvhNode>)
    requires ParentsBefore(g)
    ensures |out| == |g|
  {
    seq(|g|, i requires 0 <= i < |g| => g[i].(nextId := NextOf(g, i)))
  }

  /** `set_next_id_links`: sets each node's next id in list order. The walk
      reads only parent and right ids, which the loop leaves alone, so every
      node gets the link computed on the original list. */
  method SetNextIdLinks(a: array<BvhNode>)
    requires ParentsBefore(a[..])
    modifies a
    ensures ParentsBefore(old(a[..])) && a[..] == WithNextLinks(old(a[..]))
  {
    ghost var g := a[..];
    var i := 0;
    while i < a.Length
      invariant 0 <= i <= a.Length
      invariant SameLinks(g, a[..])
      invariant forall j :: 0 <= j < i ==> a[j] == g[j].(nextId := NextOf(g, j))
      invariant forall j :: i <= j < a.Length ==> a[j] == g[j]
    {
      NextOfSameLinks(g, a[..], i);
      a[i] := a[i].(nextId := NextOf(a[..], i));
      i := i + 1;
    }
  }

  // ---------------------------------------------------------------------
  // get_mesh_bvh_nodes

  /** Every corner index of every triangle names a vertex. */
  predicate TrisInRange(tris: seq<Tri>, verts: seq<Vec3>)
  {
    forall i :: 0 <= i < |tris| ==> tris[i].a < |verts| && tris[i].b < |verts| && tris[i].c < |verts|
  }

  /** The leaf for triangle i: the componentwise bounds of its corners
      (`get_tri_box`), primitive id i + id_offset, no children, parent 0
      (overwritten by the build) and next -1. */
  function TriLeaf(tris: seq<Tri>, verts: seq<Vec3>, idOffset: nat, i: nat): (n: BvhNode)
    requires TrisInRange(tris, verts) && i < |tris|
    ensures n.objId == i + idOffset && n.leftId == -1 && n.rightId == -1
    ensures Le3(n.boxMin, n.boxMax)
  {
    var v0, v1, v2 := verts[tris[i].a], verts[tris[i].b], verts[tris[i].c];
    BvhNode(Min3(Min3(v0, v1), v2), Max3(Max3(v0, v1), v2), i + idOffset, -1, -1, 0, -1)
  }

  function TriLeaves(tris: seq<Tri>, verts: seq<Vec3>, idOffset: nat): (leaves: seq<BvhNode>)
    requires TrisInRange(tris, verts)
    ensures |leaves| == |tris| && LeafInputs(leaves)
  {
    seq(|tris|, i requires 0 <= i < |tris| => TriLeaf(tris, verts, idOffset, i))
  }

  /** The first loop of `get_mesh_bvh_nodes`: one leaf per triangle. */
  method TriLeafList(tris: seq<Tri>, verts: seq<Vec3>, idOffset: nat) returns (leaves: seq<BvhNode>)
    requires TrisInRange(tris, verts)
    ensures leaves == TriLeaves(tris, verts, idOffset)
  {
    leaves := [];
    var i := 0;
    while i < |tris|
      invariant 0 <= i <= |tris| && |leaves| == i
      invariant forall j :: 0 <= j < i ==> leaves[j] == TriLeaf(tris, verts, idOffset, j)
    {
      var t := tris[i];
      var v0, v1, v2 := verts[t.a], verts[t.b], verts[t.c];
      leaves := leaves + [BvhNode(Min3(Min3(v0, v1), v2), Max3(Max3(v0, v1), v2), i + idOffset, -1, -1, 0, -1)];
      i := i + 1;
    }
  }

  /** Shifts the child and next ids of a node by the mesh's place in the
      global node list, leaving -1 alone; the parent id is not shifted. */
  function Relocate(n: BvhNode, bvhOffset: nat): BvhNode
  {
    n.(leftId := if n.leftId != -1 then n.leftId + bvhOffset else -1,
       rightId := if n.rightId != -1 then n.rightId + bvhOffset else -1,
       nextId := if n.nextId != -1 then n.nextId + bvhOffset else -1)
  }

  /** The offset loop of `get_mesh_bvh_nodes`, applied to every node. */
  method RelocateLinks(a: array<BvhNode>, bvhOffset: nat)
    modifies a
    ensures a[..] == RelocateAll(old(a[..]), bvhOffset)
  {
    var k := 0;
    while k < a.Length
      invariant 0 <= k <= a.Length
      invariant forall j :: 0 <= j < k ==> a[j] == Relocate(old(a[j]), bvhOffset)
      invariant forall j :: k <= j < a.Length ==> a[j] == old(a[j])
    {
      var node := a[k];
      if node.leftId != -1 {
        node := node.(leftId := node.leftId + bvhOffset);
      }
      if node.rightId != -1 {
        node := node.(rightId := node.rightId + bvhOffset);
      }
      if node.nextId != -1 {
        node := node.(nextId := node.nextId + bvhOffset);
      }
      a[k] := node;
      k := k + 1;
    }
  }

  /** The leaves' ids are id_offset, id_offset + 1, ... in order. */
  lemma TriLeafIds(tris: seq<Tri>, verts: seq<Vec3>, idOffset: nat)
    requires TrisInRange(tris, verts)
    ensures LeafIds(TriLeaves(tris, verts, idOffset)) == seq(|tris|, i requires 0 <= i < |tris| => i + idOffset)
  {
    var leaves := TriLeaves(tris, verts, idOffset);
    LeafIdsOfLeaves(leaves);
    forall i | 0 <= i < |tris| ensures leaves[i].objId == i + idOffset {
      assert leaves[i] == TriLeaf(tris, verts, idOffset, i);
    }
  }

  /** The mesh's tree before relocation: a whole tree whose leaves carry
      the ids id_offset .. id_offset + n - 1, each once. */
  function MeshTree(tris: seq<Tri>, verts: seq<Vec3>, idOffset: nat): (g: seq<BvhNode>)
    requires TrisInRange(tris, verts) && |tris| > 0
    ensures |g| == 2 * |tris| - 1 && Tree(g, 0, |g|, -1, 0) && ParentsBefore(g)
    ensures multiset(LeafIds(g)) == multiset(seq(|tris|, i requires 0 <= i < |tris| => i + idOffset))
  {
    var g := BuildBvhInner(TriLeaves(tris, verts, idOffset), -1, 0);
    WholeTreeParents(g);
    TriLeafIds(tris, verts, idOffset);
    g
  }

  /** Every node relocated by bvhOffset. */
  ghost function RelocateAll(g: seq<BvhNode>, bvhOffset: nat): (r: seq<BvhNode>)
    ensures |r| == |g|
  {
    seq(|g|, i requires 0 <= i < |g| => Relocate(g[i], bvhOffset))
  }

  /** What `get_mesh_bvh_nodes` returns for a non-empty mesh. */
  ghost function MeshBvh(tris: seq<Tri>, verts: seq<Vec3>, idOffset: nat, bvhOffset: nat): (r: seq<BvhNode>)
    requires TrisInRange(tris, verts) && |tris| > 0
    ensures |r| == 2 * |tris| - 1
  {
    RelocateAll(WithNextLinks(MeshTree(tris, verts, idOffset)), bvhOffset)
  }

  /** `get_mesh_bvh_nodes`: one leaf per triangle, the tree over them, its
      next links, then every link moved by bvh_offset. An empty mesh makes
      the source raise (`min` of an empty list), here None. */
  method GetMeshBvhNodes(tris: seq<Tri>, verts: seq<Vec3>, idOffset: nat, bvhOffset: nat)
    returns (r: Option<seq<BvhNode>>)
    requires TrisInRange(tris, verts)
    ensures r.None? <==> |tris| == 0
    ensures r.Some? ==> r.value == MeshBvh(tris, verts, idOffset, bvhOffset)
  {
    if |tris| == 0 {
      return None;
    }
    var tree := BuildMeshTree(tris, verts, idOffset);
    var nodes := LinkAndRelocate(tree, bvhOffset);
    return Some(nodes);
  }

  /** The leaves of the mesh's triangles and the tree over them. */
  method BuildMeshTree(tris: seq<Tri>, verts: seq<Vec3>, idOffset: nat) returns (tree: seq<BvhNode>)
    requires TrisInRange(tris, verts) && |tris| > 0
    ensures tree == MeshTree(tris, verts, idOffset)
  {
    var leaves := TriLeafList(tris, verts, idOffset);
    tree := BuildBvhInner(leaves, -1, 0);
  }

  /** The next links of a built tree, then every link moved by bvh_offset,
      worked out in an array as the source does. */
  method LinkAndRelocate(tree: seq<BvhNode>, bvhOffset: nat) returns (nodes: seq<BvhNode>)
    requires ParentsBefore(tree)
    ensures nodes == RelocateAll(WithNextLinks(tree), bvhOffset)
  {
    var a := new BvhNode[|tree|](j requires 0 <= j < |tree| => tree[j]);
    assert a[..] == tree;
    SetNextIdLinks(a);
    RelocateLinks(a, bvhOffset);
    nodes := a[..];
  }

  /** The leaf ids of a list of leaves are its primitive ids in order. */
  lemma {:induction false} LeafIdsOfLeaves(t: seq<BvhNode>)
    requires LeafInputs(t)
    ensures LeafIds(t) == seq(|t|, i requires 0 <= i < |t| => t[i].objId)
  {
    if t != [] {
      LeafIdsOfLeaves(t[1..]);
    }
  }

  /** Leaf ids read only the obj ids. */
  lemma {:induction false} LeafIdsSameObjIds(a: seq<BvhNode>, b: seq<BvhNode>)
    requires |a| == |b| && forall i :: 0 <= i < |a| ==> a[i].objId == b[i].objId
    ensures LeafIds(a) == LeafIds(b)
  {
    if a != [] {
      LeafIdsSameObjIds(a[1..], b[1..]);
    }
  }

  /** Linking and relocating keeps obj ids, parents and boxes; next ids
      become global and point past the node's subtree, -1 on the
      rightmost path; the root's parent and next are -1. */
  lemma RelocatedLinks(g: seq<BvhNode>, bvhOffset: nat)
    requires Tree(g, 0, |g|, -1, 0) && ParentsBefore(g)
    ensures var r := RelocateAll(WithNextLinks(g), bvhOffset);
            r[0].parentId == -1 && r[0].nextId == -1 &&
            forall k :: 0 <= k < |r| ==>
              r[k].objId == g[k].objId && r[k].parentId == g[k].parentId &&
              r[k].boxMin == g[k].boxMin && r[k].boxMax == g[k].boxMax &&
              r[k].nextId == if k + Size(g, k) < |g| then bvhOffset + k + Size(g, k) else -1
  {
    NextLinks(g);
  }

  /** After relocation leaves still have no children. */
  lemma RelocatedLeaves(g: seq<BvhNode>, bvhOffset: nat)
    requires Tree(g, 0, |g|, -1, 0) && ParentsBefore(g)
    ensures var r := RelocateAll(WithNextLinks(g), bvhOffset);
            forall k :: 0 <= k < |r| && r[k].objId != -1 ==> r[k].leftId == -1 && r[k].rightId == -1
  {
    var r := RelocateAll(WithNextLinks(g), bvhOffset);
    forall k | 0 <= k < |r| && r[k].objId != -1 ensures r[k].leftId == -1 && r[k].rightId == -1 {
      SubtreeAt(g, 0, |g|, -1, k);
      assert r[k] == Relocate(WithNextLinks(g)[k], bvhOffset);
    }
  }

  /** After relocation node k has global id bvhOffset + k: an internal
      node's left child follows it and its right child comes later, both
      naming it (by local position) as parent, and the left child's next
      is the right child. */
  lemma RelocatedInternal(g: seq<BvhNode>, bvhOffset: nat, k: nat)
    requires Tree(g, 0, |g|, -1, 0) && ParentsBefore(g)
    requires k < |g| && g[k].objId == -1
    ensures var r := RelocateAll(WithNextLinks(g), bvhOffset);
            var right := r[k].rightId - bvhOffset;
            r[k].leftId == bvhOffset + k + 1 && k + 1 < right < |r| &&
            r[k + 1].parentId == k && r[right].parentId == k && r[k + 1].nextId == r[k].rightId
  {
    var r := RelocateAll(WithNextLinks(g), bvhOffset);
    NextLinks(g);
    TreeLinks(g, 0, |g|, -1);
    assert r[k] == Relocate(WithNextLinks(g)[k], bvhOffset);
    assert r[k + 1] == Relocate(WithNextLinks(g)[k + 1], bvhOffset);
    assert r[g[k].rightId] == Relocate(WithNextLinks(g)[g[k].rightId], bvhOffset);
  }

  /** `get_mesh_bvh_nodes` on a non-empty mesh: the relocated, linked tree
      whose leaves carry the ids id_offset .. id_offset + n - 1. */
  lemma MeshBvhLeafIds(tris: seq<Tri>, verts: seq<Vec3>, idOffset: nat, bvhOffset: nat)
    requires TrisInRange(tris, verts) && |tris| > 0
    ensures multiset(LeafIds(MeshBvh(tris, verts, idOffset, bvhOffset))) ==
            multiset(seq(|tris|, i requires 0 <= i < |tris| => i + idOffset))
  {
    var g := MeshTree(tris, verts, idOffset);
    var r := MeshBvh(tris, verts, idOffset, bvhOffset);
    forall k | 0 <= k < |r| ensures r[k].objId == g[k].objId {
    }
    LeafIdsSameObjIds(r, g);
  }

  // ---------------------------------------------------------------------
  // build_bvh

  /** The leaf for instance i: the instance's box, primitive id i, no
      children, parent 0 (overwritten by the build) and next -1. */
  function InstanceLeaf(boxes: seq<(Vec3, Vec3)>, i: nat): (n: BvhNode)
    requires i < |boxes|
    ensures n.objId == i && n.leftId == -1 && n.rightId == -1
  {
    BvhNode(boxes[i].0, boxes[i].1, i, -1, -1, 0, -1)
  }

  function InstanceLeaves(boxes: seq<(Vec3, Vec3)>): (leaves: seq<BvhNode>)
    ensures |leaves| == |boxes| && LeafInputs(leaves)
  {
    seq(|boxes|, i requires 0 <= i < |boxes| => InstanceLeaf(boxes, i))
  }

  /** The first loop of `build_bvh`: one leaf per instance box. */
  method InstanceLeafList(boxes: seq<(Vec3, Vec3)>) returns (leaves: seq<BvhNode>)
    ensures leaves == InstanceLeaves(boxes)
  {
    leaves := [];
    var i := 0;
    while i < |boxes|
      invariant 0 <= i <= |boxes| && |leaves| == i
      invariant forall j :: 0 <= j < i ==> leaves[j] == InstanceLeaf(boxes, j)
    {
      leaves := leaves + [BvhNode(boxes[i].0, boxes[i].1, i, -1, -1, 0, -1)];
      i := i + 1;
    }
  }

  /** The instance tree before linking: a whole tree whose leaves carry
      the ids 0 .. n - 1, each once. */
  function InstanceTree(boxes: seq<(Vec3, Vec3)>): (g: seq<BvhNode>)
    requires |boxes| > 0
    ensures |g| == 2 * |boxes| - 1 && Tree(g, 0, |g|, -1, 0) && ParentsBefore(g)
    ensures multiset(LeafIds(g)) == multiset(seq(|boxes|, i requires 0 <= i < |boxes| => i))
  {
    var g := BuildBvhInner(InstanceLeaves(boxes), -1, 0);
    WholeTreeParents(g);
    InstanceLeafIds(boxes);
    g
  }

  /** The leaves' ids are 0, 1, ... in order. */
  lemma InstanceLeafIds(boxes: seq<(Vec3, Vec3)>)
    ensures LeafIds(InstanceLeaves(boxes)) == seq(|boxes|, i requires 0 <= i < |boxes| => i)
  {
    var leaves := InstanceLeaves(boxes);
    LeafIdsOfLeaves(leaves);
    forall i | 0 <= i < |boxes| ensures leaves[i].objId == i {
      assert leaves[i] == InstanceLeaf(boxes, i);
    }
  }

  /** What `build_bvh` returns for a non-empty instance list. */
  ghost function InstanceBvh(boxes: seq<(Vec3, Vec3)>): (r: seq<BvhNode>)
    requires |boxes| > 0
    ensures |r| == 2 * |boxes| - 1
  {
    WithNextLinks(InstanceTree(boxes))
  }

  /** `build_bvh` on the instances' boxes: one leaf per instance with
      obj_id = i, the tree over them with the root at id 0 and parent -1,
      then the next links. An empty list makes the source raise (`min` of
      an empty list), here None. */
  method BuildBvh(boxes: seq<(Vec3, Vec3)>) returns (out: Option<seq<BvhNode>>)
    ensures out.None? <==> |boxes| == 0
    ensures out.Some? ==> out.value == InstanceBvh(boxes)
  {
    if |boxes| == 0 {
      return None;
    }
    var leaves := InstanceLeafList(boxes);
    var tree := BuildBvhInner(leaves, -1, 0);
    assert tree == InstanceTree(boxes);
    var nodes := LinkNextIds(tree);
    return Some(nodes);
  }

  /** The next links of a built tree, worked out in an array. */
  method LinkNextIds(tree: seq<BvhNode>) returns (nodes: seq<BvhNode>)
    requires ParentsBefore(tree)
    ensures nodes == WithNextLinks(tree)
  {
    var a := new BvhNode[|tree|](j requires 0 <= j < |tree| => tree[j]);
    assert a[..] == tree;
    SetNextIdLinks(a);
    nodes := a[..];
  }

  /** `build_bvh` on n >= 1 instances: node k is node k of the built tree
      with its next id set to the first position after its subtree, -1 on
      the rightmost path; the root has parent -1 and next -1. */
  lemma InstanceBvhLinks(boxes: seq<(Vec3, Vec3)>)
    requires |boxes| > 0
    ensures var g := InstanceTree(boxes);
            var r := InstanceBvh(boxes);
            r[0].parentId == -1 && r[0].nextId == -1 &&
            forall k :: 0 <= k < |r| ==>
              r[k] == g[k].(nextId := if k + Size(g, k) < |g| then k + Size(g, k) else -1)
  {
    var g := InstanceTree(boxes);
    assert InstanceBvh(boxes) == WithNextLinks(g);
    LinkedTree(g);
  }

  /** The leaves of what `build_bvh` returns carry the instance indices
      0 .. n - 1, each once. */
  lemma InstanceBvhLeafIds(boxes: seq<(Vec3, Vec3)>)
    requires |boxes| > 0
    ensures multiset(LeafIds(InstanceBvh(boxes))) == multiset(seq(|boxes|, i requires 0 <= i < |boxes| => i))
  {
    var g := InstanceTree(boxes);
    assert InstanceBvh(boxes) == WithNextLinks(g);
    LinkedTree(g);
  }

  /** In what `build_bvh` returns, a left child's next is its parent's
      right child. */
  lemma InstanceBvhThreads(boxes: seq<(Vec3, Vec3)>)
    requires |boxes| > 0
    ensures var r := InstanceBvh(boxes);
            forall k :: 0 <= k < |r| && r[k].objId == -1 ==> k + 1 < |r| && r[k + 1].nextId == r[k].rightId
  {
    var g := InstanceTree(boxes);
    assert InstanceBvh(boxes) == WithNextLinks(g);
    LinkedTree(g);
  }

  /** Linking a whole tree changes only next ids, which then point past
      each node's subtree. */
  lemma LinkedTree(g: seq<BvhNode>)
    requires Tree(g, 0, |g|, -1, 0) && ParentsBefore(g)
    ensures var r := WithNextLinks(g);
            r[0].parentId == -1 && r[0].nextId == -1 &&
            forall k :: 0 <= k < |r| ==>
              r[k] == g[k].(nextId := if k + Size(g, k) < |g| then k + Size(g, k) else -1)
    ensures var r := WithNextLinks(g);
            forall k :: 0 <= k < |r| && r[k].objId == -1 ==> k + 1 < |r| && r[k + 1].nextId == r[k].rightId
    ensures LeafIds(WithNextLinks(g)) == LeafIds(g)
  {
    var r := WithNextLinks(g);
    NextLinks(g);
    LeafIdsSameObjIds(r, g);
  }

  // ---------------------------------------------------------------------
  // hit_aabb

  /** The state of the slab test after some axes: the flag and the
      parameter interval still allowed. */
  datatype Slab = Slab(intersect: bool, tMin: real, tMax: real)

  /** One axis of `hit_aabb`: a ray parallel to the slab rejects when its
      origin lies outside it; otherwise the interval is clipped to the
      parameters where the ray is between the two planes. */
  function AxisStep(st: Slab, o: real, d: real, lo: real, hi: real): (out: Slab)
    ensures st.tMin <= out.tMin && out.tMax <= st.tMax
    ensures out.intersect <==> st.intersect && (d != 0.0 || lo <= o <= hi)
    ensures d == 0.0 ==> out.tMin == st.tMin && out.tMax == st.tMax
  {
    if d == 0.0 then
      if o < lo || o > hi then st.(intersect := false) else st
    else
      var i1 := (lo - o) / d;
      var i2 := (hi - o) / d;
      Slab(st.intersect, MaxR(MinR(i1, i2), st.tMin), MinR(MaxR(i1, i2), st.tMax))
  }

  /** The slab state after the x, y and z steps of `hit_aabb`. */
  function Slabs(n: BvhNode, r: Ray, tMin: real, tMax: real): Slab
  {
    var sx := AxisStep(Slab(true, tMin, tMax), r.orig.x, r.dir.x, n.boxMin.x, n.boxMax.x);
    var sy := AxisStep(sx, r.orig.y, r.dir.y, n.boxMin.y, n.boxMax.y);
    AxisStep(sy, r.orig.z, r.dir.z, n.boxMin.z, n.boxMax.z)
  }

  /** `hit_aabb`: the slab test over x, y and z, then rejection when the
      interval left is empty. */
  function HitAabb(n: BvhNode, r: Ray, tMin: real, tMax: real): bool
  {
    var s := Slabs(n, r, tMin, tMax);
    s.intersect && !(s.tMin > s.tMax)
  }

  /** A ray parallel to an axis whose origin is outside the box's slab on
      that axis misses, whatever the interval. */
  lemma ParallelOutsideMisses(n: BvhNode, r: Ray, tMin: real, tMax: real)
    requires (r.dir.x == 0.0 && (r.orig.x < n.boxMin.x || r.orig.x > n.boxMax.x)) ||
             (r.dir.y == 0.0 && (r.orig.y < n.boxMin.y || r.orig.y > n.boxMax.y)) ||
             (r.dir.z == 0.0 && (r.orig.z < n.boxMin.z || r.orig.z > n.boxMax.z))
    ensures !HitAabb(n, r, tMin, tMax)
  {
  }

  /** An empty starting interval always misses: the slabs only shrink it. */
  lemma EmptyIntervalMisses(n: BvhNode, r: Ray, tMin: real, tMax: real)
    requires tMin > tMax
    ensures !HitAabb(n, r, tMin, tMax)
  {
  }

  /** The ray at parameter t is between the two planes of one axis. */
  predicate InSlab(o: real, d: real, lo: real, hi: real, t: real)
  {
    lo <= o + d * t <= hi
  }

  /** The point is inside the node's box. */
  predicate InBox(n: BvhNode, p: Vec3)
  {
    Le3(n.boxMin, p) && Le3(p, n.boxMax)
  }

  lemma DivBelow(a: real, d: real, t: real)
    requires d != 0.0
    ensures d > 0.0 ==> (a / d <= t <==> a <= d * t)
    ensures d < 0.0 ==> (a / d <= t <==> d * t <= a)
  {
    var q := a / d;
    assert q * d == a;
    if d > 0.0 {
      if q <= t { assert (t - q) * d >= 0.0; } else { assert (q - t) * d > 0.0; }
    } else {
      if q <= t { assert (t - q) * d <= 0.0; } else { assert (q - t) * d < 0.0; }
    }
  }

  lemma DivAbove(a: real, d: real, t: real)
    requires d != 0.0
    ensures d > 0.0 ==> (t <= a / d <==> d * t <= a)
    ensures d < 0.0 ==> (t <= a / d <==> a <= d * t)
  {
    var q := a / d;
    assert q * d == a;
    if d > 0.0 {
      if t <= q { assert (q - t) * d >= 0.0; } else { assert (t - q) * d > 0.0; }
    } else {
      if t <= q { assert (q - t) * d <= 0.0; } else { assert (t - q) * d < 0.0; }
    }
  }

  /** On an axis the ray is not parallel to, the two plane crossings bound
      exactly the parameters inside the slab (for a well-formed slab). */
  lemma SlabInterval(o: real, d: real, lo: real, hi: real, t: real)
    requires d != 0.0 && lo <= hi
    ensures InSlab(o, d, lo, hi, t) <==>
            MinR((lo - o) / d, (hi - o) / d) <= t <= MaxR((lo - o) / d, (hi - o) / d)
  {
    DivBelow(lo - o, d, t);
    DivBelow(hi - o, d, t);
    DivAbove(lo - o, d, t);
    DivAbove(hi - o, d, t);
  }

  /** One axis step keeps t in the interval exactly when t was in it and
      the ray at t is inside the slab (or the ray is parallel to it). */
  lemma AxisStepAt(st: Slab, o: real, d: real, lo: real, hi: real, t: real)
    requires lo <= hi
    ensures var out := AxisStep(st, o, d, lo, hi);
            (out.tMin <= t <= out.tMax) <==> (st.tMin <= t <= st.tMax && (d == 0.0 || InSlab(o, d, lo, hi, t)))
  {
    var out := AxisStep(st, o, d, lo, hi);
    if d != 0.0 {
      var i1, i2 := (lo - o) / d, (hi - o) / d;
      SlabInterval(o, d, lo, hi, t);
      assert out.tMin == MaxR(MinR(i1, i2), st.tMin) && out.tMax == MinR(MaxR(i1, i2), st.tMax);
      assert out.tMin <= t <==> MinR(i1, i2) <= t && st.tMin <= t;
      assert t <= out.tMax <==> t <= MaxR(i1, i2) && t <= st.tMax;
    }
  }

  /** Inside the box means inside all three slabs. */
  lemma InBoxSlabs(n: BvhNode, r: Ray, t: real)
    ensures InBox(n, At(r, t)) <==>
            InSlab(r.orig.x, r.dir.x, n.boxMin.x, n.boxMax.x, t) &&
            InSlab(r.orig.y, r.dir.y, n.boxMin.y, n.boxMax.y, t) &&
            InSlab(r.orig.z, r.dir.z, n.boxMin.z, n.boxMax.z, t)
  {
    var p := At(r, t);
    assert p == Add(r.orig, Scale(r.dir, t));
    assert p.x == r.orig.x + r.dir.x * t && p.y == r.orig.y + r.dir.y * t && p.z == r.orig.z + r.dir.z * t;
  }

  /** The final interval holds t exactly when t is in [t_min, t_max] and
      in every slab the ray is not parallel to. */
  lemma SlabsAt(n: BvhNode, r: Ray, tMin: real, tMax: real, t: real)
    requires Le3(n.boxMin, n.boxMax)
    ensures var s := Slabs(n, r, tMin, tMax);
            (s.tMin <= t <= s.tMax) <==>
            tMin <= t <= tMax &&
            (r.dir.x == 0.0 || InSlab(r.orig.x, r.dir.x, n.boxMin.x, n.boxMax.x, t)) &&
            (r.dir.y == 0.0 || InSlab(r.orig.y, r.dir.y, n.boxMin.y, n.boxMax.y, t)) &&
            (r.dir.z == 0.0 || InSlab(r.orig.z, r.dir.z, n.boxMin.z, n.boxMax.z, t))
  {
    var s0 := Slab(true, tMin, tMax);
    var sx := AxisStep(s0, r.orig.x, r.dir.x, n.boxMin.x, n.boxMax.x);
    var sy := AxisStep(sx, r.orig.y, r.dir.y, n.boxMin.y, n.boxMax.y);
    AxisStepAt(s0, r.orig.x, r.dir.x, n.boxMin.x, n.boxMax.x, t);
    AxisStepAt(sx, r.orig.y, r.dir.y, n.boxMin.y, n.boxMax.y, t);
    AxisStepAt(sy, r.orig.z, r.dir.z, n.boxMin.z, n.boxMax.z, t);
  }

  /** A reported hit has a witness: the start of the final interval puts
      the ray inside the box. */
  lemma HitAabbSound(n: BvhNode, r: Ray, tMin: real, tMax: real)
    requires Le3(n.boxMin, n.boxMax) && HitAabb(n, r, tMin, tMax)
    ensures var t := Slabs(n, r, tMin, tMax).tMin;
            tMin <= t <= tMax && InBox(n, At(r, t))
  {
    var t := Slabs(n, r, tMin, tMax).tMin;
    SlabsAt(n, r, tMin, tMax, t);
    InBoxSlabs(n, r, t);
  }

  /** Any parameter in [t_min, t_max] that puts the ray inside the box
      makes `hit_aabb` report a hit. */
  lemma HitAabbComplete(n: BvhNode, r: Ray, tMin: real, tMax: real, t: real)
    requires Le3(n.boxMin, n.boxMax) && tMin <= t <= tMax && InBox(n, At(r, t))
    ensures HitAabb(n, r, tMin, tMax)
  {
    InBoxSlabs(n, r, t);
    SlabsAt(n, r, tMin, tMax, t);
  }

  /** `hit_aabb` is exact on a well-formed box: it reports a hit exactly
      when some parameter in [t_min, t_max] puts the ray inside the box. */
  lemma HitAabbExact(n: BvhNode, r: Ray, tMin: real, tMax: real)
    requires Le3(n.boxMin, n.boxMax)
    ensures HitAabb(n, r, tMin, tMax) <==> exists t :: tMin <= t <= tMax && InBox(n, At(r, t))
  {
    if HitAabb(n, r, tMin, tMax) {
      HitAabbSound(n, r, tMin, tMax);
    }
    if exists t :: tMin <= t <= tMax && InBox(n, At(r, t)) {
      var t :| tMin <= t <= tMax && InBox(n, At(r, t));
      HitAabbComplete(n, r, tMin, tMax, t);
    }
  }
}
