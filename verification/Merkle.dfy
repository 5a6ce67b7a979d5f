/** The Merkle tree of LMS (lms.c; sections 5.3 to 5.4.2 of RFC 8554). */
module Merkle {
  import opened Bytes
  import opened LmsParams
  import opened HashEngines

  type NodeBytes = n: nat | n <= M_NODE_BYTES_MAX

  /** A tree of any height and node width; `keyId` is hashed into every node.
      `leaves` is the number of leaves and the number of the first leaf node. */
  datatype Tree = Tree(keyId: seq<byte>, height: nat, leaves: nat, width: NodeBytes)

  // ----- node values (section 5.3)

  function LeafValue(sha: Sha256, p: Tree, key: seq<byte>, r: nat): (v: seq<byte>)
    ensures |v| == p.width
  {
    sha(LeafInput(p, key, r))[..p.width]
  }

  function LeafInput(p: Tree, key: seq<byte>, r: nat): seq<byte> {
    p.keyId + ToBE(r, 4) + [0x82, 0x82] + key
  }

  function InternalValue(sha: Sha256, p: Tree, left: seq<byte>, right: seq<byte>, r: nat): (v: seq<byte>)
    ensures |v| == p.width
  {
    sha(InternalInput(p, left, right, r))[..p.width]
  }

  function InternalInput(p: Tree, left: seq<byte>, right: seq<byte>, r: nat): seq<byte> {
    p.keyId + ToBE(r, 4) + [0x83, 0x83] + left + right
  }

  /** Node `r` of the tree over the one-time public keys `keys`: the recursive
      definition of section 5.3. */
  function Node(sha: Sha256, p: Tree, keys: seq<seq<byte>>, r: nat): (v: seq<byte>)
    requires |keys| == p.leaves && 1 <= r < 2 * p.leaves
    ensures |v| == p.width
    decreases 2 * p.leaves - r
  {
    if r >= p.leaves then LeafValue(sha, p, keys[r - p.leaves], r)
    else InternalValue(sha, p, Node(sha, p, keys, 2 * r), Node(sha, p, keys, 2 * r + 1), r)
  }

  // ----- node numbers

  /** `r ^ 1`: the other child of the same parent. */
  function Sibling(r: nat): nat {
    if r % 2 == 0 then r + 1 else r - 1
  }

  /** The bitwise reading of `Sibling`, on the code's 32-bit node numbers. */
  lemma SiblingIsXorOne(r: bv32)
    ensures r ^ 1 == if r & 1 == 0 then r + 1 else r - 1
  {
  }

  /** The ancestor `h` levels above node `r`: `r >> h`. */
  function Ancestor(r: nat, h: nat): nat {
    if h == 0 then r else Ancestor(r, h - 1) / 2
  }

  lemma {:induction false} AncestorIsShift(r: nat, h: nat)
    ensures Ancestor(r, h) == r / Pow2(h)
  {
    if h > 0 {
      AncestorIsShift(r, h - 1);
      DivDiv(r, Pow2(h - 1), 2);
    }
  }

  /** The ancestors of a leaf stay inside the tree and reach the root, node 1. */
  lemma {:induction false} AncestorLevel(height: nat, r: nat, h: nat)
    requires Pow2(height) <= r < 2 * Pow2(height) && h <= height
    ensures Pow2(height - h) <= Ancestor(r, h) < 2 * Pow2(height - h)
  {
    if h > 0 {
      AncestorLevel(height, r, h - 1);
      assert Pow2(height - h + 1) == 2 * Pow2(height - h);
    }
  }

  /** Every ancestor of node `r` below the root, and its sibling, is in the tree,
      and the ancestor at the tree's height is the root. */
  ghost predicate PathInside(p: Tree, r: nat) {
    && p.leaves <= r < 2 * p.leaves
    && Ancestor(r, p.height) == 1
    && forall h {:trigger Ancestor(r, h)} :: 0 <= h < p.height ==> InnerPathNode(p, Ancestor(r, h))
  }

  predicate InnerPathNode(p: Tree, c: nat) {
    2 <= c < 2 * p.leaves && 2 <= Sibling(c) < 2 * p.leaves && 1 <= c / 2 < p.leaves
  }

  /** A tree with 2^height leaves contains the path of each of them. */
  lemma LeafPathInside(p: Tree, r: nat)
    requires p.leaves == Pow2(p.height) && p.leaves <= r < 2 * p.leaves
    ensures PathInside(p, r)
  {
    AncestorLevel(p.height, r, p.height);
    forall h | 0 <= h < p.height
      ensures InnerPathNode(p, Ancestor(r, h))
    {
      AncestorLevel(p.height, r, h);
      Pow2Grows(p.height - h, p.height);
      assert Pow2(p.height - h) == 2 * Pow2(p.height - h - 1);
      assert Pow2(p.height) == 2 * Pow2(p.height - 1);
    }
  }

  // ----- authentication path and root candidate

  /** The first `h` path nodes of leaf `r`: the sibling of each ancestor. */
  ghost function AuthPath(sha: Sha256, p: Tree, keys: seq<seq<byte>>, r: nat, h: nat): (path: seq<byte>)
    requires |keys| == p.leaves && PathInside(p, r) && h <= p.height
    ensures |path| == h * p.width
  {
    if h == 0 then []
    else
      assert InnerPathNode(p, Ancestor(r, h - 1));
      assert (h - 1) * p.width + p.width == h * p.width;
      AuthPath(sha, p, keys, r, h - 1) + Node(sha, p, keys, Sibling(Ancestor(r, h - 1)))
  }

  /** The verifier's running value after `h` levels, from `leaf` at node `r`. */
  function Climb(sha: Sha256, p: Tree, r: nat, leaf: seq<byte>, path: seq<byte>, h: nat): (v: seq<byte>)
    requires |leaf| == p.width && h * p.width <= |path|
    ensures |v| == p.width
  {
    if h == 0 then leaf
    else
      RowFits(h - 1, h, p.width);
      var below := Climb(sha, p, r, leaf, path, h - 1);
      var (left, right) := Order(Ancestor(r, h - 1), below, Row(path, h - 1, p.width));
      InternalValue(sha, p, left, right, Ancestor(r, h))
  }

  /** A node and its sibling, left child first. */
  function Order(r: nat, node: seq<byte>, sibling: seq<byte>): (seq<byte>, seq<byte>) {
    if r % 2 == 1 then (sibling, node) else (node, sibling)
  }

  lemma {:induction false} AuthPathRow(sha: Sha256, p: Tree, keys: seq<seq<byte>>, r: nat, h: nat, i: nat)
    requires |keys| == p.leaves && PathInside(p, r) && i < h <= p.height
    ensures i * p.width + p.width <= h * p.width
    ensures 2 <= Sibling(Ancestor(r, i)) < 2 * p.leaves
    ensures Row(AuthPath(sha, p, keys, r, h), i, p.width) == Node(sha, p, keys, Sibling(Ancestor(r, i)))
  {
    var w, n := p.width, h - 1;
    assert InnerPathNode(p, Ancestor(r, i)) && InnerPathNode(p, Ancestor(r, n));
    RowFits(i, h, w);
    var front, last := AuthPath(sha, p, keys, r, n), Node(sha, p, keys, Sibling(Ancestor(r, n)));
    assert AuthPath(sha, p, keys, r, h) == front + last;
    RowOfAppend(front, last, n, i, w);
    if i < n {
      AuthPathRow(sha, p, keys, r, n, i);
    }
  }

  /** A node and its sibling, in order, hash to their parent. */
  lemma ParentOfSiblings(sha: Sha256, p: Tree, keys: seq<seq<byte>>, c: nat)
    requires |keys| == p.leaves && 2 <= c < 2 * p.leaves && 2 <= Sibling(c) < 2 * p.leaves
    ensures c / 2 < p.leaves
    ensures var (left, right) := Order(c, Node(sha, p, keys, c), Node(sha, p, keys, Sibling(c)));
            InternalValue(sha, p, left, right, c / 2) == Node(sha, p, keys, c / 2)
  {
    var r := c / 2;
    ParentNode(sha, p, keys, r);
    if c % 2 == 1 {
      assert Sibling(c) == 2 * r && Order(c, Node(sha, p, keys, c), Node(sha, p, keys, 2 * r)).1
        == Node(sha, p, keys, 2 * r + 1);
    } else {
      assert Sibling(c) == 2 * r + 1 && Order(c, Node(sha, p, keys, c), Node(sha, p, keys, 2 * r + 1)).0
        == Node(sha, p, keys, 2 * r);
    }
  }

  lemma ParentNode(sha: Sha256, p: Tree, keys: seq<seq<byte>>, r: nat)
    requires |keys| == p.leaves && 1 <= r < p.leaves
    ensures Node(sha, p, keys, r) == InternalValue(sha, p, Node(sha, p, keys, 2 * r), Node(sha, p, keys, 2 * r + 1), r)
  {
  }

  /** One level of the climb, from the value below and the path node beside it. */
  lemma ClimbStep(sha: Sha256, p: Tree, r: nat, leaf: seq<byte>, path: seq<byte>, h: nat)
    requires |leaf| == p.width && (h + 1) * p.width <= |path|
    ensures h * p.width + p.width <= |path|
    ensures var (left, right) := Order(Ancestor(r, h), Climb(sha, p, r, leaf, path, h), Row(path, h, p.width));
            Climb(sha, p, r, leaf, path, h + 1) == InternalValue(sha, p, left, right, Ancestor(r, h) / 2)
  {
  }

  /** With the path the signer sends, the verifier's value at every height is the
      tree node whose number is the leaf's shifted right by that height. */
  lemma {:induction false} ClimbFollowsTree(sha: Sha256, p: Tree, keys: seq<seq<byte>>, r: nat, path: seq<byte>, h: nat)
    requires |keys| == p.leaves && PathInside(p, r) && h <= p.height
    requires path == AuthPath(sha, p, keys, r, p.height)
    ensures h * p.width <= |path|
    ensures 1 <= Ancestor(r, h) < 2 * p.leaves
    ensures Climb(sha, p, r, Node(sha, p, keys, r), path, h) == Node(sha, p, keys, Ancestor(r, h))
  {
    PathPrefixFits(h, p.height, p.width);
    if h > 0 {
      var n := h - 1;
      ClimbFollowsTree(sha, p, keys, r, path, n);
      LevelUp(sha, p, keys, r, Node(sha, p, keys, r), path, n);
    }
  }

  /** From the tree's value at one height of the climb to the next. */
  lemma LevelUp(sha: Sha256, p: Tree, keys: seq<seq<byte>>, r: nat, leaf: seq<byte>, path: seq<byte>, n: nat)
    requires |keys| == p.leaves && PathInside(p, r) && n < p.height && |leaf| == p.width
    requires path == AuthPath(sha, p, keys, r, p.height) && n * p.width <= |path| && (n + 1) * p.width <= |path|
    requires 1 <= Ancestor(r, n) < 2 * p.leaves
    requires Climb(sha, p, r, leaf, path, n) == Node(sha, p, keys, Ancestor(r, n))
    ensures 1 <= Ancestor(r, n + 1) < 2 * p.leaves
    ensures Climb(sha, p, r, leaf, path, n + 1) == Node(sha, p, keys, Ancestor(r, n + 1))
  {
    var c := Ancestor(r, n);
    assert InnerPathNode(p, c) && Ancestor(r, n + 1) == c / 2;
    ClimbStep(sha, p, r, leaf, path, n);
    AuthPathRow(sha, p, keys, r, p.height, n);
    ParentOfSiblings(sha, p, keys, c);
  }

  lemma PathPrefixFits(h: nat, height: nat, w: nat)
    requires h <= height
    ensures h * w <= height * w
  {
    assert (height - h) * w >= 0;
  }

  /** Completeness of the path: the climb ends at the root. */
  lemma ClimbReachesRoot(sha: Sha256, p: Tree, keys: seq<seq<byte>>, q: nat)
    requires |keys| == p.leaves && q < p.leaves && PathInside(p, p.leaves + q)
    ensures var height := p.height;
            var r := p.leaves + q;
            Climb(sha, p, r, LeafValue(sha, p, keys[q], r), AuthPath(sha, p, keys, r, height), height)
            == Node(sha, p, keys, 1)
  {
    var height := p.height;
    var r := p.leaves + q;
    ClimbFollowsTree(sha, p, keys, r, AuthPath(sha, p, keys, r, height), height);
  }

  // ----- path binding

  /** What the verifier hashes on its way from height `i` to height `i + 1`: the running
      value and the path node beside it, in the order of their numbers. */
  function ClimbInput(sha: Sha256, p: Tree, r: nat, leaf: seq<byte>, path: seq<byte>, i: nat): seq<byte>
    requires |leaf| == p.width && (i + 1) * p.width <= |path|
  {
    RowFits(i, i + 1, p.width);
    var (left, right) := Order(Ancestor(r, i), Climb(sha, p, r, leaf, path, i), Row(path, i, p.width));
    InternalInput(p, left, right, Ancestor(r, i) / 2)
  }

  /** The inputs that the two climbs hash at height `i` are a collision, and above it the
      path nodes agree. */
  ghost predicate CollideAt(sha: Sha256, p: Tree, r: nat, leaf1: seq<byte>, path1: seq<byte>,
                            leaf2: seq<byte>, path2: seq<byte>, h: nat, i: nat)
    requires |leaf1| == |leaf2| == p.width && i < h && h * p.width <= |path1| && h * p.width <= |path2|
  {
    PathPrefixFits(i + 1, h, p.width);
    && Collides(sha, p.width, ClimbInput(sha, p, r, leaf1, path1, i), ClimbInput(sha, p, r, leaf2, path2, i))
    && SameBetween(path1, path2, (i + 1) * p.width, h * p.width)
  }

  predicate SameBetween(path1: seq<byte>, path2: seq<byte>, from: nat, to: nat)
    requires from <= to && to <= |path1| && to <= |path2|
  {
    path1[from..to] == path2[from..to]
  }

  lemma ClimbHashesInput(sha: Sha256, p: Tree, r: nat, leaf: seq<byte>, path: seq<byte>, i: nat)
    requires |leaf| == p.width && (i + 1) * p.width <= |path|
    ensures Climb(sha, p, r, leaf, path, i + 1) == sha(ClimbInput(sha, p, r, leaf, path, i))[..p.width]
  {
  }

  /** Binding: if two climbs from the same leaf number meet after `h` levels, they used the
      same leaf value and path nodes (`level` is `h`), or the very inputs that they hashed
      at height `level` are a collision. */
  lemma {:induction false} PathBinding(sha: Sha256, p: Tree, r: nat, leaf1: seq<byte>, path1: seq<byte>,
                                       leaf2: seq<byte>, path2: seq<byte>, h: nat)
    returns (level: nat)
    requires |leaf1| == |leaf2| == p.width && h * p.width <= |path1| && h * p.width <= |path2|
    requires Climb(sha, p, r, leaf1, path1, h) == Climb(sha, p, r, leaf2, path2, h)
    ensures level <= h
    ensures level == h ==> leaf1 == leaf2 && path1[..h * p.width] == path2[..h * p.width]
    ensures level < h ==> CollideAt(sha, p, r, leaf1, path1, leaf2, path2, h, level)
  {
    if h == 0 {
      return 0;
    }
    var n := h - 1;
    RowFits(n, h, p.width);
    if ClimbInput(sha, p, r, leaf1, path1, n) != ClimbInput(sha, p, r, leaf2, path2, n) {
      CollideOnTop(sha, p, r, leaf1, path1, leaf2, path2, n);
      return n;
    }
    SameClimbInput(sha, p, r, leaf1, path1, leaf2, path2, n);
    level := PathBinding(sha, p, r, leaf1, path1, leaf2, path2, n);
    if level < n {
      CollideBelow(sha, p, r, leaf1, path1, leaf2, path2, n, level);
    } else {
      SamePrefix(path1, path2, h, p.width);
      return h;
    }
  }

  lemma CollideOnTop(sha: Sha256, p: Tree, r: nat, leaf1: seq<byte>, path1: seq<byte>,
                     leaf2: seq<byte>, path2: seq<byte>, i: nat)
    requires |leaf1| == |leaf2| == p.width && (i + 1) * p.width <= |path1| && (i + 1) * p.width <= |path2|
    requires Climb(sha, p, r, leaf1, path1, i + 1) == Climb(sha, p, r, leaf2, path2, i + 1)
    requires ClimbInput(sha, p, r, leaf1, path1, i) != ClimbInput(sha, p, r, leaf2, path2, i)
    ensures CollideAt(sha, p, r, leaf1, path1, leaf2, path2, i + 1, i)
  {
    var (a, b) := (ClimbInput(sha, p, r, leaf1, path1, i), ClimbInput(sha, p, r, leaf2, path2, i));
    var to := (i + 1) * p.width;
    assert Collides(sha, p.width, a, b) by {
      ClimbHashesInput(sha, p, r, leaf1, path1, i);
      ClimbHashesInput(sha, p, r, leaf2, path2, i);
    }
    PathPrefixFits(0, i + 1, p.width);
    assert path1[to..to] == path2[to..to];
  }

  /** A collision further down, with the same path node on top of it. */
  lemma CollideBelow(sha: Sha256, p: Tree, r: nat, leaf1: seq<byte>, path1: seq<byte>,
                     leaf2: seq<byte>, path2: seq<byte>, n: nat, i: nat)
    requires |leaf1| == |leaf2| == p.width && i < n
    requires (n + 1) * p.width <= |path1| && (n + 1) * p.width <= |path2|
    requires n * p.width + p.width == (n + 1) * p.width && Row(path1, n, p.width) == Row(path2, n, p.width)
    requires CollideAt(sha, p, r, leaf1, path1, leaf2, path2, n, i)
    ensures CollideAt(sha, p, r, leaf1, path1, leaf2, path2, n + 1, i)
  {
    PathPrefixFits(i + 1, n, p.width);
    SameWithRow(path1, path2, (i + 1) * p.width, n * p.width, p.width);
  }

  lemma SameWithRow(path1: seq<byte>, path2: seq<byte>, from: nat, to: nat, w: nat)
    requires from <= to && to + w <= |path1| && to + w <= |path2|
    requires path1[from..to] == path2[from..to] && path1[to..to + w] == path2[to..to + w]
    ensures path1[from..to + w] == path2[from..to + w]
  {
    assert path1[from..to + w] == path1[from..to] + path1[to..to + w];
    assert path2[from..to + w] == path2[from..to] + path2[to..to + w];
  }

  /** Equal inputs at a height come from equal running values and path nodes. */
  lemma SameClimbInput(sha: Sha256, p: Tree, r: nat, leaf1: seq<byte>, path1: seq<byte>,
                       leaf2: seq<byte>, path2: seq<byte>, i: nat)
    requires |leaf1| == |leaf2| == p.width && (i + 1) * p.width <= |path1| && (i + 1) * p.width <= |path2|
    requires ClimbInput(sha, p, r, leaf1, path1, i) == ClimbInput(sha, p, r, leaf2, path2, i)
    ensures i * p.width + p.width == (i + 1) * p.width
    ensures Climb(sha, p, r, leaf1, path1, i) == Climb(sha, p, r, leaf2, path2, i)
    ensures Row(path1, i, p.width) == Row(path2, i, p.width)
  {
    RowFits(i, i + 1, p.width);
    var (l1, r1) := Order(Ancestor(r, i), Climb(sha, p, r, leaf1, path1, i), Row(path1, i, p.width));
    var (l2, r2) := Order(Ancestor(r, i), Climb(sha, p, r, leaf2, path2, i), Row(path2, i, p.width));
    InternalInputInjective(p, l1, r1, l2, r2, Ancestor(r, i) / 2);
  }

  /** Climbs that are equal at height `j` stay equal while their path nodes are. */
  lemma {:induction false} ClimbsStayEqual(sha: Sha256, p: Tree, r: nat, leaf1: seq<byte>, path1: seq<byte>,
                                           leaf2: seq<byte>, path2: seq<byte>, j: nat, h: nat)
    requires |leaf1| == |leaf2| == p.width && h * p.width <= |path1| && h * p.width <= |path2|
    requires j <= h && j * p.width <= h * p.width && SameBetween(path1, path2, j * p.width, h * p.width)
    requires Climb(sha, p, r, leaf1, path1, j) == Climb(sha, p, r, leaf2, path2, j)
    ensures Climb(sha, p, r, leaf1, path1, h) == Climb(sha, p, r, leaf2, path2, h)
    decreases h
  {
    if j < h {
      var n := h - 1;
      PathPrefixFits(j, n, p.width);
      RowFits(n, h, p.width);
      assert n * p.width + p.width == h * p.width;
      SameLastRow(path1, path2, j * p.width, n * p.width, p.width);
      ClimbsStayEqual(sha, p, r, leaf1, path1, leaf2, path2, j, n);
      ClimbsOneLevel(sha, p, r, leaf1, path1, leaf2, path2, n);
    }
  }

  lemma ClimbsOneLevel(sha: Sha256, p: Tree, r: nat, leaf1: seq<byte>, path1: seq<byte>,
                       leaf2: seq<byte>, path2: seq<byte>, n: nat)
    requires |leaf1| == |leaf2| == p.width && (n + 1) * p.width <= |path1| && (n + 1) * p.width <= |path2|
    requires n * p.width + p.width == (n + 1) * p.width && Row(path1, n, p.width) == Row(path2, n, p.width)
    requires Climb(sha, p, r, leaf1, path1, n) == Climb(sha, p, r, leaf2, path2, n)
    ensures Climb(sha, p, r, leaf1, path1, n + 1) == Climb(sha, p, r, leaf2, path2, n + 1)
  {
    ClimbHashesInput(sha, p, r, leaf1, path1, n);
    ClimbHashesInput(sha, p, r, leaf2, path2, n);
  }

  lemma SameLastRow(path1: seq<byte>, path2: seq<byte>, from: nat, to: nat, w: nat)
    requires from <= to && to + w <= |path1| && to + w <= |path2| && path1[from..to + w] == path2[from..to + w]
    ensures SameBetween(path1, path2, from, to) && path1[to..to + w] == path2[to..to + w]
  {
    assert path1[from..to] == path1[from..to + w][..to - from] && path2[from..to] == path2[from..to + w][..to - from];
    assert path1[to..to + w] == path1[from..to + w][to - from..]
      && path2[to..to + w] == path2[from..to + w][to - from..];
  }

  /** Two climbs from one leaf number meet exactly when they used the same leaf value and
      path nodes, or collided at some height and used the same path nodes above it. */
  lemma ClimbsMeet(sha: Sha256, p: Tree, r: nat, leaf1: seq<byte>, path1: seq<byte>,
                   leaf2: seq<byte>, path2: seq<byte>, h: nat)
    requires |leaf1| == |leaf2| == p.width && h * p.width <= |path1| && h * p.width <= |path2|
    ensures Climb(sha, p, r, leaf1, path1, h) == Climb(sha, p, r, leaf2, path2, h) <==>
              (leaf1 == leaf2 && path1[..h * p.width] == path2[..h * p.width])
              || exists i :: 0 <= i < h && CollideAt(sha, p, r, leaf1, path1, leaf2, path2, h, i)
  {
    if Climb(sha, p, r, leaf1, path1, h) == Climb(sha, p, r, leaf2, path2, h) {
      var level := PathBinding(sha, p, r, leaf1, path1, leaf2, path2, h);
    } else {
      forall i | 0 <= i < h ensures !CollideAt(sha, p, r, leaf1, path1, leaf2, path2, h, i) {
        if CollideAt(sha, p, r, leaf1, path1, leaf2, path2, h, i) {
          CollisionMeets(sha, p, r, leaf1, path1, leaf2, path2, h, i);
        }
      }
      SamePathMeets(sha, p, r, leaf1, path1, path2, h);
    }
  }

  lemma SamePathMeets(sha: Sha256, p: Tree, r: nat, leaf: seq<byte>, path1: seq<byte>, path2: seq<byte>, h: nat)
    requires |leaf| == p.width && h * p.width <= |path1| && h * p.width <= |path2|
    ensures path1[..h * p.width] == path2[..h * p.width] ==>
              Climb(sha, p, r, leaf, path1, h) == Climb(sha, p, r, leaf, path2, h)
  {
    if path1[..h * p.width] == path2[..h * p.width] {
      assert path1[0 * p.width..h * p.width] == path1[..h * p.width];
      assert path2[0 * p.width..h * p.width] == path2[..h * p.width];
      ClimbsStayEqual(sha, p, r, leaf, path1, leaf, path2, 0, h);
    }
  }

  lemma CollisionMeets(sha: Sha256, p: Tree, r: nat, leaf1: seq<byte>, path1: seq<byte>,
                       leaf2: seq<byte>, path2: seq<byte>, h: nat, i: nat)
    requires |leaf1| == |leaf2| == p.width && i < h && h * p.width <= |path1| && h * p.width <= |path2|
    requires CollideAt(sha, p, r, leaf1, path1, leaf2, path2, h, i)
    ensures Climb(sha, p, r, leaf1, path1, h) == Climb(sha, p, r, leaf2, path2, h)
  {
    PathPrefixFits(i + 1, h, p.width);
    ClimbHashesInput(sha, p, r, leaf1, path1, i);
    ClimbHashesInput(sha, p, r, leaf2, path2, i);
    ClimbsStayEqual(sha, p, r, leaf1, path1, leaf2, path2, i + 1, h);
  }

  lemma SamePrefix(path1: seq<byte>, path2: seq<byte>, h: nat, w: nat)
    requires h > 0 && h * w <= |path1| && h * w <= |path2| && (h - 1) * w + w == h * w
    requires path1[..(h - 1) * w] == path2[..(h - 1) * w] && Row(path1, h - 1, w) == Row(path2, h - 1, w)
    ensures path1[..h * w] == path2[..h * w]
  {
    assert path1[..h * w] == path1[..(h - 1) * w] + Row(path1, h - 1, w);
    assert path2[..h * w] == path2[..(h - 1) * w] + Row(path2, h - 1, w);
  }

  lemma InternalInputInjective(p: Tree, l1: seq<byte>, r1: seq<byte>, l2: seq<byte>, r2: seq<byte>, r: nat)
    requires |l1| == |l2| == |r1| == |r2|
    requires InternalInput(p, l1, r1, r) == InternalInput(p, l2, r2, r)
    ensures l1 == l2 && r1 == r2
  {
    var head := p.keyId + ToBE(r, 4) + [0x83, 0x83];
    assert InternalInput(p, l1, r1, r)[|head|..] == l1 + r1;
    assert InternalInput(p, l2, r2, r)[|head|..] == l2 + r2;
    assert (l1 + r1)[..|l1|] == l1 && (l2 + r2)[..|l2|] == l2;
    assert (l1 + r1)[|l1|..] == r1 && (l2 + r2)[|l2|..] == r2;
  }

  // ----- the in-place code

  /** `create_merkle_leaf_value`. */
  method CreateMerkleLeafValue(e: HashEngine, p: Tree, pubKey: seq<byte>, r: nat, out: array<byte>, off: nat)
    returns (ret: Ret)
    requires off + p.width <= out.Length
    modifies out
    ensures ret == Success ==>
      out[..] == Splice(old(out[..]), off, LeafValue(e.sha256, p, pubKey, r))
    ensures ret != Success ==> out[..] == old(out[..])
    ensures e.reliable ==> ret == Success
  {
    var status, temp := e.Run(LeafInput(p, pubKey, r));
    if status == PsaSuccess {
      CopyInto(out, off, temp[..p.width]);
    }
    ret := PsaToMbedtls(status);
  }

  /** `create_merkle_internal_value`: the output may be one of the two inputs. */
  method CreateMerkleInternalValue(e: HashEngine, p: Tree, left: array<byte>, leftOff: nat,
                                   right: array<byte>, rightOff: nat, r: nat, out: array<byte>, off: nat)
    returns (ret: Ret)
    requires leftOff + p.width <= left.Length && rightOff + p.width <= right.Length
    requires off + p.width <= out.Length
    modifies out
    ensures ret == Success ==>
      out[..] == Splice(old(out[..]), off,
        InternalValue(e.sha256, p, old(left[leftOff..leftOff + p.width]), old(right[rightOff..rightOff + p.width]), r))
    ensures ret != Success ==> out[..] == old(out[..])
    ensures e.reliable ==> ret == Success
  {
    var input := InternalInput(p, left[leftOff..leftOff + p.width], right[rightOff..rightOff + p.width], r);
    var status, temp := e.Run(input);
    if status == PsaSuccess {
      CopyInto(out, off, temp[..p.width]);
    }
    ret := PsaToMbedtls(status);
  }

  /** Rows `from` and up of the flat tree hold their nodes. */
  ghost predicate TreeFrom(sha: Sha256, p: Tree, keys: seq<seq<byte>>, tree: seq<byte>, from: nat, to: nat)
    requires |keys| == p.leaves && 1 <= from && to <= 2 * p.leaves
    requires |tree| == 2 * p.leaves * p.width
  {
    forall r {:trigger Row(tree, r, p.width)} :: from <= r < to ==>
      r * p.width + p.width <= |tree| && Row(tree, r, p.width) == Node(sha, p, keys, r)
  }

  /** Writing node `r` extends the filled part on either side. */
  lemma TreeGrows(sha: Sha256, p: Tree, keys: seq<seq<byte>>, tree: seq<byte>, from: nat, to: nat, r: nat)
    requires |keys| == p.leaves && 1 <= from && to <= 2 * p.leaves && 1 <= r < 2 * p.leaves
    requires |tree| == 2 * p.leaves * p.width
    requires TreeFrom(sha, p, keys, tree, from, to)
    requires r == to || r == from - 1
    ensures r * p.width + p.width <= |tree|
    ensures var t := Splice(tree, r * p.width, Node(sha, p, keys, r));
            TreeFrom(sha, p, keys, t, if r == to then from else r, if r == to then to + 1 else to)
  {
    var w := p.width;
    RowFits(r, 2 * p.leaves, w);
    var t := Splice(tree, r * w, Node(sha, p, keys, r));
    var (lo, hi) := (if r == to then from else r, if r == to then to + 1 else to);
    forall j | lo <= j < hi
      ensures j * w + w <= |t| && Row(t, j, w) == Node(sha, p, keys, j)
    {
      RowFits(j, 2 * p.leaves, w);
      SpliceRow(tree, r, w, Node(sha, p, keys, r), j);
    }
  }
}
