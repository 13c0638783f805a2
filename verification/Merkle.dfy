/** The domain-separated Merkle tree: roots, inclusion proofs and their verification.
    `sha` stands for SHA-256; results that need collision resistance ask for it only on the
    byte strings actually hashed. */
module Merkle {
  import opened Words

  datatype MerkleError =
    | EmptyLeaves | BadLeafSize | IndexOutOfRange | BadRootSize | SideMismatch | NegativeIndex | BadBranchItem

  function LeafInput(leaf: Bytes): Bytes { [0] + leaf }

  function NodeInput(left: Bytes, right: Bytes): Bytes { [1] + left + right }

  function HashLeaf(sha: Bytes -> Digest, leaf: Bytes): Digest { sha(LeafInput(leaf)) }

  function HashNode(sha: Bytes -> Digest, left: Bytes, right: Bytes): Digest { sha(NodeInput(left, right)) }

  predicate Sized(items: seq<Bytes>) {
    forall i :: 0 <= i < |items| ==> |items[i]| == 32
  }

  /** The right child of pair `i`: the last node of an odd level is paired with itself. */
  function Right(level: seq<Digest>, i: nat): Digest
    requires 2 * i < |level|
  {
    if 2 * i + 1 < |level| then level[2 * i + 1] else level[2 * i]
  }

  function NextLevel(sha: Bytes -> Digest, level: seq<Digest>): seq<Digest> {
    seq((|level| + 1) / 2, i requires 0 <= i < (|level| + 1) / 2 => HashNode(sha, level[2 * i], Right(level, i)))
  }

  function LeafLevel(sha: Bytes -> Digest, leaves: seq<Bytes>): seq<Digest> {
    seq(|leaves|, i requires 0 <= i < |leaves| => HashLeaf(sha, leaves[i]))
  }

  /** Levels above `n` nodes. */
  function Height(n: nat): nat {
    if n <= 1 then 0 else 1 + Height((n + 1) / 2)
  }

  function RootOf(sha: Bytes -> Digest, level: seq<Digest>): Digest
    requires level != []
    decreases |level|
  {
    if |level| == 1 then level[0] else RootOf(sha, NextLevel(sha, level))
  }

  /** What is hashed when a sibling joins the running digest. */
  function JoinInput(below: Bytes, sibling: Bytes, siblingLeft: bool): Bytes {
    if siblingLeft then NodeInput(sibling, below) else NodeInput(below, sibling)
  }

  /** Hashing upwards along a branch; `left[i]` puts sibling `i` on the left. */
  function Climb(sha: Bytes -> Digest, start: Digest, branch: seq<Bytes>, left: seq<bool>): Digest
    requires |branch| == |left|
  {
    if branch == [] then start
    else
      var n := |branch| - 1;
      sha(JoinInput(Climb(sha, start, branch[..n], left[..n]), branch[n], left[n]))
  }

  method ReduceLevel(sha: Bytes -> Digest, level: seq<Digest>) returns (next: seq<Digest>)
    ensures next == NextLevel(sha, level)
  {
    next := [];
    var i := 0;
    while i < |level|
      invariant 0 <= i <= |level| + 1 && i % 2 == 0 && |next| == i / 2
      invariant next == NextLevel(sha, level)[..i / 2]
    {
      var left := level[i];
      var right := left;
      if i + 1 < |level| { right := level[i + 1]; }
      assert NextLevel(sha, level)[i / 2] == HashNode(sha, left, right);
      next := next + [HashNode(sha, left, right)];
      i := i + 2;
    }
  }

  method HashLeaves(sha: Bytes -> Digest, leaves: seq<Bytes>) returns (r: Result<seq<Digest>, MerkleError>)
    ensures r.Ok? <==> Sized(leaves)
    ensures r.Ok? ==> r.value == LeafLevel(sha, leaves)
    ensures r.Err? ==> r.error == BadLeafSize
  {
    var level: seq<Digest> := [];
    for i := 0 to |leaves|
      invariant level == LeafLevel(sha, leaves)[..i]
      invariant forall j :: 0 <= j < i ==> |leaves[j]| == 32
    {
      if |leaves[i]| != 32 { return Err(BadLeafSize); }
      level := level + [HashLeaf(sha, leaves[i])];
    }
    return Ok(level);
  }

  method MerkleRoot(sha: Bytes -> Digest, leaves: seq<Bytes>) returns (r: Result<Digest, MerkleError>)
    ensures r == if leaves == [] then Err(EmptyLeaves)
                 else if !Sized(leaves) then Err(BadLeafSize)
                 else Ok(RootOf(sha, LeafLevel(sha, leaves)))
  {
    if |leaves| == 0 { return Err(EmptyLeaves); }
    var hashed := HashLeaves(sha, leaves);
    if hashed.Err? { return Err(hashed.error); }
    var level := hashed.value;
    while |level| > 1
      invariant level != []
      invariant RootOf(sha, level) == RootOf(sha, LeafLevel(sha, leaves))
      decreases |level|
    {
      level := ReduceLevel(sha, level);
    }
    return Ok(level[0]);
  }

  /** The smallest trees, hash by hash: leaves are hashed behind a zero byte, nodes behind a one, and a third leaf is
      paired with itself. */
  lemma SmallTrees(sha: Bytes -> Digest, a: Bytes, b: Bytes, c: Bytes)
    ensures var x, y, z := sha([0] + a), sha([0] + b), sha([0] + c);
            && RootOf(sha, LeafLevel(sha, [a])) == x
            && RootOf(sha, LeafLevel(sha, [a, b])) == sha([1] + x + y)
            && RootOf(sha, LeafLevel(sha, [a, b, c])) == sha([1] + sha([1] + x + y) + sha([1] + z + z))
  {
    var x, y, z := sha([0] + a), sha([0] + b), sha([0] + c);
    assert LeafLevel(sha, [a]) == [x] && LeafLevel(sha, [a, b]) == [x, y] && LeafLevel(sha, [a, b, c]) == [x, y, z];
    assert NextLevel(sha, [x, y]) == [sha([1] + x + y)];
    var l, r := sha([1] + x + y), sha([1] + z + z);
    assert NextLevel(sha, [x, y, z]) == [l, r];
    assert NextLevel(sha, [l, r]) == [sha([1] + l + r)];
    assert RootOf(sha, [l, r]) == sha([1] + l + r);
    assert RootOf(sha, [x, y, z]) == RootOf(sha, [l, r]);
  }

  /** The sibling of node `idx`; joining it gives the parent on the next level. */
  method Sibling(sha: Bytes -> Digest, level: seq<Digest>, idx: nat) returns (sib: Digest, sibIsLeft: bool)
    requires idx < |level| && |level| > 1
    ensures sha(JoinInput(level[idx], sib, sibIsLeft)) == NextLevel(sha, level)[idx / 2]
    ensures sibIsLeft <==> idx % 2 == 1
  {
    if idx % 2 == 0 {
      sibIsLeft := false;
      if idx + 1 < |level| { sib := level[idx + 1]; } else { sib := level[idx]; }
    } else {
      sibIsLeft := true;
      sib := level[idx - 1];
    }
    assert 2 * (idx / 2) == if sibIsLeft then idx - 1 else idx;
  }

  lemma ClimbOneMore(sha: Bytes -> Digest, start: Digest, branch: seq<Bytes>, left: seq<bool>, sib: Digest,
                     sibIsLeft: bool)
    requires |branch| == |left|
    ensures Climb(sha, start, branch + [sib], left + [sibIsLeft])
            == sha(JoinInput(Climb(sha, start, branch, left), sib, sibIsLeft))
  {
    assert (branch + [sib])[..|branch|] == branch && (left + [sibIsLeft])[..|left|] == left;
  }

  datatype Proof = Proof(branch: seq<Bytes>, left: seq<bool>, root: Digest)

  /** The index the sides spell, lowest level first. */
  function Position(left: seq<bool>): nat {
    if left == [] then 0 else (if left[0] then 1 else 0) + 2 * Position(left[1..])
  }

  /** The low `k` bits of an index as sides, and what is left of it above them. */
  ghost function Sides(index: nat, k: nat): seq<bool> {
    if k == 0 then [] else [index % 2 == 1] + Sides(index / 2, k - 1)
  }

  ghost function Above(index: nat, k: nat): nat {
    if k == 0 then index else Above(index / 2, k - 1)
  }

  lemma {:induction false} OneMoreSide(index: nat, k: nat)
    ensures Sides(index, k + 1) == Sides(index, k) + [Above(index, k) % 2 == 1]
    ensures Above(index, k + 1) == Above(index, k) / 2
  {
    if k > 0 { OneMoreSide(index / 2, k - 1); }
  }

  lemma {:induction false} SidesSpell(index: nat, k: nat)
    requires Above(index, k) == 0
    ensures Position(Sides(index, k)) == index
  {
    if k > 0 {
      SidesSpell(index / 2, k - 1);
      assert Sides(index, k)[1..] == Sides(index / 2, k - 1);
    }
  }

  /** The branch of node `index` of a level: one sibling for each level above, sides that spell the index, and a climb
      to the root. */
  method BuildBranch(sha: Bytes -> Digest, bottom: seq<Digest>, index: nat)
    returns (branch: seq<Bytes>, left: seq<bool>, root: Digest)
    requires index < |bottom|
    ensures root == RootOf(sha, bottom) && |branch| == |left| == Height(|bottom|) && Sized(branch)
    ensures Climb(sha, bottom[index], branch, left) == root && Position(left) == index
  {
    var level := bottom;
    var idx: nat := index;
    branch, left := [], [];
    while |level| > 1
      invariant level != [] && idx < |level| && |branch| == |left| && |branch| + Height(|level|) == Height(|bottom|)
      invariant RootOf(sha, level) == RootOf(sha, bottom) && Sized(branch)
      invariant Climb(sha, bottom[index], branch, left) == level[idx]
      invariant left == Sides(index, |left|) && idx == Above(index, |left|)
      decreases |level|
    {
      var sib, sibIsLeft := Sibling(sha, level, idx);
      ClimbOneMore(sha, bottom[index], branch, left, sib, sibIsLeft);
      OneMoreSide(index, |left|);
      branch, left := branch + [sib], left + [sibIsLeft];
      level := ReduceLevel(sha, level);
      idx := idx / 2;
    }
    SidesSpell(index, |left|);
    root := level[0];
  }

  /** The proof opens the same root, has one sibling a level, spells the index, and climbs from its leaf to the root. */
  method MerkleProof(sha: Bytes -> Digest, leaves: seq<Bytes>, index: int) returns (r: Result<Proof, MerkleError>)
    ensures r.Ok? <==> leaves != [] && 0 <= index < |leaves| && Sized(leaves)
    ensures r.Ok? ==>
              && r.value.root == RootOf(sha, LeafLevel(sha, leaves))
              && |r.value.branch| == |r.value.left| == Height(|leaves|)
              && Sized(r.value.branch) && Position(r.value.left) == index
              && Climb(sha, HashLeaf(sha, leaves[index]), r.value.branch, r.value.left) == r.value.root
  {
    if |leaves| == 0 { return Err(EmptyLeaves); }
    if index < 0 || index >= |leaves| { return Err(IndexOutOfRange); }
    var hashed := HashLeaves(sha, leaves);
    if hashed.Err? { return Err(hashed.error); }
    var branch, left, root := BuildBranch(sha, hashed.value, index);
    return Ok(Proof(branch, left, root));
  }

  method VerifyMerkleProof(sha: Bytes -> Digest, leaf: Bytes, index: int, branch: seq<Bytes>, left: seq<bool>,
                           expectedRoot: Bytes)
    returns (r: Result<bool, MerkleError>)
    ensures r.Ok? <==> |leaf| == 32 && |expectedRoot| == 32 && |branch| == |left| && index >= 0 && Sized(branch)
    ensures r.Ok? ==> (r.value <==> Climb(sha, HashLeaf(sha, leaf), branch, left) == expectedRoot)
  {
    if |leaf| != 32 { return Err(BadLeafSize); }
    if |expectedRoot| != 32 { return Err(BadRootSize); }
    if |branch| != |left| { return Err(SideMismatch); }
    if index < 0 { return Err(NegativeIndex); }
    var cur := HashLeaf(sha, leaf);
    for i := 0 to |branch|
      invariant cur == Climb(sha, HashLeaf(sha, leaf), branch[..i], left[..i])
      invariant forall j :: 0 <= j < i ==> |branch[j]| == 32
    {
      var sib := branch[i];
      if |sib| != 32 { return Err(BadBranchItem); }
      assert branch[..i + 1][..i] == branch[..i] && left[..i + 1][..i] == left[..i];
      if left[i] { cur := HashNode(sha, sib, cur); } else { cur := HashNode(sha, cur, sib); }
    }
    assert branch[..|branch|] == branch && left[..|left|] == left;
    return Ok(cur == expectedRoot);
  }

  /** A branch has ceil(log2 n) siblings. */
  lemma {:induction false} HeightIsCeilLog2(n: nat)
    requires n >= 1
    ensures n <= Pow2(Height(n))
    ensures n > 1 ==> Pow2(Height(n) - 1) < n
  {
    if n > 1 {
      HeightIsCeilLog2((n + 1) / 2);
    }
  }

  // ----- soundness -----

  /** The tree behind a root; a duplicated node is a `Node` with twice the same child. */
  datatype Tree = Leaf(leaf: Bytes) | Node(left: Tree, right: Tree)

  ghost function TreeDigest(sha: Bytes -> Digest, t: Tree): Digest {
    match t
    case Leaf(x) => HashLeaf(sha, x)
    case Node(l, r) => HashNode(sha, TreeDigest(sha, l), TreeDigest(sha, r))
  }

  /** The subtree reached from the top, taking the right child where the sibling is on the left. */
  ghost function Descend(t: Tree, left: seq<bool>): Option<Tree> {
    if left == [] then Some(t)
    else
      match t
      case Leaf(_) => None
      case Node(l, r) => Descend(if left[|left| - 1] then r else l, left[..|left| - 1])
  }

  /** All leaves are `d` levels below the top. */
  ghost predicate Perfect(t: Tree, d: nat) {
    match t
    case Leaf(_) => d == 0
    case Node(l, r) => d > 0 && Perfect(l, d - 1) && Perfect(r, d - 1)
  }

  /** Everything hashed to compute the digest of a tree. */
  ghost function TreeInputs(sha: Bytes -> Digest, t: Tree): set<Bytes> {
    match t
    case Leaf(x) => {LeafInput(x)}
    case Node(l, r) =>
      {NodeInput(TreeDigest(sha, l), TreeDigest(sha, r))} + TreeInputs(sha, l) + TreeInputs(sha, r)
  }

  /** Everything hashed while climbing. */
  ghost function ClimbInputs(sha: Bytes -> Digest, start: Digest, branch: seq<Bytes>, left: seq<bool>): set<Bytes>
    requires |branch| == |left|
  {
    if branch == [] then {}
    else
      var n := |branch| - 1;
      ClimbInputs(sha, start, branch[..n], left[..n])
      + {JoinInput(Climb(sha, start, branch[..n], left[..n]), branch[n], left[n])}
  }

  ghost predicate NoCollisions(sha: Bytes -> Digest, inputs: set<Bytes>) {
    forall x, y :: x in inputs && y in inputs && sha(x) == sha(y) ==> x == y
  }

  lemma NodeInputInjective(a: Bytes, b: Bytes, c: Bytes, d: Bytes)
    requires |a| == |b| == |c| == |d| == 32
    requires NodeInput(a, b) == NodeInput(c, d)
    ensures a == c && b == d
  {
    SplitConcat([1] + a, b, [1] + c, d);
    SplitConcat([1], a, [1], c);
  }

  lemma LeafNodeDisjoint(leaf: Bytes, a: Bytes, b: Bytes)
    ensures LeafInput(leaf) != NodeInput(a, b)
  {
    assert LeafInput(leaf)[0] == 0 && NodeInput(a, b)[0] == 1;
  }

  /** A branch of any length that climbs to the digest of a tree started at the leaf its sides lead to. */
  lemma {:induction false} ClimbFindsLeaf(sha: Bytes -> Digest, t: Tree, leaf: Bytes,
                                          branch: seq<Bytes>, left: seq<bool>, inputs: set<Bytes>)
    requires |branch| == |left| && Sized(branch)
    requires NoCollisions(sha, inputs) && TreeInputs(sha, t) <= inputs && LeafInput(leaf) in inputs
    requires ClimbInputs(sha, HashLeaf(sha, leaf), branch, left) <= inputs
    requires Climb(sha, HashLeaf(sha, leaf), branch, left) == TreeDigest(sha, t)
    ensures Descend(t, left) == Some(Leaf(leaf))
    decreases t
  {
    match t
    case Leaf(x) =>
      if branch == [] {
        SplitConcat([0], leaf, [0], x);
      } else {
        var n := |branch| - 1;
        var below := Climb(sha, HashLeaf(sha, leaf), branch[..n], left[..n]);
        LeafNodeDisjoint(x, branch[n], below);
        LeafNodeDisjoint(x, below, branch[n]);
      }
    case Node(l, r) =>
      if branch == [] {
        LeafNodeDisjoint(leaf, TreeDigest(sha, l), TreeDigest(sha, r));
      } else {
        var n := |branch| - 1;
        var below := Climb(sha, HashLeaf(sha, leaf), branch[..n], left[..n]);
        if left[n] {
          NodeInputInjective(branch[n], below, TreeDigest(sha, l), TreeDigest(sha, r));
          ClimbFindsLeaf(sha, r, leaf, branch[..n], left[..n], inputs);
        } else {
          NodeInputInjective(below, branch[n], TreeDigest(sha, l), TreeDigest(sha, r));
          ClimbFindsLeaf(sha, l, leaf, branch[..n], left[..n], inputs);
        }
      }
  }

  /** Equal digests, equal trees. */
  lemma {:induction false} DigestInjective(sha: Bytes -> Digest, t: Tree, u: Tree, inputs: set<Bytes>)
    requires NoCollisions(sha, inputs) && TreeInputs(sha, t) <= inputs && TreeInputs(sha, u) <= inputs
    requires TreeDigest(sha, t) == TreeDigest(sha, u)
    ensures t == u
    decreases t
  {
    match (t, u)
    case (Leaf(x), Leaf(y)) => SplitConcat([0], x, [0], y);
    case (Leaf(x), Node(l, r)) => LeafNodeDisjoint(x, TreeDigest(sha, l), TreeDigest(sha, r));
    case (Node(l, r), Leaf(x)) => LeafNodeDisjoint(x, TreeDigest(sha, l), TreeDigest(sha, r));
    case (Node(l, r), Node(l', r')) =>
      NodeInputInjective(TreeDigest(sha, l), TreeDigest(sha, r), TreeDigest(sha, l'), TreeDigest(sha, r'));
      DigestInjective(sha, l, l', inputs);
      DigestInjective(sha, r, r', inputs);
  }

  // ----- from lists to trees -----

  ghost function PairUp(ts: seq<Tree>): seq<Tree> {
    seq((|ts| + 1) / 2, i requires 0 <= i < (|ts| + 1) / 2 =>
      Node(ts[2 * i], if 2 * i + 1 < |ts| then ts[2 * i + 1] else ts[2 * i]))
  }

  ghost function TopTree(ts: seq<Tree>): Tree
    requires ts != []
    decreases |ts|
  {
    if |ts| == 1 then ts[0] else TopTree(PairUp(ts))
  }

  ghost function LeafTrees(leaves: seq<Bytes>): seq<Tree> {
    seq(|leaves|, i requires 0 <= i < |leaves| => Leaf(leaves[i]))
  }

  ghost function TreeOf(leaves: seq<Bytes>): Tree
    requires leaves != []
  {
    TopTree(LeafTrees(leaves))
  }

  ghost predicate Matches(sha: Bytes -> Digest, level: seq<Digest>, ts: seq<Tree>) {
    |level| == |ts| && forall i :: 0 <= i < |ts| ==> level[i] == TreeDigest(sha, ts[i])
  }

  lemma {:induction false} RootIsTreeDigest(sha: Bytes -> Digest, level: seq<Digest>, ts: seq<Tree>)
    requires ts != [] && Matches(sha, level, ts)
    ensures RootOf(sha, level) == TreeDigest(sha, TopTree(ts))
    decreases |ts|
  {
    if |ts| > 1 {
      RootIsTreeDigest(sha, NextLevel(sha, level), PairUp(ts));
    }
  }

  lemma {:induction false} TopTreePerfect(ts: seq<Tree>, d: nat)
    requires ts != [] && AllPerfect(ts, d)
    ensures Perfect(TopTree(ts), d + Height(|ts|))
    decreases |ts|
  {
    if |ts| > 1 {
      PairsPerfect(ts, d);
      TopTreePerfect(PairUp(ts), d + 1);
    }
  }

  ghost predicate AllPerfect(ts: seq<Tree>, d: nat) { forall i :: 0 <= i < |ts| ==> Perfect(ts[i], d) }

  lemma PairsPerfect(ts: seq<Tree>, d: nat)
    requires AllPerfect(ts, d)
    ensures AllPerfect(PairUp(ts), d + 1)
  {
  }

  lemma {:induction false} PerfectOnce(t: Tree, d: nat, e: nat)
    requires Perfect(t, d) && Perfect(t, e)
    ensures d == e
  {
    match t
    case Leaf(_) =>
    case Node(l, _) => PerfectOnce(l, d - 1, e - 1);
  }

  /** A path that ends at a leaf of a perfect tree is as long as the tree is high. */
  lemma {:induction false} DescendDepth(t: Tree, d: nat, left: seq<bool>)
    requires Perfect(t, d) && Descend(t, left).Some? && Descend(t, left).value.Leaf?
    ensures |left| == d
    decreases |left|
  {
    if left != [] {
      var n := |left| - 1;
      DescendDepth(if left[n] then t.right else t.left, d - 1, left[..n]);
    }
  }

  // ----- positions -----

  /** The leaf of a list of `n` that the sides lead to; the last node of an odd level is both children of its pair. */
  function Place(n: nat, left: seq<bool>): (i: nat)
    requires n >= 1 && |left| == Height(n)
    ensures i < n
  {
    if n == 1 then 0
    else
      var p := Place((n + 1) / 2, left[1..]);
      if left[0] && 2 * p + 1 < n then 2 * p + 1 else 2 * p
  }

  /** An index within the list is its own place. */
  lemma {:induction false} PlaceIsPosition(n: nat, left: seq<bool>)
    requires n >= 1 && |left| == Height(n) && Position(left) < n
    ensures Place(n, left) == Position(left)
  {
    if n > 1 { PlaceIsPosition((n + 1) / 2, left[1..]); }
  }

  /** The lowest side is the last step of the way down. */
  lemma {:induction false} DescendLast(t: Tree, left: seq<bool>)
    requires left != []
    ensures Descend(t, left) == match Descend(t, left[1..])
                                case Some(Node(l, r)) => Some(if left[0] then r else l)
                                case _ => None
    decreases |left|
  {
    if |left| > 1 && t.Node? {
      var n := |left| - 1;
      assert left[..n][1..] == left[1..][..n - 1];
      DescendLast(if left[n] then t.right else t.left, left[..n]);
    }
  }

  lemma {:induction false} DescendTop(ts: seq<Tree>, left: seq<bool>)
    requires ts != [] && |left| == Height(|ts|)
    ensures Descend(TopTree(ts), left) == Some(ts[Place(|ts|, left)])
    decreases |ts|
  {
    if |ts| > 1 {
      DescendTop(PairUp(ts), left[1..]);
      DescendLast(TopTree(ts), left);
      ChildAt(ts, Place((|ts| + 1) / 2, left[1..]), left[0], Place(|ts|, left));
    }
  }

  /** The child of a pair on the side taken; an odd last node is both children. */
  lemma ChildAt(ts: seq<Tree>, p: nat, right: bool, i: nat)
    requires p < (|ts| + 1) / 2 && i == if right && 2 * p + 1 < |ts| then 2 * p + 1 else 2 * p
    ensures p < |PairUp(ts)| && PairUp(ts)[p].Node?
    ensures (if right then PairUp(ts)[p].right else PairUp(ts)[p].left) == ts[i]
  {
  }

  lemma {:induction false} TopTreeInjective(ts: seq<Tree>, us: seq<Tree>)
    requires ts != [] && |ts| == |us| && TopTree(ts) == TopTree(us)
    ensures ts == us
    decreases |ts|
  {
    if |ts| > 1 {
      TopTreeInjective(PairUp(ts), PairUp(us));
      forall i | 0 <= i < |ts| ensures ts[i] == us[i] {
        assert PairUp(ts)[i / 2] == PairUp(us)[i / 2];
      }
    }
  }

  /** Soundness: a branch of any length accepted against the root of `leaves` is as long as the tree is high, and
      proves the leaf at the position its sides spell. The index given to the verifier plays no part. */
  lemma MerkleSound(sha: Bytes -> Digest, leaves: seq<Bytes>, leaf: Bytes, branch: seq<Bytes>, left: seq<bool>)
    requires leaves != [] && |branch| == |left| && Sized(branch)
    requires NoCollisions(sha, TreeInputs(sha, TreeOf(leaves)) + {LeafInput(leaf)}
                               + ClimbInputs(sha, HashLeaf(sha, leaf), branch, left))
    requires Climb(sha, HashLeaf(sha, leaf), branch, left) == RootOf(sha, LeafLevel(sha, leaves))
    ensures |branch| == Height(|leaves|) && leaf == leaves[Place(|leaves|, left)]
    ensures Position(left) < |leaves| ==> leaf == leaves[Position(left)]
  {
    RootIsTreeDigest(sha, LeafLevel(sha, leaves), LeafTrees(leaves));
    ClimbFindsLeaf(sha, TreeOf(leaves), leaf, branch, left,
                   TreeInputs(sha, TreeOf(leaves)) + {LeafInput(leaf)}
                       + ClimbInputs(sha, HashLeaf(sha, leaf), branch, left));
    PathIsHeight(leaves, leaf, left);
    LeafAtPlace(leaves, leaf, left);
    if Position(left) < |leaves| { PlaceIsPosition(|leaves|, left); }
  }

  lemma LeavesPerfect(leaves: seq<Bytes>)
    ensures |LeafTrees(leaves)| == |leaves| && AllPerfect(LeafTrees(leaves), 0)
  {
  }

  lemma TopPathLength(ts: seq<Tree>, d: nat, left: seq<bool>)
    requires ts != [] && AllPerfect(ts, d)
    requires Descend(TopTree(ts), left).Some? && Descend(TopTree(ts), left).value.Leaf?
    ensures |left| == d + Height(|ts|)
  {
    TopTreePerfect(ts, d);
    DescendDepth(TopTree(ts), d + Height(|ts|), left);
  }

  /** The way down the tree of a list to a leaf is the tree's height long. */
  lemma PathIsHeight(leaves: seq<Bytes>, leaf: Bytes, left: seq<bool>)
    requires leaves != [] && Descend(TreeOf(leaves), left) == Some(Leaf(leaf))
    ensures |left| == Height(|leaves|)
  {
    LeavesPerfect(leaves);
    TopPathLength(LeafTrees(leaves), 0, left);
  }

  lemma PathEndsAt(ts: seq<Tree>, left: seq<bool>, t: Tree)
    requires ts != [] && |left| == Height(|ts|) && Descend(TopTree(ts), left) == Some(t)
    ensures t == ts[Place(|ts|, left)]
  {
    DescendTop(ts, left);
  }

  lemma LeafTreeAt(leaves: seq<Bytes>, ts: seq<Tree>, i: nat)
    requires ts == LeafTrees(leaves) && i < |ts|
    ensures i < |leaves| && ts[i] == Leaf(leaves[i])
  {
  }

  /** It ends at the leaf in that place. */
  lemma LeafAtPlace(leaves: seq<Bytes>, leaf: Bytes, left: seq<bool>)
    requires leaves != [] && Descend(TreeOf(leaves), left) == Some(Leaf(leaf)) && |left| == Height(|leaves|)
    ensures leaf == leaves[Place(|leaves|, left)]
  {
    LeavesPerfect(leaves);
    LeafTreeAtPlace(leaves, LeafTrees(leaves), leaf, left);
  }

  lemma LeafTreeAtPlace(leaves: seq<Bytes>, ts: seq<Tree>, leaf: Bytes, left: seq<bool>)
    requires ts == LeafTrees(leaves) && |ts| == |leaves| > 0
    requires |left| == Height(|ts|) && Descend(TopTree(ts), left) == Some(Leaf(leaf))
    ensures leaf == leaves[Place(|leaves|, left)]
  {
    PathEndsAt(ts, left, Leaf(leaf));
    LeafTreeAt(leaves, ts, Place(|ts|, left));
  }

  /** Two leaf lists of one length with the same root are the same list. */
  lemma MerkleRootBinding(sha: Bytes -> Digest, a: seq<Bytes>, b: seq<Bytes>)
    requires |a| == |b| && a != []
    requires NoCollisions(sha, TreeInputs(sha, TreeOf(a)) + TreeInputs(sha, TreeOf(b)))
    requires RootOf(sha, LeafLevel(sha, a)) == RootOf(sha, LeafLevel(sha, b))
    ensures a == b
  {
    RootIsTreeDigest(sha, LeafLevel(sha, a), LeafTrees(a));
    RootIsTreeDigest(sha, LeafLevel(sha, b), LeafTrees(b));
    DigestInjective(sha, TreeOf(a), TreeOf(b), TreeInputs(sha, TreeOf(a)) + TreeInputs(sha, TreeOf(b)));
    TopTreeInjective(LeafTrees(a), LeafTrees(b));
    forall i | 0 <= i < |a| ensures a[i] == b[i] {
      assert LeafTrees(a)[i] == LeafTrees(b)[i];
    }
  }

  /** Lists of trees of one height and different lengths under one top: the longer list repeats itself. */
  lemma {:induction false} TopTreeRepeats(ts: seq<Tree>, us: seq<Tree>, d: nat) returns (i: nat, j: nat)
    requires 0 < |ts| < |us| && AllPerfect(ts, d) && AllPerfect(us, d) && TopTree(ts) == TopTree(us)
    ensures i < j < |us| && us[i] == us[j]
    decreases |us|
  {
    var vs := PairUp(us);
    i, j := 0, 1;
    if |ts| == 1 {
      TopTreePerfect(us, d);
      PerfectOnce(TopTree(us), d, d + Height(|us|));
      assert false;
    } else if |PairUp(ts)| < |vs| {
      PairsPerfect(ts, d);
      PairsPerfect(us, d);
      var p, q := TopTreeRepeats(PairUp(ts), vs, d + 1);
      assert vs[p] == vs[q];
      i, j := 2 * p, 2 * q;
    } else {
      TopTreeInjective(PairUp(ts), vs);
      var n := |ts|;
      assert PairUp(ts)[n / 2] == vs[n / 2];
      i, j := n - 1, n;
    }
  }

  /** A longer list with the same root repeats a leaf. */
  lemma MerkleRootRepeats(sha: Bytes -> Digest, a: seq<Bytes>, b: seq<Bytes>) returns (i: nat, j: nat)
    requires 0 < |a| < |b|
    requires NoCollisions(sha, TreeInputs(sha, TreeOf(a)) + TreeInputs(sha, TreeOf(b)))
    requires RootOf(sha, LeafLevel(sha, a)) == RootOf(sha, LeafLevel(sha, b))
    ensures i < j < |b| && b[i] == b[j]
  {
    RootIsTreeDigest(sha, LeafLevel(sha, a), LeafTrees(a));
    RootIsTreeDigest(sha, LeafLevel(sha, b), LeafTrees(b));
    DigestInjective(sha, TreeOf(a), TreeOf(b), TreeInputs(sha, TreeOf(a)) + TreeInputs(sha, TreeOf(b)));
    LeavesPerfect(a);
    LeavesPerfect(b);
    i, j := TopTreeRepeats(LeafTrees(a), LeafTrees(b), 0);
    assert LeafTrees(b)[i] == LeafTrees(b)[j];
  }

  /** Lists of different lengths can share a root: an odd last leaf counts twice. */
  lemma OddLeafDuplicated(sha: Bytes -> Digest, a: Bytes, b: Bytes, c: Bytes)
    ensures RootOf(sha, LeafLevel(sha, [a, b, c])) == RootOf(sha, LeafLevel(sha, [a, b, c, c]))
  {
    var x, y := LeafLevel(sha, [a, b, c]), LeafLevel(sha, [a, b, c, c]);
    assert NextLevel(sha, x) == NextLevel(sha, y);
  }
}
