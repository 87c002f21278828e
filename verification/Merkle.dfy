/** The Merkle whitelist helper: building the tree, extracting proofs, verifying them. */
module Merkle {
  import opened Bytes
  import opened Wrappers

  type Digest = d: Bytes | |d| == 32 witness seq(32, _ => 0)

  /** SHA-256, of which only the length of its digests is used. */
  type Hash = Bytes -> Digest

  type Level = seq<Digest>

  /** A leaf as the caller gives it: text, which gets hashed, or a buffer, taken as a hash already. */
  datatype Leaf = Text(data: Bytes) | Raw(hash: Bytes)

  datatype Tree = Tree(leaves: Level, levels: seq<Level>)

  function LeafHash(h: Hash, leaf: Leaf): Bytes {
    match leaf
    case Text(data) => h(data)
    case Raw(hash) => hash
  }

  /** `Buffer.compare(a, b) < 0`: the lexicographic order on bytes. */
  predicate Less(a: Bytes, b: Bytes) {
    if b == [] then false
    else if a == [] then true
    else a[0] < b[0] || (a[0] == b[0] && Less(a[1..], b[1..]))
  }

  function SortedPair(a: Bytes, b: Bytes): Bytes {
    if Less(a, b) then a + b else b + a
  }

  function HashPair(h: Hash, a: Bytes, b: Bytes): Digest {
    h(SortedPair(a, b))
  }

  lemma {:induction false} LessTotal(a: Bytes, b: Bytes)
    ensures a == b || Less(a, b) || Less(b, a)
    ensures !(Less(a, b) && Less(b, a))
  {
    if a != [] && b != [] {
      LessTotal(a[1..], b[1..]);
      assert a == [a[0]] + a[1..] && b == [b[0]] + b[1..];
    }
  }

  /** Two strings agree up to k, where the first ends or has the smaller byte. */
  ghost predicate SplitsAt(a: Bytes, b: Bytes, k: nat) {
    k <= |a| && k < |b| && a[..k] == b[..k] && (k == |a| || a[k] < b[k])
  }

  /** The order is decided by the first byte that differs; a proper prefix comes first. */
  lemma {:induction false} LessIsLexicographic(a: Bytes, b: Bytes)
    ensures Less(a, b) <==> exists k: nat :: SplitsAt(a, b, k)
  {
    if b == [] {
    } else if a == [] || a[0] < b[0] {
      assert SplitsAt(a, b, 0);
    } else {
      var ta, tb := a[1..], b[1..];
      LessIsLexicographic(ta, tb);
      if Less(a, b) {
        var k: nat :| SplitsAt(ta, tb, k);
        assert a[..k + 1] == [a[0]] + ta[..k] && b[..k + 1] == [b[0]] + tb[..k];
        assert SplitsAt(a, b, k + 1);
      }
      forall k: nat | SplitsAt(a, b, k) ensures k > 0 && SplitsAt(ta, tb, k - 1) && a[0] == b[0] {
        if k > 0 {
          assert a[0] == a[..k][0] == b[..k][0] == b[0];
          assert ta[..k - 1] == a[..k][1..] && tb[..k - 1] == b[..k][1..];
        }
      }
    }
  }

  /** The smaller hash of a pair comes first. */
  lemma PairIsSorted(a: Digest, b: Digest)
    ensures var s := SortedPair(a, b);
            (s == a + b || s == b + a) && !Less(s[32..], s[..32])
  {
    LessTotal(a, b);
    assert (a + b)[..32] == a && (a + b)[32..] == b && (b + a)[..32] == b && (b + a)[32..] == a;
  }

  /** Pairs are unordered: swapping the two hashes does not change their parent. */
  lemma HashPairSymmetric(h: Hash, a: Bytes, b: Bytes)
    ensures HashPair(h, a, b) == HashPair(h, b, a)
  {
    LessTotal(a, b);
  }

  // ----- Building -----

  /** The parents of the nodes from position i on; an odd last node is promoted unchanged. */
  function ParentsFrom(h: Hash, level: Level, i: nat, done: Level): Level
    decreases |level| - i
  {
    if i >= |level| then done
    else if i + 1 < |level| then ParentsFrom(h, level, i + 2, done + [HashPair(h, level[i], level[i + 1])])
    else ParentsFrom(h, level, i + 2, done + [level[i]])
  }

  function Parents(h: Hash, level: Level): Level {
    ParentsFrom(h, level, 0, [])
  }

  /** The parent at position k. */
  function ParentAt(h: Hash, level: Level, k: nat): Digest
    requires 2 * k < |level|
  {
    if 2 * k + 1 < |level| then HashPair(h, level[2 * k], level[2 * k + 1]) else level[2 * k]
  }

  lemma {:induction false} ParentsFromAre(h: Hash, level: Level, i: nat, done: Level)
    requires i == 2 * |done| && i <= |level| + 1
    requires forall k :: 0 <= k < |done| ==> 2 * k < |level| && done[k] == ParentAt(h, level, k)
    ensures var r := ParentsFrom(h, level, i, done);
            |r| == (|level| + 1) / 2 && forall k :: 0 <= k < |r| ==> r[k] == ParentAt(h, level, k)
    decreases |level| + 2 - i
  {
    if i + 1 < |level| {
      ParentsFromAre(h, level, i + 2, done + [HashPair(h, level[i], level[i + 1])]);
    } else if i < |level| {
      ParentsFromAre(h, level, i + 2, done + [level[i]]);
    }
  }

  /** Half as many nodes, rounded up, each the parent of its two children or a promoted odd node. */
  lemma ParentsAre(h: Hash, level: Level)
    ensures |Parents(h, level)| == (|level| + 1) / 2
    ensures forall k :: 0 <= k < |Parents(h, level)| ==> Parents(h, level)[k] == ParentAt(h, level, k)
  {
    ParentsFromAre(h, level, 0, []);
  }

  /** A tree: the given leaves at the bottom, parents above, one node at the top. */
  ghost predicate IsTree(h: Hash, leaves: Level, levels: seq<Level>) {
    && |levels| >= 1 && levels[0] == leaves && |leaves| >= 1
    && |levels[|levels| - 1]| == 1
    && forall n :: 0 <= n < |levels| - 1 ==> |levels[n]| > 1 && levels[n + 1] == Parents(h, levels[n])
  }

  method BuildTree(h: Hash, leaves: Level) returns (r: Result<seq<Level>, string>)
    ensures leaves == [] <==> r.Failure?
    ensures r.Success? ==> IsTree(h, leaves, r.value)
  {
    if |leaves| == 0 {
      return Failure("Cannot build tree with no leaves");
    }
    var tree := [leaves];
    var currentLevel := leaves;
    while |currentLevel| > 1
      invariant |currentLevel| >= 1 && |tree| >= 1 && tree[0] == leaves && tree[|tree| - 1] == currentLevel
      invariant forall n :: 0 <= n < |tree| - 1 ==> |tree[n]| > 1 && tree[n + 1] == Parents(h, tree[n])
      decreases |currentLevel|
    {
      var nextLevel: Level := [];
      var i := 0;
      while i < |currentLevel|
        invariant ParentsFrom(h, currentLevel, i, nextLevel) == Parents(h, currentLevel)
        decreases |currentLevel| - i
      {
        if i + 1 < |currentLevel| {
          nextLevel := nextLevel + [HashPair(h, currentLevel[i], currentLevel[i + 1])];
        } else {
          nextLevel := nextLevel + [currentLevel[i]];
        }
        i := i + 2;
      }
      ParentsAre(h, currentLevel);
      tree := tree + [nextLevel];
      currentLevel := nextLevel;
    }
    return Success(tree);
  }

  function HashAll(h: Hash, leaves: seq<Bytes>): Level {
    seq(|leaves|, i requires 0 <= i < |leaves| => h(leaves[i]))
  }

  ghost predicate IsTreeOf(h: Hash, data: seq<Bytes>, t: Tree) {
    t.leaves == HashAll(h, data) && IsTree(h, t.leaves, t.levels)
  }

  /** The constructor. */
  method NewMerkleTree(h: Hash, data: seq<Bytes>) returns (r: Result<Tree, string>)
    ensures data == [] <==> r.Failure?
    ensures r.Success? ==> IsTreeOf(h, data, r.value)
  {
    var leaves := HashAll(h, data);
    var levels := BuildTree(h, leaves);
    match levels {
      case Failure(m) => return Failure(m);
      case Success(v) => return Success(Tree(leaves, v));
    }
  }

  function GetRoot(t: Tree): Digest
    requires |t.levels| >= 1 && |t.levels[|t.levels| - 1]| >= 1
  {
    t.levels[|t.levels| - 1][0]
  }

  /** The number of times n can be halved, rounding up, before one is left: the ceiling of log2 n. */
  function Depth(n: nat): nat {
    if n <= 1 then 0 else 1 + Depth((n + 1) / 2)
  }

  lemma {:induction false} LevelSizes(h: Hash, leaves: Level, levels: seq<Level>, n: nat)
    requires IsTree(h, leaves, levels) && n < |levels|
    ensures |levels[n]| >= 1 && |levels| - 1 - n == Depth(|levels[n]|)
    decreases |levels| - n
  {
    if n < |levels| - 1 {
      ParentsAre(h, levels[n]);
      LevelSizes(h, leaves, levels, n + 1);
    }
  }

  /** The depth is the least d with 2^d >= n. */
  lemma {:induction false} DepthIsLog(n: nat)
    requires n >= 1
    ensures n <= Pow2(Depth(n)) && (Depth(n) > 0 ==> Pow2(Depth(n) - 1) < n)
  {
    if n > 1 {
      DepthIsLog((n + 1) / 2);
    }
  }

  // ----- Proofs -----

  /** The siblings on the way from a node to the root, from a given level up; a promoted node has none. */
  function Siblings(levels: seq<Level>, level: nat, index: nat, done: seq<Bytes>): seq<Bytes>
    decreases |levels| - level
  {
    if level + 1 >= |levels| then done
    else
      var sibling := if index % 2 == 1 then index - 1 else index + 1;
      Siblings(levels, level + 1, index / 2,
        if sibling < |levels[level]| then done + [levels[level][sibling]] else done)
  }

  /** Position of the first occurrence, from i on; the length of the list if there is none. */
  function IndexOf(hash: Bytes, leaves: Level, i: nat): (r: nat)
    requires i <= |leaves|
    ensures i <= r <= |leaves| && (forall j :: i <= j < r ==> leaves[j] != hash)
    ensures r < |leaves| ==> leaves[r] == hash
    decreases |leaves| - i
  {
    if i == |leaves| || leaves[i] == hash then i else IndexOf(hash, leaves, i + 1)
  }

  method GetProof(h: Hash, t: Tree, leaf: Leaf) returns (r: Result<seq<Bytes>, string>)
    ensures LeafHash(h, leaf) in t.leaves <==> r.Success?
    ensures r.Success? ==> r.value == Siblings(t.levels, 0, IndexOf(LeafHash(h, leaf), t.leaves, 0), [])
  {
    var leafHash := LeafHash(h, leaf);
    var index := IndexOf(leafHash, t.leaves, 0);
    if index == |t.leaves| {
      return Failure("Leaf not found in tree");
    }
    ghost var start := index;
    var proof := [];
    var level := 0;
    while level < |t.levels| - 1
      invariant Siblings(t.levels, level, index, proof) == Siblings(t.levels, 0, start, [])
      decreases |t.levels| - level
    {
      var currentLevel := t.levels[level];
      var isRightNode := index % 2 == 1;
      var siblingIndex := if isRightNode then index - 1 else index + 1;
      if siblingIndex < |currentLevel| {
        proof := proof + [currentLevel[siblingIndex]];
      }
      index := index / 2;
      level := level + 1;
    }
    return Success(proof);
  }

  /** The hash reached by folding a proof into a start. */
  function Climb(h: Hash, start: Bytes, proof: seq<Bytes>): Bytes
    decreases |proof|
  {
    if proof == [] then start else Climb(h, HashPair(h, start, proof[0]), proof[1..])
  }

  predicate Accepts(h: Hash, leaf: Leaf, proof: seq<Bytes>, root: Bytes) {
    Climb(h, LeafHash(h, leaf), proof) == root
  }

  method Verify(h: Hash, leaf: Leaf, proof: seq<Bytes>, root: Bytes) returns (ok: bool)
    ensures ok == Accepts(h, leaf, proof, root)
  {
    var hash := LeafHash(h, leaf);
    for i := 0 to |proof|
      invariant Climb(h, hash, proof[i..]) == Climb(h, LeafHash(h, leaf), proof)
    {
      assert proof[i..][1..] == proof[i + 1..];
      hash := HashPair(h, hash, proof[i]);
    }
    return hash == root;
  }

  lemma {:induction false} ClimbConcat(h: Hash, start: Bytes, a: seq<Bytes>, b: seq<Bytes>)
    ensures Climb(h, start, a + b) == Climb(h, Climb(h, start, a), b)
    decreases |a|
  {
    if a == [] {
      assert a + b == b;
    } else {
      assert (a + b)[1..] == a[1..] + b;
      ClimbConcat(h, HashPair(h, start, a[0]), a[1..], b);
    }
  }

  // ----- Completeness -----

  /** From any node of any level, the siblings that remain lead to the root. */
  lemma {:induction false} SiblingsClimb(h: Hash, leaves: Level, levels: seq<Level>, level: nat, index: nat,
                                         start: Bytes, done: seq<Bytes>)
    requires IsTree(h, leaves, levels) && level < |levels| && index < |levels[level]|
    requires Climb(h, start, done) == levels[level][index]
    ensures Climb(h, start, Siblings(levels, level, index, done)) == levels[|levels| - 1][0]
    ensures |Siblings(levels, level, index, done)| <= |done| + |levels| - 1 - level
    decreases |levels| - level
  {
    if level + 1 < |levels| {
      var nodes := levels[level];
      ParentsAre(h, nodes);
      var sibling := if index % 2 == 1 then index - 1 else index + 1;
      assert levels[level + 1][index / 2] == ParentAt(h, nodes, index / 2);
      if sibling < |nodes| {
        ClimbConcat(h, start, done, [nodes[sibling]]);
        HashPairSymmetric(h, nodes[index], nodes[sibling]);
        assert Climb(h, nodes[index], [nodes[sibling]]) == HashPair(h, nodes[index], nodes[sibling]);
        SiblingsClimb(h, leaves, levels, level + 1, index / 2, start, done + [nodes[sibling]]);
      } else {
        SiblingsClimb(h, leaves, levels, level + 1, index / 2, start, done);
      }
    }
  }

  /** Every listed leaf has a proof, the proof verifies against the root, and it is no longer than
      the tree is deep. Duplicates and any number of leaves are allowed. */
  lemma Completeness(h: Hash, data: seq<Bytes>, t: Tree, leaf: Leaf)
    requires IsTreeOf(h, data, t) && LeafHash(h, leaf) in t.leaves
    ensures var proof := Siblings(t.levels, 0, IndexOf(LeafHash(h, leaf), t.leaves, 0), []);
            Accepts(h, leaf, proof, GetRoot(t)) && |proof| <= Depth(|data|)
  {
    var index := IndexOf(LeafHash(h, leaf), t.leaves, 0);
    SiblingsClimb(h, t.leaves, t.levels, 0, index, LeafHash(h, leaf), []);
    LevelSizes(h, t.leaves, t.levels, 0);
  }

  // ----- Soundness -----

  /** A byte string that was hashed while building the tree: a listed leaf, or two siblings. */
  ghost predicate HashedInTree(data: seq<Bytes>, t: Tree, x: Bytes) {
    x in data || IsSiblingPair(t, x)
  }

  ghost predicate IsSiblingPair(t: Tree, x: Bytes) {
    exists n: nat, k: nat :: PairAt(t, n, k, x)
  }

  predicate PairAt(t: Tree, n: nat, k: nat, x: Bytes) {
    n < |t.levels| - 1 && 2 * k + 1 < |t.levels[n]| && x == SortedPair(t.levels[n][2 * k], t.levels[n][2 * k + 1])
  }

  /** A byte string that was hashed while verifying: a queried text, or a step of the climb. */
  ghost predicate HashedOnPath(h: Hash, leaf: Leaf, proof: seq<Bytes>, y: Bytes) {
    leaf == Text(y) || exists j: nat :: IsStep(h, LeafHash(h, leaf), proof, j, y)
  }

  predicate IsStep(h: Hash, start: Bytes, proof: seq<Bytes>, j: nat, y: Bytes) {
    j < |proof| && y == SortedPair(Climb(h, start, proof[..j]), proof[j])
  }

  /** Two different byte strings with the same hash, one hashed by the tree and one by the verifier. */
  ghost predicate Collides(h: Hash, data: seq<Bytes>, t: Tree, leaf: Leaf, proof: seq<Bytes>) {
    exists x, y :: HashedInTree(data, t, x) && HashedOnPath(h, leaf, proof, y) && x != y && h(x) == h(y)
  }

  /** The hash of a node of the tree, the leaves and the root included. */
  ghost predicate IsNode(t: Tree, x: Bytes) {
    exists n: nat, i: nat :: NodeAt(t, n, i, x)
  }

  predicate NodeAt(t: Tree, n: nat, i: nat, x: Bytes) {
    n < |t.levels| && i < |t.levels[n]| && t.levels[n][i] == x
  }

  /** The string makes up, with some further bytes, the pair of two siblings. */
  ghost predicate CompletesPair(t: Tree, x: Bytes) {
    exists p :: IsSiblingPair(t, SortedPair(x, p))
  }

  /** Some listed text is a step of the climb. */
  ghost predicate PassesText(h: Hash, data: seq<Bytes>, start: Bytes, proof: seq<Bytes>) {
    exists j: nat, k: nat :: j < |data| && IsStep(h, start, proof, k, data[j])
  }

  lemma SortedPairSplits(l: Digest, r: Digest, x: Digest, p: Bytes)
    requires SortedPair(x, p) == SortedPair(l, r)
    ensures x == l || x == r
  {
    var q := SortedPair(l, r);
    assert |p| == 32;
    assert x == q[..32] || x == q[32..];
    assert {l, r} == {q[..32], q[32..]};
  }

  lemma {:induction false} ClimbIsDigest(h: Hash, start: Bytes, proof: seq<Bytes>)
    requires |start| == 32 || proof != []
    ensures |Climb(h, start, proof)| == 32
    decreases |proof|
  {
    if proof != [] {
      ClimbIsDigest(h, HashPair(h, start, proof[0]), proof[1..]);
    }
  }

  function ClimbDigest(h: Hash, start: Bytes, proof: seq<Bytes>): (r: Digest)
    requires |start| == 32 || proof != []
    ensures r == Climb(h, start, proof)
  {
    ClimbIsDigest(h, start, proof);
    Climb(h, start, proof)
  }

  /** A climb that reaches a node started at one, or completed a pair in its first step, or passed a listed text. */
  lemma {:induction false} NodeReached(h: Hash, data: seq<Bytes>, t: Tree, leaf: Leaf, proof: seq<Bytes>, m: nat,
                                       n: nat, i: nat)
    requires IsTreeOf(h, data, t) && m <= |proof| && NodeAt(t, n, i, Climb(h, LeafHash(h, leaf), proof[..m]))
    ensures var start := LeafHash(h, leaf);
            IsNode(t, start) || CompletesPair(t, start) || PassesText(h, data, start, proof) ||
              Collides(h, data, t, leaf, proof)
    decreases n
  {
    if m > 0 {
      var start := LeafHash(h, leaf);
      assert proof[..m] == proof[..m - 1] + [proof[m - 1]];
      ClimbConcat(h, start, proof[..m - 1], [proof[m - 1]]);
      var y := SortedPair(Climb(h, start, proof[..m - 1]), proof[m - 1]);
      assert IsStep(h, start, proof, m - 1, y);
      assert HashedOnPath(h, leaf, proof, y) && h(y) == t.levels[n][i];
      if n == 0 {
        assert HashedInTree(data, t, data[i]);
      } else {
        var below := t.levels[n - 1];
        ParentsAre(h, below);
        assert t.levels[n][i] == ParentAt(h, below, i);
        if 2 * i + 1 == |below| {
          NodeReached(h, data, t, leaf, proof, m, n - 1, 2 * i);
        } else {
          var q := SortedPair(below[2 * i], below[2 * i + 1]);
          assert PairAt(t, n - 1, i, q) && HashedInTree(data, t, q);
          if y == q {
            PairReached(h, data, t, leaf, proof, m, n, i);
          }
        }
      }
    }
  }

  lemma {:induction false} PairReached(h: Hash, data: seq<Bytes>, t: Tree, leaf: Leaf, proof: seq<Bytes>, m: nat,
                                       n: nat, k: nat)
    requires IsTreeOf(h, data, t) && 0 < m <= |proof| && n > 0
    requires PairAt(t, n - 1, k, SortedPair(Climb(h, LeafHash(h, leaf), proof[..m - 1]), proof[m - 1]))
    ensures var start := LeafHash(h, leaf);
            IsNode(t, start) || CompletesPair(t, start) || PassesText(h, data, start, proof) ||
              Collides(h, data, t, leaf, proof)
    decreases n, 0
  {
    var start := LeafHash(h, leaf);
    if m == 1 {
      assert proof[..0] == [];
    } else {
      var below := t.levels[n - 1];
      var x: Digest := ClimbDigest(h, start, proof[..m - 1]);
      SortedPairSplits(below[2 * k], below[2 * k + 1], x, proof[m - 1]);
      NodeReached(h, data, t, leaf, proof, m - 1, n - 1, if x == below[2 * k] then 2 * k else 2 * k + 1);
    }
  }

  /** A text whose hash is a node is listed, or the pair of two siblings, or collides. */
  lemma {:induction false} TextOfNode(h: Hash, data: seq<Bytes>, t: Tree, text: Bytes, proof: seq<Bytes>, n: nat,
                                      i: nat)
    requires IsTreeOf(h, data, t) && NodeAt(t, n, i, h(text))
    ensures text in data || IsSiblingPair(t, text) || Collides(h, data, t, Text(text), proof)
    decreases n
  {
    assert HashedOnPath(h, Text(text), proof, text);
    if n == 0 {
      assert HashedInTree(data, t, data[i]);
    } else {
      var below := t.levels[n - 1];
      ParentsAre(h, below);
      assert t.levels[n][i] == ParentAt(h, below, i);
      if 2 * i + 1 == |below| {
        TextOfNode(h, data, t, text, proof, n - 1, 2 * i);
      } else {
        var q := SortedPair(below[2 * i], below[2 * i + 1]);
        assert PairAt(t, n - 1, i, q) && HashedInTree(data, t, q);
      }
    }
  }

  /** A string of a hash's length that completes a pair is a node itself. */
  lemma PairOfNode(t: Tree, x: Bytes)
    requires CompletesPair(t, x) && |x| == 32
    ensures IsNode(t, x)
  {
    var p :| IsSiblingPair(t, SortedPair(x, p));
    var n: nat, k: nat :| PairAt(t, n, k, SortedPair(x, p));
    SortedPairSplits(t.levels[n][2 * k], t.levels[n][2 * k + 1], x, p);
    assert NodeAt(t, n, 2 * k, x) || NodeAt(t, n, 2 * k + 1, x);
  }

  /** Whatever is queried, a text or a buffer, and whatever the lengths: what an accepted proof means. */
  lemma AcceptedMeans(h: Hash, data: seq<Bytes>, t: Tree, leaf: Leaf, proof: seq<Bytes>)
    requires IsTreeOf(h, data, t) && Accepts(h, leaf, proof, GetRoot(t))
    ensures var start := LeafHash(h, leaf);
            IsNode(t, start) || CompletesPair(t, start) || PassesText(h, data, start, proof) ||
              Collides(h, data, t, leaf, proof)
    ensures leaf.Text? ==>
              leaf.data in data || IsSiblingPair(t, leaf.data) || PassesText(h, data, h(leaf.data), proof) ||
                Collides(h, data, t, leaf, proof)
  {
    assert proof[..|proof|] == proof;
    NodeReached(h, data, t, leaf, proof, |proof|, |t.levels| - 1, 0);
    if leaf.Text? {
      if CompletesPair(t, h(leaf.data)) {
        PairOfNode(t, h(leaf.data));
      }
      if IsNode(t, h(leaf.data)) {
        var n: nat, i: nat :| NodeAt(t, n, i, h(leaf.data));
        TextOfNode(h, data, t, leaf.data, proof, n, i);
      }
    }
  }

  /** The lengths that are in use: texts of any length but 64, such as 56-character addresses, buffers and proof
      elements of a hash's length. */
  predicate UsualLengths(data: seq<Bytes>, leaf: Leaf, proof: seq<Bytes>) {
    && (match leaf case Text(text) => |text| != 64 case Raw(hash) => |hash| == 32)
    && (forall j :: 0 <= j < |data| ==> |data[j]| != 64) && forall k :: 0 <= k < |proof| ==> |proof[k]| == 32
  }

  /** Soundness: an accepted text is listed, and an accepted buffer is a node, or a collision is exhibited. */
  lemma Soundness(h: Hash, data: seq<Bytes>, t: Tree, leaf: Leaf, proof: seq<Bytes>)
    requires IsTreeOf(h, data, t) && Accepts(h, leaf, proof, GetRoot(t)) && UsualLengths(data, leaf, proof)
    ensures Collides(h, data, t, leaf, proof) ||
            match leaf case Text(text) => text in data case Raw(hash) => IsNode(t, hash)
  {
    AcceptedMeans(h, data, t, leaf, proof);
    var start := LeafHash(h, leaf);
    if PassesText(h, data, start, proof) {
      var j: nat, k: nat :| j < |data| && IsStep(h, start, proof, k, data[j]);
      ClimbIsDigest(h, start, proof[..k]);
      assert false;
    }
    if leaf.Raw? && CompletesPair(t, start) {
      PairOfNode(t, start);
    }
    if leaf.Text? && IsSiblingPair(t, leaf.data) {
      var n: nat, k: nat :| PairAt(t, n, k, leaf.data);
    }
  }

  // ----- What is accepted, exactly -----

  /** Every node of the tree, given as a buffer, has an accepted proof. */
  lemma NodeIsAccepted(h: Hash, data: seq<Bytes>, t: Tree, leaf: Leaf)
    requires IsTreeOf(h, data, t) && IsNode(t, LeafHash(h, leaf))
    ensures exists proof :: Accepts(h, leaf, proof, GetRoot(t))
  {
    var n: nat, i: nat :| NodeAt(t, n, i, LeafHash(h, leaf));
    SiblingsClimb(h, t.leaves, t.levels, n, i, LeafHash(h, leaf), []);
    assert Accepts(h, leaf, Siblings(t.levels, n, i, []), GetRoot(t));
  }

  lemma HashOfPair(h: Hash, data: seq<Bytes>, t: Tree, n: nat, k: nat, x: Bytes)
    requires IsTreeOf(h, data, t) && PairAt(t, n, k, x)
    ensures NodeAt(t, n + 1, k, h(x))
  {
    ParentsAre(h, t.levels[n]);
    assert t.levels[n + 1][k] == ParentAt(h, t.levels[n], k);
  }

  lemma PairPartClimbs(h: Hash, data: seq<Bytes>, t: Tree, start: Bytes, p: Bytes, n: nat, k: nat)
    requires IsTreeOf(h, data, t) && PairAt(t, n, k, SortedPair(start, p))
    ensures Climb(h, start, Siblings(t.levels, n + 1, k, [p])) == GetRoot(t)
  {
    HashOfPair(h, data, t, n, k, SortedPair(start, p));
    assert Climb(h, start, [p]) == HashPair(h, start, p);
    hide Climb, Siblings, PairAt, SortedPair, HashPair;
    SiblingsClimb(h, t.leaves, t.levels, n + 1, k, start, [p]);
  }

  /** So does every string that completes the pair of two siblings, whatever its length. */
  lemma PairPartIsAccepted(h: Hash, data: seq<Bytes>, t: Tree, leaf: Leaf)
    requires IsTreeOf(h, data, t) && CompletesPair(t, LeafHash(h, leaf))
    ensures exists proof :: Accepts(h, leaf, proof, GetRoot(t))
  {
    var start := LeafHash(h, leaf);
    var p :| IsSiblingPair(t, SortedPair(start, p));
    var n: nat, k: nat :| PairAt(t, n, k, SortedPair(start, p));
    PairPartClimbs(h, data, t, start, p, n, k);
    hide Climb, Siblings, PairAt, SortedPair, LeafHash, IsTreeOf;
    assert Accepts(h, leaf, Siblings(t.levels, n + 1, k, [p]), GetRoot(t));
  }

  /** The length conditions cannot be dropped. First: the 64 bytes of two sibling nodes, taken as a text,
      have an accepted proof. */
  lemma SiblingPairIsAccepted(h: Hash, data: seq<Bytes>, t: Tree, text: Bytes)
    requires IsTreeOf(h, data, t) && IsSiblingPair(t, text)
    ensures |text| == 64 && IsNode(t, h(text)) && exists proof :: Accepts(h, Text(text), proof, GetRoot(t))
  {
    var n: nat, k: nat :| PairAt(t, n, k, text);
    HashOfPair(h, data, t, n, k, text);
    NodeIsAccepted(h, data, t, Text(text));
  }

  predicate TextIsStep(h: Hash, data: seq<Bytes>, start: Bytes, j: nat, q: seq<Bytes>, p: Bytes) {
    j < |data| && data[j] == SortedPair(Climb(h, start, q), p)
  }

  /** Second: if a listed text is the concatenation of a hash reached from an unlisted leaf and any
      further bytes p, then the unlisted leaf has an accepted proof. */
  lemma StepLeafIsAccepted(h: Hash, data: seq<Bytes>, t: Tree, leaf: Leaf, q: seq<Bytes>, p: Bytes, j: nat)
    requires IsTreeOf(h, data, t) && TextIsStep(h, data, LeafHash(h, leaf), j, q, p)
    ensures Accepts(h, leaf, q + [p] + Siblings(t.levels, 0, j, []), GetRoot(t))
    ensures |data[j]| == (if q == [] then |LeafHash(h, leaf)| else 32) + |p|
  {
    var start := LeafHash(h, leaf);
    if q != [] {
      ClimbIsDigest(h, start, q);
    }
    ClimbConcat(h, start, q, [p]);
    assert Climb(h, start, q + [p]) == HashPair(h, Climb(h, start, q), p) == t.leaves[j];
    SiblingsClimb(h, t.leaves, t.levels, 0, j, t.leaves[j], []);
    ClimbConcat(h, start, q + [p], Siblings(t.levels, 0, j, []));
  }

  /** What can be proved: nodes, what completes a pair, and that from which a listed text is a step of a climb. For
      a text its hash counts, so that listed texts and the pairs of siblings can. */
  ghost predicate Provable(h: Hash, data: seq<Bytes>, t: Tree, leaf: Leaf) {
    var start := LeafHash(h, leaf);
    IsNode(t, start) || CompletesPair(t, start) || exists j: nat, q, p :: TextIsStep(h, data, start, j, q, p)
  }

  /** Exactly what is provable has an accepted proof, as long as no collision is exhibited. */
  lemma AcceptedExactly(h: Hash, data: seq<Bytes>, t: Tree, leaf: Leaf)
    requires IsTreeOf(h, data, t)
    ensures Provable(h, data, t, leaf) ==> exists proof :: Accepts(h, leaf, proof, GetRoot(t))
    ensures (exists proof :: Accepts(h, leaf, proof, GetRoot(t)) && !Collides(h, data, t, leaf, proof)) ==>
            Provable(h, data, t, leaf)
  {
    var start := LeafHash(h, leaf);
    if IsNode(t, start) {
      NodeIsAccepted(h, data, t, leaf);
    } else if CompletesPair(t, start) {
      PairPartIsAccepted(h, data, t, leaf);
    } else if j: nat, q, p :| TextIsStep(h, data, start, j, q, p) {
      StepLeafIsAccepted(h, data, t, leaf, q, p, j);
    }
    if proof :| Accepts(h, leaf, proof, GetRoot(t)) && !Collides(h, data, t, leaf, proof) {
      AcceptedMeans(h, data, t, leaf, proof);
      if PassesText(h, data, start, proof) {
        var j: nat, k: nat :| j < |data| && IsStep(h, start, proof, k, data[j]);
        assert TextIsStep(h, data, start, j, proof[..k], proof[k]);
      }
    }
  }

  /** For a text: the listed ones, the pairs of siblings, and those from which a listed text is a step. */
  ghost predicate ProvableText(h: Hash, data: seq<Bytes>, t: Tree, text: Bytes) {
    text in data || IsSiblingPair(t, text) || exists j: nat, q, p :: TextIsStep(h, data, h(text), j, q, p)
  }

  lemma TextAcceptedExactly(h: Hash, data: seq<Bytes>, t: Tree, text: Bytes)
    requires IsTreeOf(h, data, t)
    ensures ProvableText(h, data, t, text) ==> exists proof :: Accepts(h, Text(text), proof, GetRoot(t))
    ensures (exists proof :: Accepts(h, Text(text), proof, GetRoot(t)) && !Collides(h, data, t, Text(text), proof)) ==>
              ProvableText(h, data, t, text)
  {
    if text in data {
      var i :| 0 <= i < |data| && data[i] == text;
      assert NodeAt(t, 0, i, h(text));
      NodeIsAccepted(h, data, t, Text(text));
    } else if IsSiblingPair(t, text) {
      SiblingPairIsAccepted(h, data, t, text);
    } else if j: nat, q, p :| TextIsStep(h, data, h(text), j, q, p) {
      StepLeafIsAccepted(h, data, t, Text(text), q, p, j);
    }
    if proof :| Accepts(h, Text(text), proof, GetRoot(t)) && !Collides(h, data, t, Text(text), proof) {
      AcceptedMeans(h, data, t, Text(text), proof);
      if PassesText(h, data, h(text), proof) {
        var j: nat, k: nat :| j < |data| && IsStep(h, h(text), proof, k, data[j]);
        assert TextIsStep(h, data, h(text), j, proof[..k], proof[k]);
      }
    }
  }
}
