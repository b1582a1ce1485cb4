/**
 * Binary SHA-256 Merkle tree over 32-byte leaf digests (src/utils/merkle_tree.cpp).
 *
 * The tree is the list of its layers, leaves first. Each parent is the hash of
 * left ‖ right. When a layer has an odd number of nodes, its last node is paired
 * with itself. An inclusion proof lists one (sibling, side) step per level from
 * the leaf up to the level below the root. `isLeft` is true when the node on the
 * path is the left child.
 */
module MerkleTree {
  import opened Common

  type Hash = seq<byte> -> Digest

  datatype PathStep = PathStep(sibling: Digest, isLeft: bool)

  datatype Tree = Tree(layers: seq<seq<Digest>>)

  // ---------------------------------------------------------------------------
  // Construction
  // ---------------------------------------------------------------------------

  /** The node that `layer[i]` is hashed with: its right neighbour, or itself at the odd end. */
  function Partner(layer: seq<Digest>, i: nat): Digest
    requires i < |layer|
  {
    if i + 1 < |layer| then layer[i + 1] else layer[i]
  }

  /** The layer above `layer`: adjacent pairs are hashed left ‖ right, an odd last node with itself. */
  function NextLayer(h: Hash, layer: seq<Digest>): (parents: seq<Digest>)
    ensures |parents| == (|layer| + 1) / 2
    ensures forall j :: 0 <= j < |parents| ==> parents[j] == h(Concat(layer[2 * j], Partner(layer, 2 * j)))
    decreases |layer|
  {
    if |layer| == 0 then []
    else if |layer| == 1 then [h(Concat(layer[0], layer[0]))]
    else [h(Concat(layer[0], layer[1]))] + NextLayer(h, layer[2..])
  }

  /** Layers from `layer` upwards, stopping at the first layer with a single node. */
  function BuildLayers(h: Hash, layer: seq<Digest>): (layers: seq<seq<Digest>>)
    requires |layer| > 0
    ensures |layers| > 0 && layers[0] == layer && |layers[|layers| - 1]| == 1
    ensures forall k :: 0 <= k < |layers| - 1 ==> |layers[k]| > 1 && layers[k + 1] == NextLayer(h, layers[k])
    decreases |layer|
  {
    if |layer| == 1 then [layer]
    else [layer] + BuildLayers(h, NextLayer(h, layer))
  }

  /** `MerkleTree(leaf_hashes)`: no layers for no leaves. */
  function Build(h: Hash, leaves: seq<Digest>): (t: Tree)
    ensures |leaves| == 0 ==> t.layers == []
    ensures |leaves| > 0 ==> Consistent(h, t) && t.layers[0] == leaves
  {
    if |leaves| == 0 then Tree([]) else Tree(BuildLayers(h, leaves))
  }

  /**
   * The shape every constructed tree has: nonempty layers, each one half (rounded up)
   * the size of the one below. Proof extraction needs only this.
   */
  predicate WellShaped(t: Tree)
  {
    && (forall k :: 0 <= k < |t.layers| ==> |t.layers[k]| > 0)
    && (forall k :: 0 <= k < |t.layers| - 1 ==> |t.layers[k + 1]| == (|t.layers[k]| + 1) / 2)
  }

  /** A tree whose layers are exactly what the constructor computes from its first layer. */
  ghost predicate Consistent(h: Hash, t: Tree)
  {
    && |t.layers| > 0
    && |t.layers[0]| > 0
    && |t.layers[|t.layers| - 1]| == 1
    && forall k :: 0 <= k < |t.layers| - 1 ==> |t.layers[k]| > 1 && t.layers[k + 1] == NextLayer(h, t.layers[k])
  }

  lemma ConsistentIsWellShaped(h: Hash, t: Tree)
    requires Consistent(h, t)
    ensures WellShaped(t)
  {
    forall k | 0 <= k < |t.layers|
      ensures |t.layers[k]| > 0
    {
      if k > 0 {
        assert t.layers[k] == NextLayer(h, t.layers[k - 1]);
      }
    }
  }

  /** Every constructed tree, empty or not, has the shape proof extraction relies on. */
  lemma BuildIsWellShaped(h: Hash, leaves: seq<Digest>)
    ensures WellShaped(Build(h, leaves))
  {
    if |leaves| > 0 {
      ConsistentIsWellShaped(h, Build(h, leaves));
    }
  }

  // ---------------------------------------------------------------------------
  // Root and proofs
  // ---------------------------------------------------------------------------

  /** `get_root`: the single node of the top layer, or the all-zero digest for an empty tree. */
  function GetRoot(t: Tree): Digest
    requires WellShaped(t)
  {
    if |t.layers| == 0 then ZERO_DIGEST else t.layers[|t.layers| - 1][0]
  }

  /** The proof step emitted at level k for the node at index idx of that level. */
  function StepAt(t: Tree, k: nat, idx: nat): PathStep
    requires k < |t.layers| && idx < |t.layers[k]|
  {
    var layer := t.layers[k];
    var sibling := if idx % 2 == 0 then idx + 1 else idx - 1;
    if sibling < |layer| then PathStep(layer[sibling], idx % 2 == 0)
    else PathStep(layer[idx], true)
  }

  /** The steps from level k (node idx) up to the level below the root. */
  function PathFrom(t: Tree, k: nat, idx: nat): (path: seq<PathStep>)
    requires WellShaped(t) && k < |t.layers| && idx < |t.layers[k]|
    ensures |path| == |t.layers| - 1 - k
    decreases |t.layers| - k
  {
    if k == |t.layers| - 1 then []
    else [StepAt(t, k, idx)] + PathFrom(t, k + 1, idx / 2)
  }

  /**
   * `get_proof`: fails (None, the output path left cleared) exactly when the tree is
   * empty or the index is not a leaf index; otherwise one step per level below the root.
   */
  function GetProof(t: Tree, leafIdx: nat): (r: Option<seq<PathStep>>)
    requires WellShaped(t)
    ensures r.None? <==> |t.layers| == 0 || leafIdx >= |t.layers[0]|
    ensures r.Some? ==> |r.value| == |t.layers| - 1
  {
    if |t.layers| == 0 || leafIdx >= |t.layers[0]| then None
    else Some(PathFrom(t, 0, leafIdx))
  }

  // ---------------------------------------------------------------------------
  // Verification
  // ---------------------------------------------------------------------------

  /** One folding step: current ‖ sibling when the current node is a left child, else sibling ‖ current. */
  function StepHash(h: Hash, current: Digest, step: PathStep): Digest
  {
    if step.isLeft then h(Concat(current, step.sibling)) else h(Concat(step.sibling, current))
  }

  /** The root recomputed from `current` by folding the path bottom-up. */
  function Fold(h: Hash, current: Digest, path: seq<PathStep>): Digest
    decreases |path|
  {
    if |path| == 0 then current else Fold(h, StepHash(h, current, path[0]), path[1..])
  }

  /** Static `verify_proof`: a function of the leaf, the path and the root only. */
  function VerifyProof(h: Hash, leaf: Digest, path: seq<PathStep>, root: Digest): bool
  {
    Fold(h, leaf, path) == root
  }

  // ---------------------------------------------------------------------------
  // Properties
  // ---------------------------------------------------------------------------

  /** An empty leaf list gives no layers, the zero root and no proof for any index. */
  lemma EmptyTree(h: Hash, leafIdx: nat)
    ensures Build(h, []).layers == []
    ensures GetRoot(Build(h, [])) == ZERO_DIGEST
    ensures GetProof(Build(h, []), leafIdx).None?
  {
  }

  /** A single leaf is its own root and has an empty proof, which verifies. */
  lemma SingleLeaf(h: Hash, leaf: Digest)
    ensures WellShaped(Build(h, [leaf]))
    ensures GetRoot(Build(h, [leaf])) == leaf
    ensures GetProof(Build(h, [leaf]), 0) == Some([])
    ensures VerifyProof(h, leaf, [], GetRoot(Build(h, [leaf])))
  {
    ConsistentIsWellShaped(h, Build(h, [leaf]));
  }

  /**
   * The constructor's layer sizes: every layer above the leaves has ⌈n/2⌉ nodes for
   * n nodes below, the top layer has one node, and the number of levels grows only
   * when a layer still has more than one node.
   */
  lemma {:induction false} LayerSizes(h: Hash, leaves: seq<Digest>)
    requires |leaves| > 0
    ensures var t := Build(h, leaves);
      && WellShaped(t)
      && |t.layers[0]| == |leaves|
      && |t.layers[|t.layers| - 1]| == 1
      && (|leaves| == 1 <==> |t.layers| == 1)
  {
    ConsistentIsWellShaped(h, Build(h, leaves));
  }

  /** The index on level j of the ancestor of leaf idx. */
  function Ancestor(idx: nat, j: nat): nat
  {
    if j == 0 then idx else Ancestor(idx / 2, j - 1)
  }

  lemma {:induction false} AncestorInRange(t: Tree, k: nat, idx: nat, j: nat)
    requires WellShaped(t) && k + j < |t.layers| && idx < |t.layers[k]|
    ensures Ancestor(idx, j) < |t.layers[k + j]|
    decreases j
  {
    if j > 0 {
      AncestorInRange(t, k + 1, idx / 2, j - 1);
    }
  }

  /**
   * Step j of the path from (k, idx) is the step taken at level k + j from the ancestor
   * of idx there.
   */
  lemma {:induction false} PathFromAt(t: Tree, k: nat, idx: nat, j: nat)
    requires WellShaped(t) && k < |t.layers| && idx < |t.layers[k]|
    requires j < |t.layers| - 1 - k
    ensures Ancestor(idx, j) < |t.layers[k + j]|
    ensures PathFrom(t, k, idx)[j] == StepAt(t, k + j, Ancestor(idx, j))
    decreases j
  {
    AncestorInRange(t, k, idx, j);
    if j > 0 {
      PathFromAt(t, k + 1, idx / 2, j - 1);
    }
  }

  /**
   * The side flag of step j is true exactly when the path's node on level j has an
   * even index, and the sibling is that node's pair partner: its neighbour, or the
   * node itself (flagged true) when it is the unpaired last node of an odd layer.
   */
  lemma ProofSides(h: Hash, leaves: seq<Digest>, i: nat, j: nat)
    requires i < |leaves|
    requires j < |Build(h, leaves).layers| - 1
    ensures WellShaped(Build(h, leaves))
    ensures var t := Build(h, leaves);
      var a := Ancestor(i, j);
      var step := GetProof(t, i).value[j];
      && a < |t.layers[j]|
      && (step.isLeft <==> a % 2 == 0)
      && (a % 2 == 0 && a + 1 == |t.layers[j]| ==> step == PathStep(t.layers[j][a], true))
      && (a % 2 == 0 && a + 1 < |t.layers[j]| ==> step.sibling == t.layers[j][a + 1])
      && (a % 2 == 1 ==> step.sibling == t.layers[j][a - 1])
  {
    var t := Build(h, leaves);
    ConsistentIsWellShaped(h, t);
    PathFromAt(t, 0, i, j);
  }

  /** Hashing a node with its proof step gives its parent in the next layer. */
  lemma StepHashIsParent(h: Hash, t: Tree, k: nat, idx: nat)
    requires k < |t.layers| && idx < |t.layers[k]|
    ensures idx / 2 < |NextLayer(h, t.layers[k])|
    ensures StepHash(h, t.layers[k][idx], StepAt(t, k, idx)) == NextLayer(h, t.layers[k])[idx / 2]
  {
    var layer := t.layers[k];
    var parents := NextLayer(h, layer);
    var p := idx / 2;
    assert parents[p] == h(Concat(layer[2 * p], Partner(layer, 2 * p)));
    if idx % 2 == 0 {
      assert 2 * p == idx;
    } else {
      assert 2 * p == idx - 1;
      assert Partner(layer, 2 * p) == layer[idx];
    }
  }

  /** Folding the path of node idx on level k reaches the root. */
  lemma {:induction false} FoldPathFrom(h: Hash, t: Tree, k: nat, idx: nat)
    requires Consistent(h, t) && WellShaped(t)
    requires k < |t.layers| && idx < |t.layers[k]|
    ensures Fold(h, t.layers[k][idx], PathFrom(t, k, idx)) == t.layers[|t.layers| - 1][0]
    decreases |t.layers| - k
  {
    if k < |t.layers| - 1 {
      assert t.layers[k + 1] == NextLayer(h, t.layers[k]);
      StepHashIsParent(h, t, k, idx);
      FoldPathFrom(h, t, k + 1, idx / 2);
    }
  }

  /**
   * Round trip: for every leaf index of a nonempty tree, the proof from `get_proof`
   * verifies the leaf against `get_root`, whatever the parity of the leaf count.
   */
  lemma ProofRoundTrip(h: Hash, leaves: seq<Digest>, i: nat)
    requires i < |leaves|
    ensures WellShaped(Build(h, leaves))
    ensures GetProof(Build(h, leaves), i).Some?
    ensures VerifyProof(h, leaves[i], GetProof(Build(h, leaves), i).value, GetRoot(Build(h, leaves)))
  {
    var t := Build(h, leaves);
    ConsistentIsWellShaped(h, t);
    FoldPathFrom(h, t, 0, i);
  }

  /** Two different starting digests folded to the same root expose a collision of h. */
  lemma {:induction false} FoldCollision(h: Hash, a: Digest, b: Digest, path: seq<PathStep>)
    requires a != b && Fold(h, a, path) == Fold(h, b, path)
    ensures exists x: seq<byte>, y: seq<byte> :: x != y && h(x) == h(y)
    decreases |path|
  {
    if |path| > 0 {
      var s := path[0];
      var x := if s.isLeft then Concat(a, s.sibling) else Concat(s.sibling, a);
      var y := if s.isLeft then Concat(b, s.sibling) else Concat(s.sibling, b);
      if s.isLeft {
        assert x[..32] == a && y[..32] == b;
      } else {
        assert x[32..] == a && y[32..] == b;
      }
      if h(x) == h(y) {
        assert x != y;
      } else {
        FoldCollision(h, h(x), h(y), path[1..]);
      }
    }
  }

  /**
   * Tamper evidence: a leaf other than leaves[i] that verifies with the proof of i
   * against the root yields two different inputs with the same SHA-256 digest. So
   * under a collision-free hash, a tampered leaf fails verification.
   */
  lemma TamperedLeafRevealsCollision(h: Hash, leaves: seq<Digest>, i: nat, forged: Digest)
    requires i < |leaves| && forged != leaves[i]
    requires WellShaped(Build(h, leaves))
    requires GetProof(Build(h, leaves), i).Some?
    requires VerifyProof(h, forged, GetProof(Build(h, leaves), i).value, GetRoot(Build(h, leaves)))
    ensures exists x: seq<byte>, y: seq<byte> :: x != y && h(x) == h(y)
  {
    ProofRoundTrip(h, leaves, i);
    FoldCollision(h, forged, leaves[i], GetProof(Build(h, leaves), i).value);
  }
}
