/** The embedded, read-only model artifact: the decision trees of the forest, the
    per-feature standardization parameters and the analysis window duration.
    Its concrete tables are generated offline and are not part of this model;
    the detector is given one that satisfies `WellFormedModel`. */
module ModelData {

  /** Number of features in a feature vector. */
  const NumFeatures: int := 5

  /** One node of a tree. A node whose `left` is -1 is a leaf and `prob` is the
      probability of the touch class there. */
  datatype TreeNode = TreeNode(feature: int, threshold: real, left: int, right: int, prob: real)

  type Tree = seq<TreeNode>

  datatype TouchModel = TouchModel(
    trees: seq<Tree>,          // ALL_TREES, N_TREES == |trees|
    scalerMean: seq<real>,     // SCALER_MEAN
    scalerScale: seq<real>,    // SCALER_SCALE
    windowSizeSeconds: real)   // WINDOW_SIZE_SECONDS

  predicate IsLeaf(node: TreeNode) {
    node.left == -1
  }

  /** Node i is usable by the walk: a leaf carries a probability, an inner node
      names a feature and two children further down the table, which is what
      makes every walk end. */
  predicate NodeWellFormed(t: Tree, i: int)
    requires 0 <= i < |t|
  {
    if IsLeaf(t[i]) then
      0.0 <= t[i].prob <= 1.0
    else
      0 <= t[i].feature < NumFeatures && i < t[i].left < |t| && i < t[i].right < |t|
  }

  predicate WellFormedTree(t: Tree) {
    |t| > 0 && forall i :: 0 <= i < |t| ==> NodeWellFormed(t, i)
  }

  predicate WellFormedTrees(trees: seq<Tree>) {
    forall k :: 0 <= k < |trees| ==> WellFormedTree(trees[k])
  }

  predicate WellFormedModel(m: TouchModel) {
    && |m.trees| > 0
    && WellFormedTrees(m.trees)
    && |m.scalerMean| == NumFeatures
    && |m.scalerScale| == NumFeatures
    && (forall i :: 0 <= i < NumFeatures ==> m.scalerScale[i] != 0.0)
  }
}
