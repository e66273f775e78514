/** Standardization of the feature vector and random-forest inference. */
module Forest {
  import opened ModelData
  import opened FeatureExtraction

  /** The z-score of each feature under the embedded scaler, in model order. */
  function Scale(f: Features, mean: seq<real>, scale: seq<real>): (scaled: seq<real>)
    requires |mean| == NumFeatures && |scale| == NumFeatures
    requires forall i :: 0 <= i < NumFeatures ==> scale[i] != 0.0
    ensures |scaled| == NumFeatures
  {
    seq(NumFeatures, i requires 0 <= i < NumFeatures => (Vector(f)[i] - mean[i]) / scale[i])
  }

  /** Standardization loses nothing: every feature is recovered as
      scaled * scale + mean. */
  lemma ScaleInverse(f: Features, mean: seq<real>, scale: seq<real>)
    requires |mean| == NumFeatures && |scale| == NumFeatures
    requires forall i :: 0 <= i < NumFeatures ==> scale[i] != 0.0
    ensures forall i :: 0 <= i < NumFeatures ==>
              Scale(f, mean, scale)[i] * scale[i] + mean[i] == Vector(f)[i]
  {
    var scaled, v := Scale(f, mean, scale), Vector(f);
    forall i | 0 <= i < NumFeatures
      ensures scaled[i] * scale[i] + mean[i] == v[i]
    {
      ZScoreInverse(v[i], mean[i], scale[i]);
    }
  }

  lemma ZScoreInverse(v: real, m: real, s: real)
    requires s != 0.0
    ensures (v - m) / s * s + m == v
  {
  }

  /** The leaf reached from node i: left when the feature is at most the
      threshold, right otherwise, until a node with left == -1. */
  function Walk(t: Tree, x: seq<real>, i: int): (leaf: int)
    requires WellFormedTree(t) && |x| == NumFeatures && 0 <= i < |t|
    ensures i <= leaf < |t| && IsLeaf(t[leaf])
    decreases |t| - i
  {
    if IsLeaf(t[i]) then i
    else
      assert NodeWellFormed(t, i);
      if x[t[i].feature] <= t[i].threshold then Walk(t, x, t[i].left) else Walk(t, x, t[i].right)
  }

  /** A tree's vote: the probability at the leaf reached from the root. */
  function TreeProbability(t: Tree, x: seq<real>): (p: real)
    requires WellFormedTree(t) && |x| == NumFeatures
    ensures 0.0 <= p <= 1.0
  {
    var leaf := Walk(t, x, 0);
    assert NodeWellFormed(t, leaf);
    t[leaf].prob
  }

  function SumOfVotes(trees: seq<Tree>, x: seq<real>): real
    requires WellFormedTrees(trees) && |x| == NumFeatures
  {
    if |trees| == 0 then 0.0
    else SumOfVotes(trees[..|trees| - 1], x) + TreeProbability(trees[|trees| - 1], x)
  }

  /** The ensemble probability: the mean of the trees' votes. */
  function ForestProbability(trees: seq<Tree>, x: seq<real>): real
    requires |trees| > 0 && WellFormedTrees(trees) && |x| == NumFeatures
  {
    SumOfVotes(trees, x) / |trees| as real
  }

  lemma {:induction false} SumOfVotesBounds(trees: seq<Tree>, x: seq<real>)
    requires WellFormedTrees(trees) && |x| == NumFeatures
    ensures 0.0 <= SumOfVotes(trees, x) <= |trees| as real
  {
    if |trees| > 0 {
      SumOfVotesBounds(trees[..|trees| - 1], x);
    }
  }

  /** The ensemble probability is a probability. */
  lemma ForestProbabilityInUnit(trees: seq<Tree>, x: seq<real>)
    requires |trees| > 0 && WellFormedTrees(trees) && |x| == NumFeatures
    ensures 0.0 <= ForestProbability(trees, x) <= 1.0
  {
    SumOfVotesBounds(trees, x);
    var n := |trees| as real;
    var s := SumOfVotes(trees, x);
    assert s / n * n == s;
  }

  /** When every tree votes the same p, so does the forest. */
  lemma {:induction false} UnanimousForest(trees: seq<Tree>, x: seq<real>, p: real)
    requires |trees| > 0 && WellFormedTrees(trees) && |x| == NumFeatures
    requires forall k :: 0 <= k < |trees| ==> TreeProbability(trees[k], x) == p
    ensures ForestProbability(trees, x) == p
  {
    UnanimousSum(trees, x, p);
  }

  lemma {:induction false} UnanimousSum(trees: seq<Tree>, x: seq<real>, p: real)
    requires WellFormedTrees(trees) && |x| == NumFeatures
    requires forall k :: 0 <= k < |trees| ==> TreeProbability(trees[k], x) == p
    ensures SumOfVotes(trees, x) == |trees| as real * p
  {
    if |trees| > 0 {
      UnanimousSum(trees[..|trees| - 1], x, p);
    }
  }

  /** `runForest`: walks every tree with an index loop and averages the leaf
      probabilities. */
  method RunForest(model: TouchModel, scaledFeatures: seq<real>) returns (probability: real)
    requires WellFormedModel(model) && |scaledFeatures| == NumFeatures
    ensures probability == ForestProbability(model.trees, scaledFeatures)
    ensures 0.0 <= probability <= 1.0
  {
    var trees := model.trees;
    var sumProb := 0.0;
    var t := 0;
    while t < |trees|
      invariant 0 <= t <= |trees|
      invariant sumProb == SumOfVotes(trees[..t], scaledFeatures)
    {
      var nodes := trees[t];
      assert WellFormedTree(nodes);
      var nodeIdx := 0;
      while nodes[nodeIdx].left != -1
        invariant 0 <= nodeIdx < |nodes|
        invariant Walk(nodes, scaledFeatures, nodeIdx) == Walk(nodes, scaledFeatures, 0)
        decreases |nodes| - nodeIdx
      {
        assert NodeWellFormed(nodes, nodeIdx);
        var featureIdx := nodes[nodeIdx].feature;
        if scaledFeatures[featureIdx] <= nodes[nodeIdx].threshold {
          nodeIdx := nodes[nodeIdx].left;
        } else {
          nodeIdx := nodes[nodeIdx].right;
        }
      }
      assert trees[..t + 1][..t] == trees[..t];
      sumProb := sumProb + nodes[nodeIdx].prob;
      t := t + 1;
    }
    assert trees[..t] == trees;
    probability := sumProb / |trees| as real;
    ForestProbabilityInUnit(trees, scaledFeatures);
  }
}
