/**
 * The leak predictions panel: the style class of a risk level and the
 * predictions the panel lists.
 */
module LeakPredictions {
  import opened Seqs
  import opened Strings

  /** One entry of the predictions list; the fields the panel does not filter on are left out. */
  datatype Prediction = Prediction(nodeId: string, riskLevel: string)

  /** getRiskClass: the level compared without regard to case. */
  function RiskClass(level: string): (c: string)
    ensures c == "risk-high" <==> Lower(level) == "high"
    ensures c == "risk-medium" <==> Lower(level) == "medium"
    ensures c == "risk-low" <==> Lower(level) == "low"
    ensures c == "risk-none" <==> Lower(level) !in {"high", "medium", "low"}
  {
    match Lower(level)
    case "high" => "risk-high"
    case "medium" => "risk-medium"
    case "low" => "risk-low"
    case _ => "risk-none"
  }

  /** Changing the case of a level does not change its class. */
  lemma RiskClassIgnoresCase(level: string)
    ensures RiskClass(Upper(level)) == RiskClass(level)
    ensures RiskClass(Lower(level)) == RiskClass(level)
  {
    LowerIdempotent(level);
  }

  /** The first n elements, or all of them when there are fewer (`slice(0, n)`). */
  function Take<T>(s: seq<T>, n: nat): (r: seq<T>)
    ensures |r| <= n && |r| <= |s|
    ensures |s| >= n ==> |r| == n
    ensures |s| <= n ==> r == s
    ensures r == s[..|r|]
  {
    if |s| <= n then s else s[..n]
  }

  predicate IsFor(node: string, p: Prediction) {
    p.nodeId == node
  }

  predicate AtRisk(p: Prediction) {
    p.riskLevel != "none"
  }

  /**
   * filteredPredictions: with a selected node (a non-empty id), every
   * prediction for it; otherwise the first five whose level is not "none".
   */
  function Filtered(predictions: seq<Prediction>, selectedNode: string): (r: seq<Prediction>)
    ensures IsSubsequence(r, predictions)
    ensures selectedNode != [] ==> r == Filter(predictions, (p: Prediction) => IsFor(selectedNode, p))
    ensures selectedNode == [] ==> |r| <= 5 && forall i :: 0 <= i < |r| ==> AtRisk(r[i])
    ensures selectedNode == [] && |Filter(predictions, AtRisk)| <= 5 ==> r == Filter(predictions, AtRisk)
  {
    if selectedNode != [] then
      Filter(predictions, (p: Prediction) => IsFor(selectedNode, p))
    else
      var atRisk := Filter(predictions, AtRisk);
      PrefixIsSubsequence(atRisk, |Take(atRisk, 5)|);
      SubsequenceTransitive(Take(atRisk, 5), atRisk, predictions);
      Take(atRisk, 5)
  }

  /** With a node selected, a prediction is listed iff it is for that node; nothing is capped. */
  lemma SelectedListsAllForNode(predictions: seq<Prediction>, selectedNode: string, p: Prediction)
    requires selectedNode != [] && p in predictions
    ensures p in Filtered(predictions, selectedNode) <==> p.nodeId == selectedNode
  {
  }

  /**
   * Without a selection the list is cut at five: when at least five
   * predictions are at risk, exactly five are listed, and they are the first
   * five at risk; when fewer are, every one at risk is listed, in order.
   */
  lemma UnselectedListsFirstFive(predictions: seq<Prediction>)
    ensures |Filter(predictions, AtRisk)| >= 5 ==> Filtered(predictions, []) == Filter(predictions, AtRisk)[..5]
    ensures |Filter(predictions, AtRisk)| <= 5 ==> Filtered(predictions, []) == Filter(predictions, AtRisk)
  {
  }

  /**
   * The filter compares the level exactly, the class without case: a level
   * written "None" is listed, styled as no risk.
   */
  lemma CapitalisedNoneListed(predictions: seq<Prediction>, p: Prediction)
    requires p == Prediction(p.nodeId, "None") && |predictions| <= 5 && p in predictions
    ensures p in Filtered(predictions, [])
    ensures RiskClass(p.riskLevel) == "risk-none"
  {
    var atRisk := Filter(predictions, AtRisk);
    assert Filtered(predictions, []) == atRisk;
    assert Lower("None") == "none";
  }
}
