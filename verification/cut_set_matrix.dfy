/** The matrix the dialog builds from the enumerated cut sets: one row per
    cut set and one column per reaction of the model, holding -1.0 where the
    reaction is cut and 0.0 elsewhere. */
module CutSetMatrix {

  /** The row of one cut set, given as the indices of its reactions. */
  function CutSetRow(cutSet: seq<nat>, numReactions: nat): seq<real> {
    seq(numReactions, j => if j in cutSet then -1.0 else 0.0)
  }

  /** The reactions a row marks: the columns that are not zero. */
  function Support(row: seq<real>): set<nat> {
    set j: nat | j < |row| && row[j] != 0.0
  }

  /** A row gives back exactly the reactions of its cut set. */
  lemma SupportOfCutSetRow(cutSet: seq<nat>, numReactions: nat)
    requires forall k :: 0 <= k < |cutSet| ==> cutSet[k] < numReactions
    ensures Support(CutSetRow(cutSet, numReactions)) == set x | x in cutSet
  {
    var row := CutSetRow(cutSet, numReactions);
    forall x | x in cutSet
      ensures x in Support(row)
    {
      var k :| 0 <= k < |cutSet| && cutSet[k] == x;
      assert row[x] == -1.0;
    }
  }

  /** `lil_matrix((len(mcs), len(reac_id)))`, then `omcs[i, j] = -1.0` for
      every reaction j of every cut set i. */
  method BuildCutSetMatrix(mcs: seq<seq<nat>>, numReactions: nat) returns (omcs: array2<real>)
    requires forall i, k :: 0 <= i < |mcs| && 0 <= k < |mcs[i]| ==> mcs[i][k] < numReactions
    ensures fresh(omcs)
    ensures omcs.Length0 == |mcs| && omcs.Length1 == numReactions
    ensures forall i, j :: 0 <= i < |mcs| && 0 <= j < numReactions ==> omcs[i, j] == CutSetRow(mcs[i], numReactions)[j]
  {
    omcs := new real[|mcs|, numReactions]((i, j) => 0.0);
    for i := 0 to |mcs|
      invariant forall r, j :: 0 <= r < i && 0 <= j < numReactions ==> omcs[r, j] == CutSetRow(mcs[r], numReactions)[j]
      invariant forall r, j :: i <= r < |mcs| && 0 <= j < numReactions ==> omcs[r, j] == 0.0
    {
      var m := mcs[i];
      for k := 0 to |m|
        invariant forall r, j :: 0 <= r < i && 0 <= j < numReactions ==> omcs[r, j] == CutSetRow(mcs[r], numReactions)[j]
        invariant forall r, j :: i < r < |mcs| && 0 <= j < numReactions ==> omcs[r, j] == 0.0
        invariant forall j :: 0 <= j < numReactions ==> omcs[i, j] == if j in m[..k] then -1.0 else 0.0
      {
        assert m[..k + 1] == m[..k] + [m[k]];
        omcs[i, m[k]] := -1.0;
      }
      assert m[..|m|] == m;
    }
  }
}
