/** The string lists that define the analysis regions of the detector. */
module Detector {

  /** The IceCube strings around DeepCore that the analysis region uses. */
  const IC_STRINGS: seq<nat> := [26, 27, 37, 46, 45, 35, 17, 18, 19, 28, 38, 47, 56, 55, 54, 44, 34, 25]

  /** The same region with string 36 added, as the local-coincidence hit counter uses it. */
  const IC_STRINGS_WITH_36: seq<nat> := [36, 26, 27, 35, 37, 45, 46, 17, 18, 19, 28, 38, 47, 56, 55, 54, 44, 34, 25]

  /** The DeepCore strings. */
  const DC_STRINGS: seq<nat> := [81, 82, 83, 84, 85, 86]

  /** Strings never counted as noise hits. */
  const EXCLUDED_STRINGS: seq<nat> := [36, 79, 80]

  /** First DOM position counted in the IceCube analysis region (below the dust layer). */
  const IC_MIN_OM: nat := 40

  /** First DOM position counted in the DeepCore analysis region. */
  const DC_MIN_OM: nat := 11

  /** Membership of a string number stored as a double (vectors of doubles hold them). */
  predicate OnList(x: real, list: seq<nat>)
  {
    exists i :: 0 <= i < |list| && list[i] as real == x
  }

  /** The IceCube and DeepCore lists share no string, and neither does the extended IceCube list. */
  lemma ListsDisjoint()
    ensures forall s :: s in DC_STRINGS ==> s !in IC_STRINGS && s !in IC_STRINGS_WITH_36
    ensures forall x :: OnList(x, DC_STRINGS) ==> !OnList(x, IC_STRINGS)
  {
    assert forall s :: s in DC_STRINGS ==> s >= 81;
    assert forall s :: s in IC_STRINGS_WITH_36 ==> s <= 56;
    assert forall s :: s in IC_STRINGS ==> s <= 56;
    forall x | OnList(x, DC_STRINGS) ensures x >= 81.0 {
      var i :| 0 <= i < |DC_STRINGS| && DC_STRINGS[i] as real == x;
      assert DC_STRINGS[i] in DC_STRINGS;
    }
    forall x | OnList(x, IC_STRINGS) ensures x <= 56.0 {
      var j :| 0 <= j < |IC_STRINGS| && IC_STRINGS[j] as real == x;
      assert IC_STRINGS[j] in IC_STRINGS;
    }
  }
}
