/** src/LibAddressInput/AddressAutocompletePrediction.cs: an autocomplete
    suggestion, identified by its place id and its two display texts. The class is
    abstract and its three properties are virtual getters; the datatype holds the
    values the three getters return. */
module AutocompleteModel {
  import opened Wrappers
  import opened Hashing

  datatype Prediction = Prediction(
    placeId: Option<string>,
    primaryText: Option<string>,
    secondaryText: Option<string>)
  {
    /** All three properties are non-null. */
    predicate IsComplete() {
      placeId.Some? && primaryText.Some? && secondaryText.Some?
    }

    /** Equals(object): each of this prediction's properties must be non-null and
        equal to the other's; anything that is not a prediction is unequal. */
    function Equals(o: Obj<Prediction>): (r: bool)
      ensures r <==> o.Of? && IsComplete() && o.value == this
    {
      match o
      case Foreign => false
      case Of(p) =>
        && placeId.Some? && Some(placeId.value) == p.placeId
        && primaryText.Some? && Some(primaryText.value) == p.primaryText
        && secondaryText.Some? && Some(secondaryText.value) == p.secondaryText
    }

    /** GetHashCode: the exclusive or of the three properties' hashes, a null one
        counting as 0. */
    function Hash(strHash: string -> bv32): bv32 {
      HashOrZero(placeId, strHash)
        ^ HashOrZero(primaryText, strHash)
        ^ HashOrZero(secondaryText, strHash)
    }
  }

  /** A prediction with a null property is not equal even to itself. */
  lemma EqualsReflexiveIffComplete(p: Prediction)
    ensures p.Equals(Of(p)) <==> p.IsComplete()
  {
  }

  lemma EqualsSymmetric(a: Prediction, b: Prediction)
    ensures a.Equals(Of(b)) <==> b.Equals(Of(a))
  {
  }

  lemma EqualsTransitive(a: Prediction, b: Prediction, c: Prediction)
    requires a.Equals(Of(b)) && b.Equals(Of(c))
    ensures a.Equals(Of(c))
  {
  }

  /** Equal predictions hash alike, whatever the string hash is. */
  lemma EqualsImpliesEqualHash(a: Prediction, b: Prediction, strHash: string -> bv32)
    requires a.Equals(Of(b))
    ensures a.Hash(strHash) == b.Hash(strHash)
  {
  }

  /** The hash does not depend on which property holds which text: swapping the
      place id and the primary text, or the two display texts, keeps it. */
  lemma HashIgnoresPlaceIdPosition(a: Option<string>, b: Option<string>, c: Option<string>, strHash: string -> bv32)
    ensures Prediction(a, b, c).Hash(strHash) == Prediction(b, a, c).Hash(strHash)
  {
  }

  lemma HashIgnoresTextOrder(a: Option<string>, b: Option<string>, c: Option<string>, strHash: string -> bv32)
    ensures Prediction(a, b, c).Hash(strHash) == Prediction(a, c, b).Hash(strHash)
  {
  }

  /** Hashes alike do not make predictions equal: two complete predictions that
      trade their place id and primary text collide without being equal. */
  lemma SwappedPredictionsCollide(strHash: string -> bv32)
    ensures Prediction(Some("a"), Some("b"), Some("c")).Hash(strHash)
         == Prediction(Some("b"), Some("a"), Some("c")).Hash(strHash)
    ensures !Prediction(Some("a"), Some("b"), Some("c")).Equals(Of(Prediction(Some("b"), Some("a"), Some("c"))))
  {
    HashIgnoresPlaceIdPosition(Some("a"), Some("b"), Some("c"), strHash);
  }

  /** Two equal texts cancel out: the hash is then that of the third property. */
  lemma HashOfRepeatedText(t: string, c: Option<string>, strHash: string -> bv32)
    ensures Prediction(Some(t), Some(t), c).Hash(strHash) == HashOrZero(c, strHash)
  {
  }

  /** A prediction with all three properties null hashes to 0. */
  lemma HashOfEmpty(strHash: string -> bv32)
    ensures Prediction(None, None, None).Hash(strHash) == 0
  {
  }
}
