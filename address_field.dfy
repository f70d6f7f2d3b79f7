/** src/LibAddressInput/AddressField.cs */
module AddressFields {

  datatype AddressField =
    | Country
    | StreetAddress
    | AdminArea
    | Locality
    | DependentLocality
    | PostalCode
    | Recipient
    | Organization
    | SortingCode

  /** The builder's `_singleValueFields`, in its order: every field but StreetAddress,
      which is held as the list of address lines instead. */
  const SingleValueFields: seq<AddressField> :=
    [AdminArea, Country, DependentLocality, Locality, Organization, PostalCode, Recipient, SortingCode]

  lemma SingleValueFieldsAreAllButStreetAddress(f: AddressField)
    ensures f in SingleValueFields <==> f != StreetAddress
  {
  }

  /** No field is listed twice. */
  lemma SingleValueFieldsDistinct()
    ensures forall i, j :: 0 <= i < j < |SingleValueFields| ==> SingleValueFields[i] != SingleValueFields[j]
  {
  }
}

/** src/LibAddressInput/AddressProblemType.cs */
module AddressProblemTypes {

  datatype AddressProblemType =
    | UnexpectedField
    | MissingRequiredField
    | UnknownValue
    | InvalidFormat
    | MismatchingValue
}
