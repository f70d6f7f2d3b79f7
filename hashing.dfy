/** The hash of a nullable string property, shared by the address value object
    (src/LibAddressInput/AddressData.cs) and the autocomplete suggestion
    (src/LibAddressInput/AddressAutocompletePrediction.cs). The string hash itself is a
    parameter: .NET's string hash is randomised per process. */
module Hashing {
  import opened Wrappers

  /** `field == null ? 0 : field.GetHashCode()` */
  function HashOrZero(v: Option<string>, strHash: string -> bv32): bv32 {
    if v.None? then 0 else strHash(v.value)
  }
}
