/** Option, result and outcome types used throughout the model.
    - Option stands for a C# reference that may be null (`string?`, `AddressProblemType?`).
    - Result and Outcome stand for a call that either returns or throws.
    - Obj stands for an argument of static type `object`: either an instance of the
      expected class, or null / an instance of some unrelated class. */
module Wrappers {

  datatype Option<+T> = None | Some(value: T)

  datatype Result<+R, +E> = Success(value: R) | Failure(error: E)

  /** The result of a call that returns nothing (or `this`, for fluent builders). */
  datatype Outcome<+E> = Pass | Fail(error: E)

  /** An `object` argument as seen by an `Equals` override. */
  datatype Obj<+T> = Of(value: T) | Foreign
}

/** The exceptions the modelled code can raise. */
module Exceptions {

  datatype Exception =
    | ValueNullOrEmpty              // InvalidOperationException thrown by StringUtils.CheckNotNull
    | MultiValueFieldNotSupported   // InvalidOperationException thrown by AddressData.GetFieldValue
    | DuplicateKey                  // ArgumentException thrown by Dictionary.Add on an existing key
    | KeyNotFound                   // KeyNotFoundException thrown by the Dictionary indexer
    | NullReference                 // NullReferenceException: a method called on a null string
}

/** The one Dictionary operation whose failure matters to the core: `Add`, which
    rejects a key that is already present instead of overwriting it. */
module Dictionaries {
  import opened Wrappers
  import opened Exceptions

  function Add<K, V>(m: map<K, V>, k: K, v: V): (r: Result<map<K, V>, Exception>)
    ensures r.Failure? <==> k in m
    ensures r.Failure? ==> r.error == DuplicateKey
    ensures r.Success? ==> k in r.value && r.value[k] == v && r.value.Keys == m.Keys + {k}
    ensures r.Success? ==> forall j :: j in m ==> j in r.value && r.value[j] == m[j]
  {
    if k in m then Failure(DuplicateKey) else Success(m[k := v])
  }
}
