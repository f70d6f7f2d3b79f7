# LibAddressInput data layer, in Dafny

This project models the in-memory data layer of LibAddressInput-Dotnet, an
address-entry library, and proves properties of that model. It covers five parts:

- **`AddressData` and its `Builder`** (`address_data.dfy`).
  - The builder holds a map from single-value `AddressField`s to strings, a list of
    address lines, and a language tag.
  - Building an `AddressData` snapshots the eight single-value fields and the
    language. It keeps a reference to the builder's own line list instead of a copy.
  - `NormalizeAddressLines` is the split/trim/filter of address lines.
  - `Equals` and `GetHashCode` follow the code: scalars are compared by value, and
    non-empty line lists by reference.
- **The problem registry `AddressProblems`** (`address_problems.dfy`). It is a
  per-field table of validation problems. Its dictionary is one object, changed in
  place and handed out live.
- **The metadata key table `AddressDataKey`** (`address_data_key.dfy`). The static
  constructor files the 19 `AddressDataKeys` members under their lower-cased names,
  and `Get` resolves names regardless of case.
- **`AddressAutocompletePrediction`** (`prediction.dfy`). It has value equality over
  three nullable strings, and an exclusive-or hash.
- **`StringUtils`** (`string_utils.dfy`), with `CheckNotNull` and `TrimToNull`.
  These rest on the .NET string operations in `text.dfy`: `char.IsWhiteSpace`,
  `Trim`, `Split(char)`, `IsNullOrEmpty`, `IsNullOrWhiteSpace` and
  `ToLowerInvariant`.

Supporting files:

- `address_field.dfy` declares the `AddressField` and `AddressProblemType` enums.
- `wrappers.dfy` holds the supporting types.
- `hashing.dfy` holds `HashOrZero`, the null-safe string hash that `AddressData` and
  `AddressAutocompletePrediction` both use.

How the source's constructs are represented:

| In the source | In the model |
|---|---|
| A C# `string?` | `Option<string>` |
| A thrown exception | A `Failure`/`Fail` value of `Result`/`Outcome`, naming the exception |
| An `object` argument of `Equals` | `Obj<T>`: either an instance of the class, or anything else |
| Objects whose state changes in place (the builder, its line list, the problem dictionary) | Dafny classes |
| `AddressData`'s properties | `const` fields |
| The prediction | A datatype |

The model follows the code as written, including where it behaves unlike a conventional builder:

- Setting a non-blank value on a field that already holds one throws, because the
  setter uses `Dictionary.Add`. It does not overwrite. A null, empty or white-space
  value removes the field without error.
- The built `AddressData` shares the builder's line list.
- `Equals` compares two non-empty line lists by reference only.
- `SetAddress` always leaves the line list empty.
- `Set(AddressData)` on an address built from the same builder empties the lines.
  It clears the shared list before copying from it.

## Model

| member | source | states |
|---|---|---|
| Dictionaries.Add | src/LibAddressInput/AddressData.cs:340 | `Dictionary.Add` fails with a duplicate-key error exactly when the key is present; otherwise it adds the key with the value and keeps every other entry |
| Text.IsWhiteSpace | src/LibAddressInput/Utils/StringUtils.cs:20 | `char.IsWhiteSpace`, the test `Trim` cuts by: exactly the characters of the Unicode White_Space property. `Trim`'s contract is stated in terms of it |
| Text.Trim | src/LibAddressInput/Utils/StringUtils.cs:20 | The result is a contiguous part of the input. What it cuts off on either side is all white space, and it neither starts nor ends with white space. It is empty exactly when the input is all white space, and an already trimmed string is returned unchanged |
| Text.TrimCut | src/LibAddressInput/Utils/StringUtils.cs:20 | The two white-space scans bound the kept block: white space before and after it, trimmed ends, and the whole string when it was already trimmed |
| Text.TrimIdempotent | src/LibAddressInput/Utils/StringUtils.cs:20 | Trimming twice is trimming once |
| Text.TrimmedBlankIsEmpty | src/LibAddressInput/AddressData.cs:333-335 | After `Trim`, `IsNullOrWhiteSpace` holds only for the empty string |
| Text.Split | src/LibAddressInput/AddressData.cs:106-108 | No part of `Split('\n')` contains the separator, there is at least one part, and joining the parts with the separator gives back the input |
| Text.SplitJoin | src/LibAddressInput/AddressData.cs:108 | Splitting separator-free parts joined by the separator returns those parts, so `Split` loses nothing |
| Text.IsNullOrEmpty | src/LibAddressInput/Utils/StringUtils.cs:9 | `string.IsNullOrEmpty`: true exactly for null and "". `CheckNotNull`'s contract and `NormalizeLine`'s skip (AddressData.cs:103) rest on it |
| Text.IsNullOrWhiteSpace | src/LibAddressInput/AddressData.cs:334 | `string.IsNullOrWhiteSpace`: true exactly for null and strings made only of white space. `TrimThenBlankIsTrimToNull` ties it to `TrimToNull` |
| Text.ToLowerInvariant | src/LibAddressInput/AddressDataKey.cs:12 | Keeps the length and leaves no ASCII capital in the result. Every character that is not a capital is kept, and each capital becomes the same letter in lower case |
| Text.ToLowerCharAlike | src/LibAddressInput/AddressDataKey.cs:12 | Two characters lower-case alike exactly when they are equal or are one ASCII letter in its two cases |
| Text.LowerCaseAlikeIffSameIgnoringCase | src/LibAddressInput/AddressDataKey.cs:12 | Two strings lower-case alike exactly when they have the same length and agree position by position up to ASCII letter case |
| Text.ToLowerInvariantIdempotent | src/LibAddressInput/AddressDataKey.cs:12 | Lower-casing twice is lower-casing once |
| StringUtils.CheckNotNull | src/LibAddressInput/Utils/StringUtils.cs:7-13 | Fails, with the not-null error, exactly on null and "". Any other value, white space only included, is returned unchanged |
| StringUtils.TrimToNull | src/LibAddressInput/Utils/StringUtils.cs:15-26 | Null exactly for null or an all-white-space input. Otherwise the result is non-empty, has no white space at either end, and is a contiguous part of the input |
| StringUtils.TrimToNullCutsOnlyWhiteSpace | src/LibAddressInput/Utils/StringUtils.cs:20-25 | A non-null result is the input with only white space cut off at either end, so together with `TrimToNull`'s contract the result is fixed by the input |
| StringUtils.TrimToNullIdempotent | src/LibAddressInput/Utils/StringUtils.cs:15-26 | Applying `TrimToNull` to its own result changes nothing |
| StringUtils.TrimToNullKeepsStoredForm | src/LibAddressInput/Utils/StringUtils.cs:20-25 | A non-empty string without white space at either end comes back unchanged |
| AddressFields.SingleValueFieldsAreAllButStreetAddress | src/LibAddressInput/AddressData.cs:238-248 | `_singleValueFields` holds every field except `StreetAddress` |
| AddressFields.SingleValueFieldsDistinct | src/LibAddressInput/AddressData.cs:238-248 | No field is listed twice in `_singleValueFields` |
| AddressDataModel.Present | src/LibAddressInput/AddressData.cs:110-111 | The `if (trimmed != null) yield return` of the inner loop: when every non-null entry is a normal line, so is every line yielded. `PresentFrom` and `PresentKeeps` state what it keeps |
| AddressDataModel.TrimPieces | src/LibAddressInput/AddressData.cs:108-110 | `TrimToNull` applied to each piece of the split, one result per piece |
| AddressDataModel.TrimPiecesAt | src/LibAddressInput/AddressData.cs:108-110 | Result `q` is `TrimToNull` of piece `q` |
| AddressDataModel.TrimPiecesAppend | src/LibAddressInput/AddressData.cs:108-110 | Trimming works piece by piece: the results for `p + q` are those for `p` followed by those for `q` |
| AddressDataModel.TrimPiecesAreNormal | src/LibAddressInput/AddressData.cs:108-110 | A piece without '\n' trims to null or to a non-empty, trimmed line without '\n' |
| AddressDataModel.KeepTrimmed | src/LibAddressInput/AddressData.cs:108-113 | Every piece kept from a split line is non-empty, trimmed and free of line breaks. `KeepTrimmedSingle` and `KeepTrimmedAppend` together fix its whole output: each piece in turn yields its trimmed value once, or nothing when it trims to null, in piece order |
| AddressDataModel.KeepTrimmedSingle | src/LibAddressInput/AddressData.cs:108-113 | One piece yields exactly `TrimToNull` of it when that is not null, and nothing otherwise |
| AddressDataModel.KeepTrimmedAppend | src/LibAddressInput/AddressData.cs:108-113 | The inner loop works piece by piece: the lines yielded for pieces `p + q` are those for `p` followed by those for `q`, so pieces are never reordered, repeated or dropped beyond the nulls |
| AddressDataModel.NormalizeLine | src/LibAddressInput/AddressData.cs:101-120 | Every line one input entry contributes is non-empty, trimmed and free of line breaks. A null or empty entry contributes nothing |
| AddressDataModel.NormalizeAddressLines | src/LibAddressInput/AddressData.cs:99-122 | Every output line is non-empty, trimmed and free of '\n'. `NormalizeOutputIsTrimmedPieces` states exactly which lines the output holds, and `NormalizeAppend` with `KeepTrimmedAppend` and `KeepTrimmedSingle` fixes their order and count, entry by entry and piece by piece |
| AddressDataModel.NormalizeAppend | src/LibAddressInput/AddressData.cs:101-121 | Normalisation distributes over concatenation of its input, so input order is kept and entries are never merged |
| AddressDataModel.NormalizeKeepsNormalLines | src/LibAddressInput/AddressData.cs:99-122 | A list of lines that are already normal is returned unchanged |
| AddressDataModel.NormalizeIdempotent | src/LibAddressInput/AddressData.cs:99-122 | Normalising the output of `NormalizeAddressLines` returns it unchanged |
| AddressDataModel.PresentShift | src/LibAddressInput/AddressData.cs:108-112 | What the loop yields from position `|a| + j` of `a + b` is what it yields from position `j` of `b` |
| AddressDataModel.PresentAppend | src/LibAddressInput/AddressData.cs:108-112 | The loop works entry by entry: what it yields for `a + b` is what it yields for `a` followed by what it yields for `b` |
| AddressDataModel.PresentSingle | src/LibAddressInput/AddressData.cs:110-112 | A single entry yields its value once, or nothing when it is null |
| AddressDataModel.PresentFrom | src/LibAddressInput/AddressData.cs:110-111 | Every value the loop yields is the value of a non-null entry at or after the starting index |
| AddressDataModel.PresentKeeps | src/LibAddressInput/AddressData.cs:110-111 | The loop drops only nulls: the value of every non-null entry at or after the starting index is yielded |
| AddressDataModel.KeepTrimmedFromPieces | src/LibAddressInput/AddressData.cs:108-113 | Every piece the inner loop yields is `TrimToNull` of one of the split pieces |
| AddressDataModel.KeepTrimmedKeeps | src/LibAddressInput/AddressData.cs:108-113 | Every split piece that does not trim to null is kept, trimmed |
| AddressDataModel.NormalizeLineFromPieces | src/LibAddressInput/AddressData.cs:101-120 | Every line one entry contributes is `TrimToNull` of one piece of that entry's split at '\n'. For an entry without '\n', that piece is the whole entry |
| AddressDataModel.NormalizeOutputSource | src/LibAddressInput/AddressData.cs:99-122 | For each output line, gives the non-null input entry and the piece of its split at '\n' that `TrimToNull` turns into that line |
| AddressDataModel.NormalizeOutputFromInput | src/LibAddressInput/AddressData.cs:99-122 | Normalisation invents nothing. Every output line is the trimmed, non-blank form of a '\n'-piece of some non-null input entry |
| AddressDataModel.NormalizeKeepsEveryPiece | src/LibAddressInput/AddressData.cs:99-122 | Normalisation loses nothing. Every '\n'-piece of a non-null input entry that does not trim to null reaches the output, trimmed |
| AddressDataModel.NormalizeOutputIsTrimmedPieces | src/LibAddressInput/AddressData.cs:99-122 | Both directions: a string is an output line exactly when it is the trimmed, non-blank form of a '\n'-piece of some non-null input entry |
| AddressDataModel.SplitExample | src/LibAddressInput/AddressData.cs:108 | "a\nb\n\nc" splits at '\n' into "a", "b", "" and "c", the empty piece included |
| AddressDataModel.TrimToNullExample | src/LibAddressInput/Utils/StringUtils.cs:15-26 | "a", "b" and "c" come back unchanged, and "" becomes null |
| AddressDataModel.TrimPiecesExample | src/LibAddressInput/AddressData.cs:110 | The pieces "a", "b", "" and "c" trim to "a", "b", null and "c" |
| AddressDataModel.PresentExample | src/LibAddressInput/AddressData.cs:111-112 | The null entry among four is skipped and the others are kept in order |
| AddressDataModel.KeepTrimmedExample | src/LibAddressInput/AddressData.cs:108-113 | Of the pieces "a", "b", "" and "c", the inner loop keeps "a", "b" and "c" |
| AddressDataModel.NormalizeLineExample | src/LibAddressInput/AddressData.cs:101-120 | The entry "a\nb\n\nc" contributes "a", "b" and "c" |
| AddressDataModel.NormalizeSplitsAndDropsBlank | src/LibAddressInput/AddressData.cs:99-122 | A line list holding only "a\nb\n\nc" normalises to "a", "b" and "c" |
| AddressDataModel.Assign | src/LibAddressInput/AddressData.cs:329-344 | Effect of the private `Set(field, value)` on the field map. A single-value field gets `TrimToNull(value)`, and a null result removes it. A non-blank value for an occupied field fails with a duplicate-key error. A multi-value field is ignored, no other field changes, and the map keeps holding only stored-form values |
| AddressDataModel.TrimThenBlankIsTrimToNull | src/LibAddressInput/AddressData.cs:333-335 | `value?.Trim()` followed by the `IsNullOrWhiteSpace` reset computes `TrimToNull(value)` |
| AddressDataModel.ClearThenSet | src/LibAddressInput/AddressData.cs:337-340 | Clearing a field with a null or white-space value always succeeds, and a non-blank value set after that is accepted and stored trimmed |
| AddressDataModel.SnapshotLookup | src/LibAddressInput/AddressData.cs:262-267 | After the map is cleared and the fields `fs` are re-set from `a`, a field holds `a`'s value trimmed to null if it is among `fs`, and nothing otherwise |
| AddressDataModel.SnapshotExtend | src/LibAddressInput/AddressData.cs:264-267 | Each re-set inside `Set(AddressData)` targets a field not yet in the map, so it never fails |
| AddressDataModel.SingleValueFieldsPrefix | src/LibAddressInput/AddressData.cs:264 | The loop of `Set(AddressData)` meets each single-value field once |
| AddressDataModel.SnapshotOfValid | src/LibAddressInput/AddressData.cs:260-267 | For an `AddressData` whose fields are in stored form, the map after `Set(a)` holds exactly `a`'s non-null fields |
| AddressDataModel.LineList.constructor | src/LibAddressInput/AddressData.cs:235 | `new List<string>()`: a new line list is empty |
| AddressDataModel.LineList.AddRange | src/LibAddressInput/AddressData.cs:310 | `List.AddRange` appends the entries in order |
| AddressDataModel.LineList.Add | src/LibAddressInput/AddressData.cs:317 | `List.Add` appends one entry |
| AddressDataModel.LineList.Clear | src/LibAddressInput/AddressData.cs:309 | `List.Clear` empties the list |
| AddressDataModel.LineList.Any | src/LibAddressInput/AddressData.cs:135 | `Enumerable.Any()` on the line list: true when the list has an entry. `Equals` and `Hash` use it to treat an empty list as equal to any other empty list and to hash it as 0 |
| AddressDataModel.Builder.constructor | src/LibAddressInput/AddressData.cs:234-250 | A new builder has an empty map, a fresh empty line list and no language |
| AddressDataModel.Builder.GetValue | src/LibAddressInput/AddressData.cs:252-258 | Returns the stored value, or null when the field is absent. A stored value belongs to a single-value field and is non-empty and trimmed |
| AddressDataModel.Builder.SetField | src/LibAddressInput/AddressData.cs:329-344 | The new map and the outcome are those of `Assign`: on failure the map is unchanged, the map invariant is kept, and the language is untouched. The line list is outside its frame |
| AddressDataModel.Builder.SetCountry | src/LibAddressInput/AddressData.cs:283-284 | Null and "" fail before any state changes. Any other value, white space included, goes through `SetField`, and white space therefore clears the country |
| AddressDataModel.Builder.SetAdminArea | src/LibAddressInput/AddressData.cs:286-287 | Same as `SetField` on `AdminArea` |
| AddressDataModel.Builder.SetLocality | src/LibAddressInput/AddressData.cs:289-290 | Same as `SetField` on `Locality` |
| AddressDataModel.Builder.SetDependentLocality | src/LibAddressInput/AddressData.cs:292-293 | Same as `SetField` on `DependentLocality` |
| AddressDataModel.Builder.SetPostalCode | src/LibAddressInput/AddressData.cs:295-296 | Same as `SetField` on `PostalCode` |
| AddressDataModel.Builder.SetSortingCode | src/LibAddressInput/AddressData.cs:298-299 | Same as `SetField` on `SortingCode` |
| AddressDataModel.Builder.SetOrganization | src/LibAddressInput/AddressData.cs:301-302 | Same as `SetField` on `Organization` |
| AddressDataModel.Builder.SetRecipient | src/LibAddressInput/AddressData.cs:304-305 | Same as `SetField` on `Recipient` |
| AddressDataModel.Builder.SetLanguageCode | src/LibAddressInput/AddressData.cs:276-281 | Stores the language verbatim, null included, and leaves the map alone |
| AddressDataModel.Builder.SetAddressLines | src/LibAddressInput/AddressData.cs:307-313 | The list holds exactly the given entries afterwards. Map and language are unchanged |
| AddressDataModel.Builder.AddAddressLines | src/LibAddressInput/AddressData.cs:315-319 | Appends exactly one raw entry at the end. Map and language are unchanged |
| AddressDataModel.Builder.SetAddress | src/LibAddressInput/AddressData.cs:321-327 | Always leaves the line list empty, whatever the argument. Map and language are unchanged |
| AddressDataModel.Builder.Set | src/LibAddressInput/AddressData.cs:260-274 | The map becomes `a`'s single-value fields trimmed to null, each set once. The lines become `a`'s lines, or empty when `a` shares this builder's list. The language becomes `a`'s |
| Hashing.HashOrZero | src/LibAddressInput/AddressData.cs:181 | `field == null ? 0 : field.GetHashCode()` for a given string hash. `Hash` folds it over the nine scalars, and `Prediction.Hash` uses it for each property (AddressAutocompletePrediction.cs:23) |
| AddressDataModel.NullAwareEquals | src/LibAddressInput/AddressData.cs:132-134 | `x == null ? y == null : x.Equals(y)` holds exactly when the two nullable strings are equal |
| AddressDataModel.AddressData.constructor | src/LibAddressInput/AddressData.cs:11-23 | Each single-value field gets the builder's value or null, and the language is copied. The line list is the builder's own object. The result's fields are in stored form |
| AddressDataModel.AddressData.GetFieldValue | src/LibAddressInput/AddressData.cs:207-230 | Succeeds exactly for the eight single-value fields and fails with the multi-value error for `StreetAddress` |
| AddressDataModel.AddressData.Equals | src/LibAddressInput/AddressData.cs:124-162 | False for a non-`AddressData`. Otherwise it holds exactly when the nine scalars are equal and the line lists are both empty or the same object |
| AddressDataModel.AddressData.Hash | src/LibAddressInput/AddressData.cs:164-186 | The value `GetHashCode` returns, as a function of the string hash and the list identity hash. `GetHashCode`'s loop is proved to compute it, and `EqualsImpliesEqualHash` proves it consistent with `Equals` |
| AddressDataModel.AddressData.GetHashCode | src/LibAddressInput/AddressData.cs:164-186 | The loop computes `Hash`: start at 17 and fold `31 * result + h` with 32-bit wrap-around over the nine scalars, then over the lines (0 when empty, else the list's identity hash) |
| AddressDataModel.EqualsReflexive | src/LibAddressInput/AddressData.cs:126-127 | Every `AddressData` equals itself |
| AddressDataModel.EqualsSymmetric | src/LibAddressInput/AddressData.cs:132-161 | `Equals` is symmetric |
| AddressDataModel.EqualsTransitive | src/LibAddressInput/AddressData.cs:132-161 | `Equals` is transitive |
| AddressDataModel.EqualsImpliesEqualHash | src/LibAddressInput/AddressData.cs:164-186 | Equal addresses have equal hash codes, for every string hash and list identity hash |
| AddressDataModel.SameFieldsSameScalars | src/LibAddressInput/AddressData.cs:168-178 | The nine hashed scalars are determined by the eight single-value fields and the language |
| AddressDataModel.CopyThroughBuilder | src/LibAddressInput/AddressData.cs:260-274 | `new AddressData(new Builder().Set(a))` has `a`'s eight fields, language and line contents in a new list object. It therefore equals `a` exactly when `a` has no lines |
| AddressDataModel.LaterLineEditsAreVisible | src/LibAddressInput/AddressData.cs:21 | A line added to the builder after the build is seen through the `AddressData` |
| AddressProblemsModel.ProblemTable.constructor | src/LibAddressInput/AddressProblems.cs:8 | `new Dictionary<AddressField, AddressProblemType>()`: a new table has no entries |
| AddressProblemsModel.ProblemTable.Add | src/LibAddressInput/AddressProblems.cs:10-11 | `Dictionary.Add` on the registry: a new field is inserted, and an existing one fails with the duplicate-key error, leaving the table unchanged |
| AddressProblemsModel.ProblemTable.Clear | src/LibAddressInput/AddressProblems.cs:19-20 | `Dictionary.Clear` empties the table |
| AddressProblemsModel.AddressProblems.constructor | src/LibAddressInput/AddressProblems.cs:8 | A new registry is empty and reports no problem for any field |
| AddressProblemsModel.AddressProblems.GetProblemType | src/LibAddressInput/AddressProblems.cs:22-23 | The problem recorded for the field in the live dictionary, or null. The contracts of `Add`, `Clear` and the constructor state their effects through it |
| AddressProblemsModel.AddressProblems.Problems | src/LibAddressInput/AddressProblems.cs:25 | Returns the registry's own dictionary object, not a copy. `WritesThroughProblemsAreSeen` shows what follows from that |
| AddressProblemsModel.AddressProblems.IsEmpty | src/LibAddressInput/AddressProblems.cs:13-14 | True exactly when no field has a recorded problem |
| AddressProblemsModel.AddressProblems.Add | src/LibAddressInput/AddressProblems.cs:10-11 | The private `Add`; from outside, problems are added only through the dictionary `Problems` returns. Records the problem for a field without one. It fails for a field that has one and keeps the old problem. Every other field's problem is unchanged |
| AddressProblemsModel.AddressProblems.Clear | src/LibAddressInput/AddressProblems.cs:19-20 | Afterwards the registry is empty and every field has no problem |
| AddressProblemsModel.WritesThroughProblemsAreSeen | src/LibAddressInput/AddressProblems.cs:25 | `Problems` is the live dictionary: an entry added through it is what `GetProblemType` and `IsEmpty` report |
| AddressProblemsModel.AddTwiceThenClear | src/LibAddressInput/AddressProblems.cs:10-20 | A second `Add` for a field fails and keeps the first problem, and `Clear` then empties the registry |
| AddressDataKeyModel.Name | src/LibAddressInput/AddressDataKey.cs:20 | The enum's `ToString()`, which gives each member's name as declared at lines 26-44. `TableKeyIsLowerName` and `TableKeysDistinct` state what the table needs of it |
| AddressDataKeyModel.AllKeysInOrder | src/LibAddressInput/AddressDataKey.cs:24-45 | The enumeration lists the members by their integer values 0 to 18, so no member appears twice |
| AddressDataKeyModel.AllKeysComplete | src/LibAddressInput/AddressDataKey.cs:18 | `Enum.GetValues` lists every member |
| AddressDataKeyModel.TableKey | src/LibAddressInput/AddressDataKey.cs:20 | `field.ToString().ToLowerInvariant()`, the key a member is filed under. `TableKeyIsLowerName` spells each one out and `TableKeysDistinct` shows no two collide |
| AddressDataKeyModel.TableKeyIsLowerName | src/LibAddressInput/AddressDataKey.cs:20 | `ToString().ToLowerInvariant()` of each member is its name spelled in lower case |
| AddressDataKeyModel.LowerNameInverse | src/LibAddressInput/AddressDataKey.cs:20 | Each member's lower-case name is read back as that member |
| AddressDataKeyModel.KeyOfLowerNameInverse | src/LibAddressInput/AddressDataKey.cs:20 | Only the members' lower-case names are read back, each as its own member |
| AddressDataKeyModel.TableKeyRoundTrip | src/LibAddressInput/AddressDataKey.cs:20 | The table key of every member resolves to that member |
| AddressDataKeyModel.TableKeysDistinct | src/LibAddressInput/AddressDataKey.cs:18-21 | No two members share a lower-cased name, so the table's `Dictionary.Add` never meets a duplicate |
| AddressDataKeyModel.TableOf | src/LibAddressInput/AddressDataKey.cs:18-21 | Every entry of the table being built is filed under its own member's lower-cased name, and is one of the members added so far |
| AddressDataKeyModel.TableOfContains | src/LibAddressInput/AddressDataKey.cs:18-21 | Every member added is in the table under its lower-cased name |
| AddressDataKeyModel.AllKeysFiled | src/LibAddressInput/AddressDataKey.cs:18-21 | Once every member is added, each is filed under its own lower-cased name |
| AddressDataKeyModel.KeyNameMap | src/LibAddressInput/AddressDataKey.cs:8 | `AddressKeyNameMap` as the static constructor leaves it. Every member is found under its lower-cased name. Nothing writes to the table after construction, so every `Get` reads this one value |
| AddressDataKeyModel.KeyNameMapIsNameTable | src/LibAddressInput/AddressDataKey.cs:16-22 | The finished table maps each member's lower-cased name to that member, and holds no other key |
| AddressDataKeyModel.AddAll | src/LibAddressInput/AddressDataKey.cs:18-21 | Adding distinct members one by one with `Dictionary.Add` never fails, and yields the table of those members |
| AddressDataKeyModel.BuildKeyNameMap | src/LibAddressInput/AddressDataKey.cs:16-22 | The static constructor succeeds. Its table maps every member's lower-cased name to the member and has no other keys |
| AddressDataKeyModel.Get | src/LibAddressInput/AddressDataKey.cs:10-14 | A null name fails with the null-reference error. Otherwise the name is lower-cased: a member's lower-case name resolves to that member, and anything else fails with key-not-found |
| AddressDataKeyModel.GetIgnoresCase | src/LibAddressInput/AddressDataKey.cs:12-13 | Two names that differ only in the case of ASCII letters resolve alike |
| AddressDataKeyModel.GetFindsExactlyTheMembers | src/LibAddressInput/AddressDataKey.cs:12-13 | `Get(name)` returns member `k` exactly when the lower-cased name is `k`'s lower-cased name |
| AddressDataKeyModel.GetName | src/LibAddressInput/AddressDataKey.cs:12-13 | Any ASCII casing of a member's declared name resolves to that member |
| AddressDataKeyModel.GetAnyCasing | src/LibAddressInput/AddressDataKey.cs:12-13 | "COUNTRIES" and "countries" both resolve to `Countries` |
| AddressDataKeyModel.GetUnknownName | src/LibAddressInput/AddressDataKey.cs:12-13 | Every name whose lower-cased form is no member's lower-cased name fails with key-not-found |
| AddressDataKeyModel.GetBogusName | src/LibAddressInput/AddressDataKey.cs:12-13 | The example "bogus" fails with key-not-found |
| AutocompleteModel.Prediction.Equals | src/LibAddressInput/AddressAutocompletePrediction.cs:11-20 | False for a non-prediction. Otherwise it holds exactly when all three of this prediction's properties are non-null and the other prediction is the same value |
| AutocompleteModel.Prediction.Hash | src/LibAddressInput/AddressAutocompletePrediction.cs:22-23 | `GetHashCode`: the exclusive or of the three properties' hashes, with null counting as 0, for a given string hash. The lemmas below state its properties |
| AutocompleteModel.EqualsReflexiveIffComplete | src/LibAddressInput/AddressAutocompletePrediction.cs:17-19 | A prediction equals itself exactly when none of its properties is null, so `Equals` is not reflexive |
| AutocompleteModel.EqualsSymmetric | src/LibAddressInput/AddressAutocompletePrediction.cs:17-19 | `Equals` is symmetric |
| AutocompleteModel.EqualsTransitive | src/LibAddressInput/AddressAutocompletePrediction.cs:17-19 | `Equals` is transitive |
| AutocompleteModel.EqualsImpliesEqualHash | src/LibAddressInput/AddressAutocompletePrediction.cs:22-23 | Equal predictions have equal hash codes, for every string hash |
| AutocompleteModel.HashIgnoresPlaceIdPosition | src/LibAddressInput/AddressAutocompletePrediction.cs:23 | Swapping the place id and the primary text keeps the hash |
| AutocompleteModel.HashIgnoresTextOrder | src/LibAddressInput/AddressAutocompletePrediction.cs:23 | Swapping the primary and secondary texts keeps the hash. Together with the previous swap, this covers every permutation of the three values |
| AutocompleteModel.SwappedPredictionsCollide | src/LibAddressInput/AddressAutocompletePrediction.cs:11-23 | Two complete predictions that trade place id and primary text hash alike but are not equal |
| AutocompleteModel.HashOfRepeatedText | src/LibAddressInput/AddressAutocompletePrediction.cs:23 | Two equal non-null properties cancel out of the exclusive-or |
| AutocompleteModel.HashOfEmpty | src/LibAddressInput/AddressAutocompletePrediction.cs:23 | A prediction whose properties are all null hashes to 0 |

## Left out

- **`ToString`**: the `ToString` overrides of `AddressData` and `AddressProblems` produce diagnostic text only.
- **`IAddressAutocompleteApi`**: this interface has no logic of its own. Its implementations do network I/O, and `IAddressAutocompleteApi.cs` is not part of this model.
- **Concrete hash values**: `string.GetHashCode` is randomised per process, and a list's hash is its identity. Both are parameters of `Hash` and `GetHashCode`, so only what holds for every hash function is proved. The 32-bit wrap-around of `31 * result + h` is modelled with `bv32`.
- **Unicode**:
  - `char.IsWhiteSpace` is the fixed list of the Unicode White_Space characters.
  - `ToLowerInvariant` lower-cases ASCII `A`-`Z` only and leaves every other character unchanged. The 19 key names need no more than that, but a non-ASCII input to `AddressDataKey.Get` may be lower-cased differently than .NET would.
- **The key table's setup and threading**: static-initialiser timing and thread safety are not modelled. The table is one value built once (`KeyNameMap`), and `BuildKeyNameMap` is proved to produce it.
- **Null arguments that are objects**: the methods take a `seq` or an object reference that cannot be null, so these three failures are not modelled (line numbers refer to src/LibAddressInput/AddressData.cs):
  - `Set(null)` first empties the field map (line 262). It then throws `NullReferenceException` at `addressData.GetFieldValue` (line 266), leaving the map empty and the lines and language unchanged.
  - `SetAddressLines(null)` first empties the line list (line 309). It then throws `ArgumentNullException` from `AddRange(null)` (line 310), leaving the list empty.
  - `new AddressData(null)` throws `NullReferenceException` at its first statement (line 13), before anything is built.
- **Passing a list to itself**:
  - `AddressDataModel.Builder.SetAddressLines` takes a sequence of entries, so passing the builder's own list to it is not modelled. In .NET, clearing the list first would leave it empty.
  - `Set(AddressData)` does model that case.
- **`AddressDataModel.Builder.SetField`**: the setters return `this` for chaining, and the model does not return it. They return only the outcome, and a thrown exception is a `Fail` value.
- **`AddressField` and `AddressProblemType`**: both are plain datatypes with no behaviour.
