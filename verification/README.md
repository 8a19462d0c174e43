# Firestore bundle decoder, modelled in Dafny

A Firestore bundle is a line-delimited series of JSON elements: bundle
metadata, named queries, document metadata and documents. The C++ client
decodes each element with a `BundleSerializer`, which reads the parsed JSON
through a `JsonReader`. The reader is a `util::ReadContext` that records the
first failure. Every `Require*` call is total. When a member is missing or
has the wrong type, the call records a failure and hands back a placeholder
(an empty string, an empty array, the parent object, or 0), so decoding
always runs to the end. Afterwards the caller asks the reader whether
anything went wrong.

The model has three layers:

- **JSON and the domain.** `JsonTree` is the parsed tree. An object is a
  sequence of named members, and a lookup finds the first match. `Model`
  holds the domain values the decoder builds: field values, filters,
  orderings, bounds, targets, bundled queries, metadata and documents.
  `Numbers` holds the fixed-width integer types, `static_cast` narrowing
  and absl's `SimpleAtoi`. `ReadStatus` holds the reader's error state:
  `Fail` keeps the first failure and `Set` (`set_status`) replaces it.
- **Specification functions.** `Reader`, `ValueDecoding`, `QueryDecoding`
  and `ElementDecoding` give, for each decoder, a function of the reader's
  status before the call. It returns the decoded value and the status
  afterwards as a `Decoded<T>`. Loops are specified by accumulator
  functions (`ValuesFrom`, `MembersFrom`, `CompositeFrom`, `OrderBysFrom`,
  `QueryNamesFrom`).
- **Imperative decoders.** `Reader.JsonReader` is a class with a mutable
  `status`. `Serializer` has the anonymous-namespace helpers as methods
  over a `JsonReader`, and `Serializer.BundleSerializer` is a class with
  one constant field, `rpc` (`rpc_serializer_`). Every method is proved to
  return exactly the value of its specification function and to leave the
  reader in exactly that function's status. Each method's `modifies`
  clause names only the reader, so decoding can change nothing else. The
  serializer's `rpc` is a `const` set by the constructor.

Outside code the decoder calls is passed in as a parameter:
- `Model.Library` bundles absl's `ParseTime`, `Base64Unescape` and
  `SimpleAtod`, `FieldPath::FromServerFormat`, `ResourcePath::FromString`
  and `TimestampInternal::FromUntrusted*`.
- `Model.RpcSerializer` stands for `remote::Serializer`.

Five calls abort on bad input instead of recording a failure:
- `FieldFilter::Create` and `DocumentKey` are reached only behind the
  decoder's own `ok()` guard, and the model requires exactly that guard
  (`CreateFieldFilter`, `MakeDocumentKey`). Their own checks of their
  arguments are not modelled; see "## Left out".
- `from_json.get_ref<vector>()` needs an array, which the model requires:
  see `FromIsArray`.
- `PopFirst(5)` in `DecodeName` needs a path of at least five segments,
  which the model requires: see `NameHasPrefix`, `NamePrefixed` and
  `ParentHasPrefix`.

The fifth, `map_value.object_value()` in `DecodeDocument`, is reachable
with a document that has no `fields`. It is recorded under "## Findings":
`DocumentOfAsWritten` keeps it as a precondition, and the decoder the rest
of the model uses, `DocumentOf`, fails instead.

Lemmas then relate the specification functions to each other and to the
JSON they read. `ValueLemmas` proves that value decoding takes the first
type key present and that a decoded value has its key's type. It also
proves that decoding inverts the bundle encoding of every value whose
encoding needs no outside library. `QueryLemmas` proves that composite
filters are all-or-nothing, that the `from` selector decides the
collection group, that limits wrap to 32 bits, and that a bundled query
decodes ok exactly when each of its parts does, and then holds them.

Each loop over a JSON array (values, composite children, orderings) is
related to its elements decoded one by one from a clean reader: the loop
ends ok exactly when every element does, and then holds their results in
order. `ReadStatus.LoopCollects` is the induction shared by the composite and
ordering loops.

Source paths below are relative to the repository root.

## Model

| member | source | states |
|---|---|---|
| ReadStatus.Status.Fail | Firestore/core/src/bundle/bundle_serializer.h:38 | `ReadContext::Fail`: the result is failed; an existing failure is kept; otherwise the new error is recorded |
| ReadStatus.Status.Set | Firestore/core/src/bundle/bundle_serializer.cc:111-113 | `set_status` with a failed status: the result is failed with exactly the given error, whatever was recorded before |
| JsonTree.At | Firestore/core/src/bundle/bundle_serializer.cc:332-333 | `json.at(name)` on a member that `contains` found: the result is a proper part of the object (what recursive decoding relies on) |
| Numbers.Narrow | Firestore/core/src/bundle/bundle_serializer.cc:397-398 | `get<T>()` on a JSON integer: the result is in T's range, congruent to the input modulo 2^bits, and equal to it when it already fits |
| Numbers.CongruentInRange | Firestore/core/src/bundle/bundle_serializer.cc:397-398 | two values in T's range that are congruent to the same integer modulo 2^bits are equal, so the narrowed value is the only one possible |
| Numbers.SimpleAtoi | Firestore/core/src/bundle/bundle_serializer.cc:402-409 | `SimpleAtoi<T>`: a spelling is accepted exactly when, once trimmed, it is an optional sign and decimal digits denoting a value in T's range (no minus sign for an unsigned T), and the result is that value |
| Numbers.DecimalRoundTrip | Firestore/core/src/bundle/bundle_serializer.cc:402-409 | every in-range integer's decimal spelling is accepted by `SimpleAtoi<T>` and read back as that integer |
| Reader.ReadString | Firestore/core/src/bundle/bundle_serializer.cc:330-341 | `RequireString`: the member's string when present and a string; otherwise "" and a recorded `MissingOrNotString`; an earlier failure is never replaced |
| Reader.ReadArray | Firestore/core/src/bundle/bundle_serializer.cc:343-354 | `RequireArray`: the member's elements when present and an array; otherwise [] and a recorded failure; elements are parts of the object |
| Reader.ReadChild | Firestore/core/src/bundle/bundle_serializer.cc:361-368 | `Require`: the named member when present, with no failure; otherwise the object itself and a recorded `MissingChild` (an existing node either way) |
| Reader.ReadDouble | Firestore/core/src/bundle/bundle_serializer.cc:370-391 | `RequireDouble`: ok exactly when the member is a JSON number or a string `SimpleAtod` accepts, with each case's value; a missing or unusable member gives 0 and a failure, whatever was recorded before |
| Reader.ReadInt | Firestore/core/src/bundle/bundle_serializer.cc:393-415 | `RequireInt<T>`: the result is in T's range; ok exactly when the member is a JSON integer (narrowed) or a string `SimpleAtoi<T>` accepts, with that value; a missing or unusable member gives 0 and a failure, whatever was recorded before |
| Reader.IntegerSpellings | Firestore/core/src/bundle/bundle_serializer.cc:393-415 | an in-range integer reads the same whether written as a JSON number or as its decimal string |
| Reader.JsonReader.constructor | Firestore/core/src/bundle/bundle_serializer.h:38 | a new reader has recorded no failure |
| Reader.JsonReader.Fail | Firestore/core/src/bundle/bundle_serializer.h:38 | the reader's status becomes `old(status).Fail(e)` |
| Reader.JsonReader.SetStatus | Firestore/core/src/bundle/bundle_serializer.cc:111-113 | the reader's status becomes `old(status).Set(e)` |
| Reader.JsonReader.RequireString | Firestore/core/src/bundle/bundle_serializer.cc:330-341 | returns, and leaves the status, exactly as `ReadString` says |
| Reader.JsonReader.RequireArray | Firestore/core/src/bundle/bundle_serializer.cc:343-354 | returns, and leaves the status, exactly as `ReadArray` says |
| Reader.JsonReader.OptionalBool | Firestore/core/src/bundle/bundle_serializer.cc:356-359 | true exactly when the member is present and is JSON `true`; `static`, so it has no reader to change |
| Reader.JsonReader.Require | Firestore/core/src/bundle/bundle_serializer.cc:361-368 | returns, and leaves the status, exactly as `ReadChild` says |
| Reader.JsonReader.RequireDouble | Firestore/core/src/bundle/bundle_serializer.cc:370-391 | returns, and leaves the status, exactly as `ReadDouble` says |
| Reader.JsonReader.RequireInt | Firestore/core/src/bundle/bundle_serializer.cc:393-415 | returns, and leaves the status, exactly as `ReadInt` says |
| ValueDecoding.Checked | Firestore/core/src/bundle/bundle_serializer.cc:111-115 | a library success passes through unchanged; a failure replaces the status with the library's error and gives the epoch |
| ValueDecoding.TimestampOf | Firestore/core/src/bundle/bundle_serializer.cc:92-116 | a string that does not parse records a failure and gives the epoch; one that parses gives the range-checked time, a range failure replacing the status and giving the epoch; an object gives the range-checked `seconds` (64-bit) and `nanos` (32-bit), ok exactly when the reader was ok and both read cleanly |
| ValueDecoding.GeoPointOf | Firestore/core/src/bundle/bundle_serializer.cc:303-314 | always a geo point; a present coordinate is the double `RequireDouble` reads, an absent one is 0 and no failure; ok exactly when the reader was ok and each present coordinate reads cleanly; a non-object gives (0, 0) without a failure; an earlier failure is never replaced |
| ValueDecoding.BytesOf | Firestore/core/src/bundle/bundle_serializer.cc:316-324 | the unescaped blob when base-64 decoding succeeds; otherwise the null value and a recorded failure |
| ValueDecoding.ReferenceOf | Firestore/core/src/bundle/bundle_serializer.cc:672-680 | on a failed reader, the null value and no call to the wire serializer; otherwise its value, ok exactly when it reports no error |
| ValueDecoding.TypeKeyPresent | Firestore/core/src/bundle/bundle_serializer.cc:600-630 | the type `DecodeValue` selects has its key in the object |
| ValueDecoding.ValueOf | Firestore/core/src/bundle/bundle_serializer.cc:593-598 | `DecodeValue`: a non-object records `ValueNotObject` and gives the null value; a failure stays recorded |
| ValueDecoding.TypedValueOf | Firestore/core/src/bundle/bundle_serializer.cc:600-630 | one branch of `DecodeValue`: a failure stays recorded (the type of the result is `TypedHasType`) |
| ValueDecoding.ArrayValueOf | Firestore/core/src/bundle/bundle_serializer.cc:658-670 | `DecodeArrayValue`: any failure, including one recorded before the call, gives the null value rather than a partial array |
| ValueDecoding.ValuesFrom | Firestore/core/src/bundle/bundle_serializer.cc:660-664 | the element loop: a failure stays recorded |
| ValueDecoding.ValuesFromShape | Firestore/core/src/bundle/bundle_serializer.cc:586-588 | the element loop yields exactly one value per element, after the ones already decoded |
| ValueDecoding.ValuesFromOk | Firestore/core/src/bundle/bundle_serializer.cc:660-664 | the element loop ends ok exactly when it starts ok and every element decodes ok on its own, and then holds those values in order |
| ValueDecoding.ArrayValueShape | Firestore/core/src/bundle/bundle_serializer.cc:658-670 | an array decodes ok exactly when the reader was ok, `values` is an array and each element decodes ok on its own; it then holds exactly those values, in order |
| ValueDecoding.MapValueOf | Firestore/core/src/bundle/bundle_serializer.cc:637-656 | `DecodeMapValue`: without an object `fields` member, the null value and a failure; with one, always a map value |
| ValueDecoding.MembersFrom | Firestore/core/src/bundle/bundle_serializer.cc:649-653 | the member loop: a failure stays recorded |
| ValueDecoding.MembersFromKeys | Firestore/core/src/bundle/bundle_serializer.cc:649-653 | the member loop adds exactly the members' names as keys |
| ValueDecoding.MapValueKeys | Firestore/core/src/bundle/bundle_serializer.cc:637-656 | a decoded map has exactly the names of the `fields` members as its keys |
| ValueDecoding.MembersFromValues | Firestore/core/src/bundle/bundle_serializer.cc:649-653 | the member loop ends ok exactly when it starts ok and every member decodes ok on its own; each name then maps to the value of its last member |
| ValueDecoding.MapValueContents | Firestore/core/src/bundle/bundle_serializer.cc:637-656 | a map with an object `fields` decodes ok exactly when the reader was ok and every member decodes ok on its own; each name then maps to its last member's value |
| ValueDecoding.MapValueByName | Firestore/core/src/bundle/bundle_serializer.cc:637-656 | with distinct member names, a decoded map has exactly those names as keys, each mapped to the value of the member `at` finds |
| ValueDecoding.NameOf | Firestore/core/src/bundle/bundle_serializer.cc:492-506 | `DecodeName`: ok exactly when the name is a string the wire serializer accepts as local; the result is then the path without its first five segments; otherwise the empty path |
| ValueLemmas.KeyBoundsType | Firestore/core/src/bundle/bundle_serializer.cc:600-630 | if a type key is present, some type is selected, with rank no higher than that key's |
| ValueLemmas.TypeOfIsFirst | Firestore/core/src/bundle/bundle_serializer.cc:600-634 | key precedence: the selected type's key is present and no type of lower rank has its key present; no type is selected exactly when no type key is present |
| ValueLemmas.AloneType | Firestore/core/src/bundle/bundle_serializer.cc:600-630 | an object holding only one type key selects that type |
| ValueLemmas.FirstKeyWins | Firestore/core/src/bundle/bundle_serializer.cc:600-630 | an object decodes exactly like the object holding only its first type key's member: the other members are never read |
| ValueLemmas.ValueOfAlone | Firestore/core/src/bundle/bundle_serializer.cc:593-634 | an object with a single type key decodes as that key's branch |
| ValueLemmas.NoTypeKeyFails | Firestore/core/src/bundle/bundle_serializer.cc:631-634 | an object with none of the eleven type keys records `NoValueType` and gives the null value |
| ValueLemmas.TypedHasType | Firestore/core/src/bundle/bundle_serializer.cc:600-630 | a branch that decodes ok produces a value of its own type, except a reference, which the wire serializer builds |
| ValueLemmas.DecodedHasType | Firestore/core/src/bundle/bundle_serializer.cc:593-634 | a value that decodes ok came from an object with a type key, and has that key's type (references excepted) |
| ValueLemmas.ValueRoundTrip | Firestore/core/src/bundle/bundle_serializer.cc:593-634 | decoding the bundle encoding of any null, boolean, 64-bit integer, non-NaN double, string, geo point or array of these gives the value back with no failure |
| ValueLemmas.MemberRoundTrip | Firestore/core/src/bundle/bundle_serializer.cc:600-630 | each branch decodes the member encoding of its type back to the value |
| ValueLemmas.IntegerRoundTrip | Firestore/core/src/bundle/bundle_serializer.cc:609-611 | an `integerValue` written as a decimal string decodes to that integer |
| ValueLemmas.GeoPointRoundTrip | Firestore/core/src/bundle/bundle_serializer.cc:303-314 | a geo point with both coordinates decodes to the same coordinates |
| ValueLemmas.ArrayRoundTrip | Firestore/core/src/bundle/bundle_serializer.cc:658-670 | an encoded array decodes to the same elements in the same order |
| ValueLemmas.ArrayOfDecodedItems | Firestore/core/src/bundle/bundle_serializer.cc:658-670 | an array whose items each decode ok decodes to the array of their values |
| ValueLemmas.ValuesFromAllOk | Firestore/core/src/bundle/bundle_serializer.cc:660-664 | when each item decodes ok, the element loop appends exactly their values, in order, and stays ok |
| QueryDecoding.QueryProblem | Firestore/core/src/bundle/bundle_serializer.cc:122-140 | no problem exactly when the structured query is an object with `from` and without `select` or `offset`; a non-object and `select` are reported first |
| QueryDecoding.Verified | Firestore/core/src/bundle/bundle_serializer.cc:122-140 | `VerifyStructuredQuery` records the first problem and otherwise leaves the status alone |
| QueryDecoding.CollectionSourceOf | Firestore/core/src/bundle/bundle_serializer.cc:145-166 | anything but exactly one selector records `MultipleFrom` and changes nothing; with `allDescendants` the collection id becomes the group, otherwise it is appended to the parent |
| QueryDecoding.FieldReferenceOf | Firestore/core/src/bundle/bundle_serializer.cc:168-183 | a non-object records a failure; ok exactly when `fieldPath` is a string the field-path parser accepts, and the result is then what it returns |
| QueryDecoding.OperatorFromName | Firestore/core/src/bundle/bundle_serializer.cc:185-206 | exactly the ten wire names are recognised, each as its own operator |
| QueryDecoding.OperatorOf | Firestore/core/src/bundle/bundle_serializer.cc:185-212 | a recognised name gives its operator with no failure; any other records `InvalidOperator` and gives `Equal` |
| QueryDecoding.UnaryFromName | Firestore/core/src/bundle/bundle_serializer.cc:231-243 | exactly the four unary names are recognised; the `NOT` forms compare with `NotEqual`, the others with `Equal`; `NULL` forms use the null value and `NAN` forms use NaN |
| QueryDecoding.CreateFieldFilter | Firestore/core/src/bundle/bundle_serializer.cc:544-550 | `FieldFilter::Create` is only reachable while the reader is ok, and builds the filter from its arguments |
| QueryDecoding.UnaryFilterOf | Firestore/core/src/bundle/bundle_serializer.cc:220-247 | any failure gives `InvalidFilter`; ok exactly when the reader was ok, `field` decodes as a field path and `op` names a unary operator; the filter then has that path and the comparison and operand `op` names |
| QueryDecoding.FieldFilterOf | Firestore/core/src/bundle/bundle_serializer.cc:534-551 | any failure gives `InvalidFilter`; ok exactly when the reader was ok, `field` decodes as a field path, `op` names an operator and `value` decodes ok; the filter then has that path, operator and value |
| QueryDecoding.CompositeFrom | Firestore/core/src/bundle/bundle_serializer.cc:562-568 | the child loop: a failing child empties the list; an ok run yields one filter per child |
| QueryDecoding.ChildFilter | Firestore/core/src/bundle/bundle_serializer.cc:562-566 | a composite child decoded on its own needs `fieldFilter`, and is then that field filter decoded from a clean reader |
| QueryDecoding.CompositeFromOk | Firestore/core/src/bundle/bundle_serializer.cc:562-568 | the child loop ends ok exactly when it starts ok and every child decodes ok on its own, and then holds those filters in order |
| QueryDecoding.CompositeFilterOf | Firestore/core/src/bundle/bundle_serializer.cc:553-571 | an `op` other than `AND` fails with no filters; any failure gives no filters; ok exactly when the reader was ok, `op` is `AND`, `filters` is an array and every child decodes ok on its own; the result is those filters, in order |
| QueryDecoding.WhereOf | Firestore/core/src/bundle/bundle_serializer.cc:508-532 | no `where` means no filters and no failure; a non-object fails; otherwise `compositeFilter` beats `fieldFilter`, which beats `unaryFilter`, and none of them fails |
| QueryDecoding.DirectionName | Firestore/core/src/bundle/bundle_serializer.cc:255-258 | `ASCENDING` when no direction is given, otherwise the string read |
| QueryDecoding.OrderByOf | Firestore/core/src/bundle/bundle_serializer.cc:251-267 | one ordering: none, and a failure, exactly when the direction is neither `ASCENDING` nor `DESCENDING` |
| QueryDecoding.OrderByAlone | Firestore/core/src/bundle/bundle_serializer.cc:251-267 | an ordering decoded on its own is ok exactly when `field` decodes as a field path and the direction (`ASCENDING` when absent) is valid; it then has that path, and is descending exactly for `DESCENDING` |
| QueryDecoding.OrderBysFrom | Firestore/core/src/bundle/bundle_serializer.cc:251-269 | the ordering loop: a failure stays recorded; an ok run keeps the orderings already decoded and adds one per item |
| QueryDecoding.OrderBysFromOk | Firestore/core/src/bundle/bundle_serializer.cc:251-269 | the ordering loop ends ok exactly when it starts ok and every ordering decodes ok on its own, and then holds those orderings in order |
| QueryDecoding.OrderBysOf | Firestore/core/src/bundle/bundle_serializer.cc:249-272 | `orderBy` must be an array; ok exactly when the reader was ok and every ordering decodes ok on its own; the result is those orderings (field path and direction), in order |
| QueryDecoding.BoundOf | Firestore/core/src/bundle/bundle_serializer.cc:573-591 | an absent bound is empty with no failure; otherwise `before` is `OptionalBool`, the bound is ok exactly when the reader was ok, `values` is an array and each value decodes ok on its own, and the positions are then those values, in order |
| QueryDecoding.LimitOf | Firestore/core/src/bundle/bundle_serializer.cc:274-285 | absent gives `kNoLimit`; a non-integer fails with `kNoLimit`; an integer is narrowed to 32 bits, unchanged when it fits |
| QueryDecoding.LimitTypeOf | Firestore/core/src/bundle/bundle_serializer.cc:287-300 | `First` exactly when absent or `FIRST`; `Last` exactly for `LAST`; anything else gives `None` and a failure; a recognised value leaves the status as it was |
| QueryDecoding.BundledQueryOf | Firestore/core/src/bundle/bundle_serializer.cc:451-490 | a failure before or during verification gives the default query; the limit fits in 32 bits; the group is never empty; a present start or end bound has at least one position |
| QueryLemmas.CompositeChildWithoutFieldFilter | Firestore/core/src/bundle/bundle_serializer.cc:562-568 | a child without `fieldFilter`, anywhere in the list, leaves no filters and a failure |
| QueryLemmas.CompositeFilterNeedsFieldFilters | Firestore/core/src/bundle/bundle_serializer.cc:553-571 | the same for the whole composite filter |
| QueryLemmas.LimitIsCongruentInt32 | Firestore/core/src/bundle/bundle_serializer.cc:274-285 | an integer `limit` reads as the one 32-bit signed value congruent to it modulo 2^32, and the status is left as it was |
| QueryLemmas.CollectionGroupFromSelector | Firestore/core/src/bundle/bundle_serializer.cc:459-466 | a verified query has a collection group exactly when its single selector has `allDescendants` and a non-empty collection id, and that id is the group |
| QueryLemmas.BundledQueryOkFromParts | Firestore/core/src/bundle/bundle_serializer.cc:451-490 | a bundled query decodes ok exactly when the reader was ok, the structured query passes verification, and the parent, `from`, `where`, `orderBy`, both bounds, `limit` and `limitType` each decode ok on their own |
| QueryLemmas.BundledQueryParts | Firestore/core/src/bundle/bundle_serializer.cc:451-490 | an ok bundled query holds each part as decoded on its own: path and group from the collection source, filters, orderings, a bound only when it has positions, limit and limit type |
| ElementDecoding.BundleMetadataOf | Firestore/core/src/bundle/bundle_serializer.cc:419-434 | unparsable JSON records a failure and gives the default; the version and document count fit in 32 unsigned bits and the byte count in 64; ok exactly when `id` is a string and `version`, `createTime`, `totalDocuments` and `totalBytes` each read cleanly; an ok result holds exactly those values |
| ElementDecoding.NamedQueryOf | Firestore/core/src/bundle/bundle_serializer.cc:436-449 | unparsable JSON records a failure and gives the default; ok exactly when `name` is a string and `bundledQuery` and `readTime` each decode ok; an ok result holds that name, bundled query and read time |
| ElementDecoding.MakeDocumentKey | Firestore/core/src/bundle/bundle_serializer.cc:694-698 | `DocumentKey` is reached only behind the decoder's `ok()` guard, and keeps the path (its own path-shape check is not modelled) |
| ElementDecoding.QueryNamesFrom | Firestore/core/src/bundle/bundle_serializer.cc:705-713 | defined exactly when every remaining entry is a string; then the names follow `acc` in order |
| ElementDecoding.DocumentName | Firestore/core/src/bundle/bundle_serializer.cc:692-693 | ok exactly when `name` is a string the wire serializer accepts as local |
| ElementDecoding.DocumentOfAsWritten | Firestore/core/src/bundle/bundle_serializer.cc:719-744 | `DecodeDocument` as written may only be applied where an object `fields` is present once the name decodes; the key is then the name's path and the data has exactly the `fields` names as keys |
| ElementDecoding.FieldlessDocumentAborts | Firestore/core/src/bundle/bundle_serializer.cc:733-741 | a document holding only an accepted name decodes its name, gets the null value from `DecodeMapValue`, and so falls outside `DocumentOfAsWritten`'s precondition |
| ElementDecoding.DocumentMetadataOf | Firestore/core/src/bundle/bundle_serializer.cc:682-717 | unparsable JSON or a bad name gives the default; a non-string query name fails with the default; ok exactly when the name decodes, `readTime` decodes ok and `queries` is an array of strings; an ok result has the key, read time, `exists` flag and query names in the given order |
| ElementDecoding.DocumentOf | Firestore/core/src/bundle/bundle_serializer.cc:719-744 | corrected `DecodeDocument`: unparsable JSON, a bad name or a missing or non-object `fields` gives the default and a failure; always a synced document; ok exactly when the name, `updateTime` and the map decode ok; an ok result has the name's key, that update time and the decoded fields |
| ElementDecoding.DocumentOfAgrees | Firestore/core/src/bundle/bundle_serializer.cc:719-744 | wherever the code as written does not abort, the corrected decoder gives the same document and status |
| Serializer.DecodeTimestamp | Firestore/core/src/bundle/bundle_serializer.cc:92-116 | returns, and leaves the reader, exactly as `TimestampOf` says |
| Serializer.DecodeSnapshotVersion | Firestore/core/src/bundle/bundle_serializer.cc:118-120 | exactly as `SnapshotVersionOf` says: the timestamp `TimestampOf` decodes, wrapped as a snapshot version, with its status |
| Serializer.VerifyStructuredQuery | Firestore/core/src/bundle/bundle_serializer.cc:122-140 | leaves the reader exactly as `Verified` says |
| Serializer.DecodeCollectionSource | Firestore/core/src/bundle/bundle_serializer.cc:145-166 | updates the parent and group, and the reader, exactly as `CollectionSourceOf` says |
| Serializer.DecodeFieldReference | Firestore/core/src/bundle/bundle_serializer.cc:168-183 | exactly as `FieldReferenceOf` says |
| Serializer.DecodeFieldFilterOperator | Firestore/core/src/bundle/bundle_serializer.cc:185-212 | exactly as `OperatorOf` says |
| Serializer.DecodeUnaryFilter | Firestore/core/src/bundle/bundle_serializer.cc:220-247 | exactly as `UnaryFilterOf` says |
| Serializer.DecodeOrderBy | Firestore/core/src/bundle/bundle_serializer.cc:249-272 | the loop computes exactly `OrderBysOf` |
| Serializer.DecodeLimit | Firestore/core/src/bundle/bundle_serializer.cc:274-285 | exactly as `LimitOf` says |
| Serializer.DecodeLimitType | Firestore/core/src/bundle/bundle_serializer.cc:287-301 | exactly as `LimitTypeOf` says |
| Serializer.DecodeGeoPointValue | Firestore/core/src/bundle/bundle_serializer.cc:303-314 | exactly as `GeoPointOf` says |
| Serializer.DecodeBytesValue | Firestore/core/src/bundle/bundle_serializer.cc:316-324 | exactly as `BytesOf` says |
| Serializer.BundleSerializer.constructor | Firestore/core/src/bundle/bundle_serializer.h:57-59 | the wire serializer is stored once, in a `const` field no method can reassign |
| Serializer.BundleSerializer.DecodeBundleMetadata | Firestore/core/src/bundle/bundle_serializer.cc:419-434 | exactly as `BundleMetadataOf` says; only the reader changes |
| Serializer.BundleSerializer.DecodeNamedQuery | Firestore/core/src/bundle/bundle_serializer.cc:436-449 | exactly as `NamedQueryOf` says; only the reader changes |
| Serializer.BundleSerializer.DecodeBundledQuery | Firestore/core/src/bundle/bundle_serializer.cc:451-490 | exactly as `BundledQueryOf` says |
| Serializer.BundleSerializer.DecodeName | Firestore/core/src/bundle/bundle_serializer.cc:492-506 | exactly as `NameOf` says |
| Serializer.BundleSerializer.DecodeWhere | Firestore/core/src/bundle/bundle_serializer.cc:508-532 | exactly as `WhereOf` says |
| Serializer.BundleSerializer.DecodeFieldFilter | Firestore/core/src/bundle/bundle_serializer.cc:534-551 | exactly as `FieldFilterOf` says |
| Serializer.BundleSerializer.DecodeCompositeFilter | Firestore/core/src/bundle/bundle_serializer.cc:553-571 | the loop computes exactly `CompositeFilterOf` |
| Serializer.BundleSerializer.DecodeBound | Firestore/core/src/bundle/bundle_serializer.cc:573-591 | the loop computes exactly `BoundOf` |
| Serializer.BundleSerializer.DecodeValue | Firestore/core/src/bundle/bundle_serializer.cc:593-635 | exactly as `ValueOf` says |
| Serializer.BundleSerializer.DecodeTypedValue | Firestore/core/src/bundle/bundle_serializer.cc:600-630 | each branch computes exactly `TypedValueOf` for the member under its key |
| Serializer.BundleSerializer.DecodeMapValue | Firestore/core/src/bundle/bundle_serializer.cc:637-656 | the loop computes exactly `MapValueOf` |
| Serializer.BundleSerializer.DecodeArrayValue | Firestore/core/src/bundle/bundle_serializer.cc:658-670 | the loop computes exactly `ArrayValueOf` |
| Serializer.BundleSerializer.DecodeReferenceValue | Firestore/core/src/bundle/bundle_serializer.cc:672-680 | exactly as `ReferenceOf` says |
| Serializer.BundleSerializer.DecodeDocumentMetadata | Firestore/core/src/bundle/bundle_serializer.cc:682-717 | the loop computes exactly `DocumentMetadataOf`; only the reader changes |
| Serializer.BundleSerializer.DecodeDocument | Firestore/core/src/bundle/bundle_serializer.cc:719-744 | exactly as the corrected `DocumentOf` says; only the reader changes |

## Left out

- JSON text parsing (`Parse`, nlohmann::json) is not modelled. Each decoder takes the parsed tree, or the `Discarded` marker for text that did not parse.
- `util::ReadContext` (Firestore/core/src/util/read_context.h) is not part of this model. Its `Fail` is taken to keep the first failure and its `set_status` to replace the status; `ok()` is `IsOk`.
- Outside code is not modelled: absl `ParseTime`, `Base64Unescape` and `SimpleAtod`, `FieldPath::FromServerFormat`, `ResourcePath::FromString`, `TimestampInternal::FromUntrusted*`, and `remote::Serializer`'s `IsLocalResourceName` and `DecodeReference`. They are uninterpreted functions in `Library` and `RpcSerializer`. `PopFirst(5)` aborts on a local name of fewer than five segments; whether `IsLocalResourceName` lets one through cannot be told without it, so the decoders that reach `DecodeName` require five segments explicitly (`NameHasPrefix`, `NamePrefixed`, `ParentHasPrefix`).
- Floating point is not modelled. A double is an opaque token recording whether it came from an integer, a number literal's text, or NaN.
- Error message texts are not modelled. A failure is an `Error` constructor carrying the name or text it reports.
- The order of C++ function arguments is unspecified. `BundleMetadata(...)`, `NamedQuery(...)` and `FromUntrustedSecondsAndNanos(...)` each read several members in one argument list, and the model reads them left to right. This order decides which error is recorded first and which placeholder values a failed decode carries. In `DecodeNamedQuery` it also decides whether `DecodeBundledQuery` runs on a clean reader, and so whether it gets past its `ok()` check to `get_ref`: `NamedQueryDecodable` is stated for the left-to-right order.
- JSON objects from nlohmann have distinct keys, iterated in sorted order. The model's objects are member sequences in iteration order, and nothing requires their names to be distinct. On a repeated name the two readings differ: `At` takes the first member of that name, while `MembersFrom`, inserting members one by one as `DecodeMapValue` does, keeps the last. They agree on objects with distinct names (`DistinctNames`, which `MapValueByName` assumes).
- `JsonTree.Json.JInt` holds any integer. nlohmann stores an integer literal outside [-2^63, 2^64) as a floating-point number, which `is_number_integer()` rejects; `Reader.ReadInt` and `QueryDecoding.LimitOf` narrow such a literal where the C++ would record a failure.
- `Reader.ReadInt` and `Reader.ReadDouble`: absl leaves the output unspecified when `SimpleAtoi`/`SimpleAtod` fail. The model returns 0 there; a failure is always recorded in that case.
- `QueryDecoding.LimitOf`: `get<int32_t>` on a JSON integer outside 32 bits is a `static_cast`. It is modelled as two's-complement wrap-around rather than as a precondition.
- `FieldFilter::Create`, `DocumentKey` and `from_json.get_ref<vector>()` abort on bad input. `FromIsArray` excludes the non-array `from` on which `get_ref` aborts. `CreateFieldFilter` and `MakeDocumentKey` require only the `ok()` guard the decoder places before them. `map_value.object_value()` is the subject of "## Findings".
- ElementDecoding.MakeDocumentKey: `DocumentKey`'s own check that the path is a document path (an even number of segments) is not modelled. The decoder's `ok()` guard does not exclude a collection path: a name such as `projects/p/databases/d/documents/coll` decodes to a one-segment path with the reader still ok, and reaches `DocumentKey`, which the model lets keep that path where the C++ would abort.
- `FieldFilter::Create` is not part of this model beyond being reached while the reader is ok. Its own assertions on the operand (for instance the array an `IN`-style operator expects) are not modelled, so the model builds a filter from any operator and value.
- `GeoPoint`'s constructor is not part of this model. It range-checks latitude and longitude; with floating point left out, the model's geo point takes any two doubles.
- `ValueLemmas.ValueRoundTrip` leaves out some values:
  - timestamps, bytes and references, whose encodings go through absl or the wire serializer;
  - maps, because a map has no canonical member order to encode in;
  - NaN, whose bundle encoding is the string "NaN", read through `SimpleAtod`, which the model leaves uninterpreted;
  - integers outside 64 bits, which are not Firestore integer values.
- `ValueDecoding.TypedValueOf` and `ValueDecoding.ValueOf` state only stickiness and the non-object case in their own contracts. The result's type and the key precedence are stated by `TypedHasType`, `DecodedHasType`, `TypeOfIsFirst` and `FirstKeyWins`.
- `DecodeValue` tests eleven keys in a chain. The model splits it in two: `TypeOf` finds the first key present, and `TypedValueOf` / `DecodeTypedValue` decode that key's branch.
- `Require` returns a reference to an existing node. The model has values rather than references, so it shows that the result equals the child or the parent, not that it is the same object.
- `InvalidFilter()` is a filter built from value-initialised arguments. The model fixes one such filter. Its fields are never read when the reader has failed.
- `immutable::AppendOnlyList`, `immutable::SortedMap`, `Target`, `Document` and `ObjectValue` are modelled as sequences, maps and plain records holding only what the decoder fills in.

## Findings

| source | as written | input that shows it | evidently intended | confidence | as-written member | corrected member |
|---|---|---|---|---|---|---|
| Firestore/core/src/bundle/bundle_serializer.cc:739-743 | `DecodeDocument` calls `map_value.object_value()` on whatever `DecodeMapValue` returned; that is the null value, not a map, when `fields` is missing or not an object | a document `{"name": n}` whose name the wire serializer accepts as local, with no `fields` member (`FieldlessDocumentAborts`) | record the failure `DecodeMapValue` reported and return the default document, as the other malformed inputs do | not executed | ElementDecoding.DocumentOfAsWritten | ElementDecoding.DocumentOf |
