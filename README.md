# Data protection for Entity Framework Core, modelled in Dafny

This project models the core of an Entity Framework Core add-on. The add-on
encrypts chosen entity properties at rest with ASP.NET Core Data Protection.
It can also make them queryable by equality: each such property gets a
companion "ShadowHash" column that holds a keyed hash of the plaintext.

The repository holds two generations of the add-on. The current one is
`Klean.EntityFrameworkCore.DataProtection`; the earlier one is
`EntityFrameworkCore.DataProtection`. This model covers both, one Dafny module
per source file:

| module | what it is |
|---|---|
| `Wrappers` | `Option`, `Result` and `Outcome`, the error paths of the model |
| `Crypto` | the data protector, UTF-8, SHA-256 and HMAC-SHA256 as parameters, and the law `Sound` (unprotect inverts protect) |
| `Hex` | upper-case Base16 (section 8 of RFC 4648), ASCII lower-casing, and a decoder that shows the rendering loses nothing |
| `Hashing`, `LegacyHashing` | `HmacSha256Hash`, keyed by the salt from `EFCORE_DATA_PROTECTION__HASHING_SALT`; the earlier unkeyed `Sha256Hash` |
| `Policy`, `LegacyPolicy` | the `[Encrypt]` attribute, the fluent `IsEncrypted` / `IsEncryptedQueryable` annotations, and how the two combine into encryption metadata |
| `Converters`, `LegacyConverters` | the string and `byte[]` value converters, optionally chained behind an intermediary converter, and the check that the intermediary's provider type fits |
| `EfModel` | the part of an EF Core model the add-on reads and writes: entity types, properties, converters, indexes, and the `ModelBuilder` |
| `Schema`, `LegacySchema` | `UseDataProtection`: the pass over every encrypted property that installs a protecting converter and adds the ShadowHash column |
| `ShadowSync` | the save-changes interceptor that writes each ShadowHash column for added and modified entries |
| `Query`, `LegacyQuery` | `WherePdEquals`: the filter that compares a ShadowHash column with the hash of a value |
| `AddressModel` | the test model's `AddressData` record and its string intermediary converter |

Loops in the source are `while` loops in `Schema.ProtectSelected`,
`ShadowSync.SynchronizeShadowHash` and `ShadowSync.UpdateEntities`. Each is
proved equal to a fold on the old state (`Schema.Augment`, `ShadowSync.SyncAll`,
`ShadowSync.SyncEntries`), and the lemmas beside the folds state what the
source promises about them. The model builder and the DbContext are classes
whose fields those methods update.

## Model

| member | source | states |
|---|---|---|
| `Hex.HexUpper` | src/Klean.EntityFrameworkCore.DataProtection/Extensions/StringExt.cs:22 | `Convert.ToHexString` writes two digits per byte |
| `Hex.ToLowerAscii` | src/Klean.EntityFrameworkCore.DataProtection/Extensions/StringExt.cs:23 | lower-casing keeps the length and maps each character on its own |
| `Hex.HexLower` | src/Klean.EntityFrameworkCore.DataProtection/Extensions/StringExt.cs:21-23 | the digest rendering is two lower-case hex digits per byte |
| `Hex.LowerOfUpperHex` | src/Klean.EntityFrameworkCore.DataProtection/Extensions/StringExt.cs:22-23 | `ToHexString(h).ToLower()` equals the direct lower-case rendering |
| `Hex.HexDecodeRoundTrip` | src/Klean.EntityFrameworkCore.DataProtection/Extensions/StringExt.cs:21-23 | decoding the rendering gives the digest back |
| `Hex.HexLowerInjective` | src/Klean.EntityFrameworkCore.DataProtection/Extensions/StringExt.cs:21-23 | distinct digests render as distinct strings |
| `Hashing.HmacSha256Hash` | src/Klean.EntityFrameworkCore.DataProtection/Extensions/StringExt.cs:13-24 | fails exactly when the salt variable is absent, with that variable's name; otherwise 64 lower-case hex digits that decode to HMAC-SHA256(UTF-8 salt, UTF-8 value) |
| `Hashing.SameHashIffSameDigest` | src/Klean.EntityFrameworkCore.DataProtection/Extensions/StringExt.cs:13-24 | two values hash to the same string iff their keyed digests are equal |
| `LegacyHashing.Sha256Hash` | src/EntityFrameworkCore.DataProtection/Extensions/StringExt.cs:11-17 | never fails; 64 lower-case hex digits that decode to SHA-256 of the UTF-8 value |
| `LegacyHashing.SameHashIffSameDigest` | src/EntityFrameworkCore.DataProtection/Extensions/StringExt.cs:11-17 | equal hash strings iff equal SHA-256 digests |
| `Policy.GetEncryptionMetadata` | src/Klean.EntityFrameworkCore.DataProtection/Extensions/PropertyBuilderExt.cs:57-66 | each flag is set iff the attribute sets it or its annotation is exactly `true`; a fluent `false` never cancels the attribute |
| `Policy.MetadataMonotone` | src/Klean.EntityFrameworkCore.DataProtection/Extensions/PropertyBuilderExt.cs:57-66 | each flag is the attribute's flag or'ed with the annotation, so more sources never clear a flag |
| `Policy.NoSourceNoFlags` | src/Klean.EntityFrameworkCore.DataProtection/Extensions/PropertyBuilderExt.cs:57-66 | no attribute and none of the three annotations exactly `true` (absent, `false` or another value) give all three flags false |
| `Policy.FluentCallsKeepQueryableEncrypted` | src/Klean.EntityFrameworkCore.DataProtection/Extensions/PropertyBuilderExt.cs:25-55 | any sequence of fluent calls never marks a property queryable without also marking it encrypted |
| `Policy.PropertyBuilder.IsEncrypted` | src/Klean.EntityFrameworkCore.DataProtection/Extensions/PropertyBuilderExt.cs:25-29 | sets only the IsEncrypted annotation to true and returns the same builder |
| `Policy.PropertyBuilder.IsEncryptedQueryable` | src/Klean.EntityFrameworkCore.DataProtection/Extensions/PropertyBuilderExt.cs:48-55 | sets the three annotations, so the metadata becomes encrypted, queryable, and unique as asked; returns the same builder |
| `LegacyPolicy.NewLegacyEncryptAttribute` | src/EntityFrameworkCore.DataProtection/EncryptAttribute.cs:35 | the attribute records the queryable flag it is given |
| `LegacyPolicy.GetEncryptionStatus` | src/EntityFrameworkCore.DataProtection/Extensions/PropertyBuilderExtensions.cs:39-47 | each of the two flags is set iff the attribute sets it or its annotation is exactly `true` |
| `LegacyPolicy.AfterIsEncrypted` | src/EntityFrameworkCore.DataProtection/Extensions/PropertyBuilderExtensions.cs:34-35 | the two annotation writes make the status exactly (encrypted, queryable as asked) and change no other annotation |
| `LegacyPolicy.LegacyPropertyBuilder.IsEncrypted` | src/EntityFrameworkCore.DataProtection/Extensions/PropertyBuilderExtensions.cs:29-37 | rejects any type other than string and `byte[]` and leaves the annotations alone; otherwise sets the two annotations |
| `Converters.StringDataProtectionConverter` | src/Klean.EntityFrameworkCore.DataProtection/ValueConverters/StringDataProtectionValueConverter.cs:15-19 | protect on write, unprotect on read; specified by `StringRoundTrip` and `UnprotectFailurePropagates` |
| `Converters.StringDataProtectionConverterVia` | src/Klean.EntityFrameworkCore.DataProtection/Extensions/ModelBuilderExt.cs:70-72 | the string converter chained behind an intermediary; specified by `StringViaRoundTrip` and `UnprotectFailurePropagates` |
| `Converters.ByteArrayDataProtectionConverter` | src/Klean.EntityFrameworkCore.DataProtection/ValueConverters/ByteArrayDataProtectionValueConverter.cs:16-18 | protect on write, unprotect on read, through an optional `byte[]` intermediary; specified by `ByteArrayRoundTrip` and `UnprotectFailurePropagates` |
| `Converters.ByteArrayDataProtectionConverterVia` | src/Klean.EntityFrameworkCore.DataProtection/ValueConverters/ByteArrayDataProtectionValueConverter.cs:16-18 | the same with a typed intermediary; specified by `ByteArrayViaRoundTrip` and `UnprotectFailurePropagates` |
| `Converters.StringRoundTrip` | src/Klean.EntityFrameworkCore.DataProtection/ValueConverters/StringDataProtectionValueConverter.cs:15-19 | reading back a protected string gives the string |
| `Converters.StringViaRoundTrip` | src/Klean.EntityFrameworkCore.DataProtection/ValueConverters/StringDataProtectionValueConverter.cs:15-19 | the same through an intermediary converter that round-trips |
| `Converters.ByteArrayRoundTrip` | src/Klean.EntityFrameworkCore.DataProtection/ValueConverters/ByteArrayDataProtectionValueConverter.cs:16-27 | reading back protected bytes gives the bytes, with or without an intermediary |
| `Converters.ByteArrayViaRoundTrip` | src/Klean.EntityFrameworkCore.DataProtection/ValueConverters/ByteArrayDataProtectionValueConverter.cs:16-27 | the same for a typed intermediary that round-trips |
| `Converters.UnprotectFailurePropagates` | src/Klean.EntityFrameworkCore.DataProtection/ValueConverters/ByteArrayDataProtectionValueConverter.cs:16-27 | a ciphertext the protector rejects makes the read fail; no value is invented |
| `Converters.NewStringConverter` | src/Klean.EntityFrameworkCore.DataProtection/Extensions/ModelBuilderExt.cs:68-73 | the string converter can be built iff there is no intermediary or it provides strings; it then provides strings; otherwise a mismatch naming the intermediary's provider |
| `Converters.NewByteArrayConverter` | src/Klean.EntityFrameworkCore.DataProtection/ValueConverters/ByteArrayDataProtectionValueConverter.cs:16-27 | built iff there is no intermediary or its own class names `byte[]` as provider; an intermediary whose class has no second generic argument fails with an index error, any other provider with a mismatch naming it |
| `LegacyConverters.LegacyByteArrayConverter` | src/EntityFrameworkCore.DataProtection/ValueConverters/ByteArrayDataProtectionValueConverter.cs:15-19 | protect on write, unprotect on read; specified by `LegacyByteArrayRoundTrip` |
| `LegacyConverters.LegacyByteArrayRoundTrip` | src/EntityFrameworkCore.DataProtection/ValueConverters/ByteArrayDataProtectionValueConverter.cs:15-19 | round trip, failure propagation, and the same conversions as the current converter without an intermediary |
| `EfModel.ShadowNameInjective` | src/Klean.EntityFrameworkCore.DataProtection/Extensions/ModelBuilderExt.cs:95 | distinct properties get distinct `…ShadowHash` column names |
| `EfModel.BaseGenericProvider` | src/Klean.EntityFrameworkCore.DataProtection/Extensions/ModelBuilderExt.cs:66 | the base class names the provider type exactly when the converter is not a closed `ValueConverter<TModel, TProvider>` instance |
| `EfModel.OwnGenericProvider` | src/Klean.EntityFrameworkCore.DataProtection/ValueConverters/ByteArrayDataProtectionValueConverter.cs:22-23 | the converter's own class names the provider type exactly when it is a closed `ValueConverter<TModel, TProvider>` instance |
| `Schema.SelectConverter` | src/Klean.EntityFrameworkCore.DataProtection/Extensions/ModelBuilderExt.cs:63-83 | each outcome with its exact condition: the string converter under the library's purpose, wrapping the intermediary, for a string property or a string intermediary; the `byte[]` converter likewise; an index error when the intermediary's class hides its provider; a missing CLR type; a provider mismatch naming both types; an unsupported type when there is no intermediary; nothing installed for an intermediary to another type |
| `Schema.NewShadowProperty` | src/Klean.EntityFrameworkCore.DataProtection/Extensions/ModelBuilderExt.cs:100-108 | the shadow column as intended; specified by `ShadowPropertyAdded` and `AsWrittenCreatesNoIndex` |
| `Schema.NewShadowPropertyAsWritten` | src/Klean.EntityFrameworkCore.DataProtection/Extensions/ModelBuilderExt.cs:100-108 | the shadow column as written, without an index; specified by `AsWrittenCreatesNoIndex` (it is the intended column with the index dropped) |
| `Schema.WithShadowProperty` | src/Klean.EntityFrameworkCore.DataProtection/Extensions/ModelBuilderExt.cs:92-109 | `AddShadowProperty` on one entity type, with the intended index (the cited lines create none, see "## Findings"); specified by `ShadowPropertyAdded`, `ShadowPropertyIdempotent` and `ShadowPropertyKeepsNamesUnique` |
| `Schema.AsWrittenCreatesNoIndex` | src/Klean.EntityFrameworkCore.DataProtection/Extensions/ModelBuilderExt.cs:100-106 | the shadow property as written gets no index whatever the flag; the corrected one gets a unique or a plain index, and the two differ in nothing else |
| `Schema.ShadowPropertyAdded` | src/Klean.EntityFrameworkCore.DataProtection/Extensions/ModelBuilderExt.cs:92-109 | an existing ShadowHash column is left alone; otherwise a string shadow column is appended with the owner's nullability and the index the flag asks for, which is the intended behaviour: the cited lines only read the index and create none |
| `Schema.ShadowPropertyIdempotent` | src/Klean.EntityFrameworkCore.DataProtection/Extensions/ModelBuilderExt.cs:97-98 | adding the shadow column twice is adding it once |
| `Schema.ShadowPropertyKeepsNamesUnique` | src/Klean.EntityFrameworkCore.DataProtection/Extensions/ModelBuilderExt.cs:92-109 | adding the shadow column keeps property names unique |
| `Schema.SelectInEntity` | src/Klean.EntityFrameworkCore.DataProtection/Extensions/ModelBuilderExt.cs:53-59 | selects, in order, exactly the properties of one entity type whose metadata says encrypted |
| `Schema.SelectFrom` | src/Klean.EntityFrameworkCore.DataProtection/Extensions/ModelBuilderExt.cs:53-59 | the same over all entity types, in model order |
| `Schema.SelectionExact` | src/Klean.EntityFrameworkCore.DataProtection/Extensions/ModelBuilderExt.cs:53-59 | a property is selected iff it supports encryption |
| `Schema.RunAll` | src/Klean.EntityFrameworkCore.DataProtection/Extensions/ModelBuilderExt.cs:61-87 | the loop over a selection, stopping at the first exception; specified by `RunOutcome`, `RunStopsAtError`, `RunAddsShadows`, `RunAppendsOnlyShadows` and `RunKeepsNamesUnique` |
| `Schema.Augment` | src/Klean.EntityFrameworkCore.DataProtection/Extensions/ModelBuilderExt.cs:53-87 | the whole pass; specified by the `Augment…` lemmas and implemented by `ProtectSelected` |
| `Schema.RunOutcome` | src/Klean.EntityFrameworkCore.DataProtection/Extensions/ModelBuilderExt.cs:61-87 | the pass succeeds iff every selected property gets a converter; on success each holds its converter; on failure the error is one of theirs |
| `Schema.RunStopsAtError` | src/Klean.EntityFrameworkCore.DataProtection/Extensions/ModelBuilderExt.cs:80-83 | after the first error nothing more changes |
| `Schema.AddShadowProperty` | src/Klean.EntityFrameworkCore.DataProtection/Extensions/ModelBuilderExt.cs:92-109 | updates the builder's one entity type by adding the shadow column, with the intended index rather than none as written |
| `Schema.ProtectProperty` | src/Klean.EntityFrameworkCore.DataProtection/Extensions/ModelBuilderExt.cs:63-86 | one loop iteration: the builder's new state and outcome are one step of the pass |
| `Schema.ProtectSelected` | src/Klean.EntityFrameworkCore.DataProtection/Extensions/ModelBuilderExt.cs:53-87 | the whole loop: the new model and outcome are the pass over the old model |
| `Schema.UseDataProtection` | src/Klean.EntityFrameworkCore.DataProtection/Extensions/ModelBuilderExt.cs:49-90 | returns the builder after the pass, or the pass's error |
| `Schema.AugmentKeepsUnencrypted` | src/Klean.EntityFrameworkCore.DataProtection/Extensions/ModelBuilderExt.cs:53-59 | properties not marked encrypted are unchanged |
| `Schema.AugmentOutcome` | src/Klean.EntityFrameworkCore.DataProtection/Extensions/ModelBuilderExt.cs:61-87 | the pass succeeds iff every encrypted property gets a converter; a failure is one of their errors |
| `Schema.AugmentConverts` | src/Klean.EntityFrameworkCore.DataProtection/Extensions/ModelBuilderExt.cs:66-79 | after a successful pass every encrypted property carries the converter chosen for it |
| `Schema.AugmentAddsShadow` | src/Klean.EntityFrameworkCore.DataProtection/Extensions/ModelBuilderExt.cs:85-86 | after a successful pass every queryable encrypted property has its ShadowHash column |
| `Schema.AugmentAddsOnlyShadows` | src/Klean.EntityFrameworkCore.DataProtection/Extensions/ModelBuilderExt.cs:85-86 | every property the pass appends is the shadow column of a queryable encrypted property of that entity type, with the intended index for that property's uniqueness |
| `Schema.AugmentKeepsNamesUnique` | src/Klean.EntityFrameworkCore.DataProtection/Extensions/ModelBuilderExt.cs:92-109 | the pass keeps property names unique in every entity type |
| `Schema.AugmentProtects` | src/Klean.EntityFrameworkCore.DataProtection/Extensions/ModelBuilderExt.cs:61-87 | after a successful pass every encrypted string property carries the string converter under the library's purpose, every `byte[]` one the `byte[]` converter, each wrapping its former converter; any other keeps its intermediary |
| `LegacySchema.LegacySelectConverter` | src/EntityFrameworkCore.DataProtection/Extensions/ModelBuilderExt.cs:62-69 | succeeds iff the type is string or `byte[]`, with the earlier purpose, no intermediary and the declared type as provider; otherwise fails as an unsupported type |
| `LegacySchema.UseDataProtection` | src/EntityFrameworkCore.DataProtection/Extensions/ModelBuilderExt.cs:48-76 | returns the builder after the earlier pass, or its error |
| `LegacySchema.LegacyOutcome` | src/EntityFrameworkCore.DataProtection/Extensions/ModelBuilderExt.cs:52-74 | the earlier pass succeeds iff every encrypted property is a string or `byte[]`, and then each gets its converter |
| `LegacySchema.IntermediaryOnlyInKlean` | src/EntityFrameworkCore.DataProtection/Extensions/ModelBuilderExt.cs:62-69 | a custom type with a string intermediary is rejected by the earlier pass and accepted by the current one, unless its converter's class hides the provider type from the base-type read |
| `LegacySchema.SameDispatchWithoutIntermediary` | src/EntityFrameworkCore.DataProtection/Extensions/ModelBuilderExt.cs:62-69 | without an intermediary both trees accept the same properties with the same kind of converter, each under its own purpose, and reject the same ones with the same error |
| `ShadowSync.ReadOriginal` | src/Klean.EntityFrameworkCore.DataProtection/Interceptors/ShadowHashSynchronizingSaveChangesInterceptor.cs:60 | the text that is hashed; specified through `SyncProperty` |
| `ShadowSync.FilterHashed` | src/Klean.EntityFrameworkCore.DataProtection/Interceptors/ShadowHashSynchronizingSaveChangesInterceptor.cs:52-56 | keeps exactly the properties that are encrypted and queryable |
| `ShadowSync.FindEntityType` | src/Klean.EntityFrameworkCore.DataProtection/Interceptors/ShadowHashSynchronizingSaveChangesInterceptor.cs:42 | finds an entity type of the entry's CLR type, or none iff there is none |
| `ShadowSync.SyncProperty` | src/Klean.EntityFrameworkCore.DataProtection/Interceptors/ShadowHashSynchronizingSaveChangesInterceptor.cs:60-65 | writes only the property's shadow column, only for a non-blank value with an existing shadow column, and writes the hex of the HMAC; fails iff a write is due and the salt is absent |
| `ShadowSync.SyncAll` | src/Klean.EntityFrameworkCore.DataProtection/Interceptors/ShadowHashSynchronizingSaveChangesInterceptor.cs:58-66 | the per-entity loop, stopping at the first exception; specified by `SyncAllFrame`, `SyncAllWithoutSalt`, `SyncAllWithSalt`, `SyncAllShadow` and `SyncAllStopsAtError` |
| `ShadowSync.SyncAllFrame` | src/Klean.EntityFrameworkCore.DataProtection/Interceptors/ShadowHashSynchronizingSaveChangesInterceptor.cs:58-66 | the per-entity loop touches no column other than the shadow columns |
| `ShadowSync.SyncAllWithoutSalt` | src/Klean.EntityFrameworkCore.DataProtection/Interceptors/ShadowHashSynchronizingSaveChangesInterceptor.cs:58-66 | without a salt the loop changes nothing and fails iff some property needs a hash |
| `ShadowSync.SyncAllWithSalt` | src/Klean.EntityFrameworkCore.DataProtection/Interceptors/ShadowHashSynchronizingSaveChangesInterceptor.cs:58-66 | with a salt the loop always succeeds |
| `ShadowSync.SyncAllShadow` | src/Klean.EntityFrameworkCore.DataProtection/Interceptors/ShadowHashSynchronizingSaveChangesInterceptor.cs:58-66 | each property's shadow column ends as that property's own hash, or unchanged |
| `ShadowSync.SyncEntry` | src/Klean.EntityFrameworkCore.DataProtection/Interceptors/ShadowHashSynchronizingSaveChangesInterceptor.cs:38-47 | an entry keeps its state and CLR type |
| `ShadowSync.SyncEntries` | src/Klean.EntityFrameworkCore.DataProtection/Interceptors/ShadowHashSynchronizingSaveChangesInterceptor.cs:38-47 | the loop over tracked entries; specified by `SyncEntriesStopAtError`, `MissingSaltChangesNothing`, `SaltPresentSucceeds`, `WritesOnlyShadowColumns` and `SyncedShadowHash` |
| `ShadowSync.SyncEntriesStopAtError` | src/Klean.EntityFrameworkCore.DataProtection/Interceptors/ShadowHashSynchronizingSaveChangesInterceptor.cs:46-47 | after the first exception no later entry is touched |
| `ShadowSync.MissingSaltChangesNothing` | src/Klean.EntityFrameworkCore.DataProtection/Interceptors/ShadowHashSynchronizingSaveChangesInterceptor.cs:33-48 | without a salt no entry changes, and the save fails iff some entry needs a hash |
| `ShadowSync.SaltPresentSucceeds` | src/Klean.EntityFrameworkCore.DataProtection/Interceptors/ShadowHashSynchronizingSaveChangesInterceptor.cs:33-48 | with a salt synchronising never fails |
| `ShadowSync.WritesOnlyShadowColumns` | src/Klean.EntityFrameworkCore.DataProtection/Interceptors/ShadowHashSynchronizingSaveChangesInterceptor.cs:33-67 | unchanged or deleted entries, entries of unknown types and every non-shadow column stay as they were |
| `ShadowSync.SyncedShadowHash` | src/Klean.EntityFrameworkCore.DataProtection/Interceptors/ShadowHashSynchronizingSaveChangesInterceptor.cs:33-67 | after a save with a salt, an added or modified entry's shadow column holds the hash of its value when one is due |
| `ShadowSync.SynchronizeShadowHash` | src/Klean.EntityFrameworkCore.DataProtection/Interceptors/ShadowHashSynchronizingSaveChangesInterceptor.cs:50-67 | the loop leaves the entry's values and outcome as the fold over the hashed properties |
| `ShadowSync.UpdateEntities` | src/Klean.EntityFrameworkCore.DataProtection/Interceptors/ShadowHashSynchronizingSaveChangesInterceptor.cs:33-48 | a null context is a no-op; otherwise the entries and outcome are the fold over the tracked entries |
| `ShadowSync.SavingChanges` | src/Klean.EntityFrameworkCore.DataProtection/Interceptors/ShadowHashSynchronizingSaveChangesInterceptor.cs:20-24 | synchronises, then passes the interception result through, or raises the synchronisation error |
| `Query.WhereColumnEquals` | src/Klean.EntityFrameworkCore.DataProtection/Extensions/QueryableExt.cs:69-72 | keeps exactly the rows whose column equals the hash, never adding rows |
| `Query.WhereDistributes` | src/Klean.EntityFrameworkCore.DataProtection/Extensions/QueryableExt.cs:72 | filtering a concatenation is concatenating the filtered parts |
| `Query.WhereIdempotent` | src/Klean.EntityFrameworkCore.DataProtection/Extensions/QueryableExt.cs:72 | filtering twice is filtering once |
| `Query.WherePdEquals` | src/Klean.EntityFrameworkCore.DataProtection/Extensions/QueryableExt.cs:55-73 | fails iff the salt is absent; otherwise keeps exactly the rows whose ShadowHash column equals the value's hash |
| `Query.SavedRowIsFound` | src/Klean.EntityFrameworkCore.DataProtection/Extensions/QueryableExt.cs:55-73 | an entity saved with a salt is found by `WherePdEquals` on its own value under the same salt |
| `Query.MatchIffSameDigest` | src/Klean.EntityFrameworkCore.DataProtection/Extensions/QueryableExt.cs:55-73 | a row matches iff its stored hash is the rendering of the value's keyed digest |
| `LegacyQuery.LegacyWherePdEquals` | src/EntityFrameworkCore.DataProtection/Extensions/QueryableExt.cs:46-64 | keeps exactly the rows whose ShadowHash column equals the unkeyed hash; never fails |
| `LegacyQuery.LegacyMatchIffSameDigest` | src/EntityFrameworkCore.DataProtection/Extensions/QueryableExt.cs:46-72 | a row matches iff its stored hash is the rendering of the value's SHA-256 digest |
| `AddressModel.ToString` | test/Klean.EntityFrameworkCore.DataProtection.Test/Data/AddressData.cs:14 | country, a dash, zip code |
| `AddressModel.Split` | test/Klean.EntityFrameworkCore.DataProtection.Test/Data/AddressData.cs:8 | one more part than separators, and no part holds a separator |
| `AddressModel.JoinSplit` | test/Klean.EntityFrameworkCore.DataProtection.Test/Data/AddressData.cs:8 | joining the parts of a split gives the string back |
| `AddressModel.Parse` | test/Klean.EntityFrameworkCore.DataProtection.Test/Data/AddressData.cs:8-12 | succeeds iff there is exactly one dash; otherwise a format error "Invalid format" |
| `AddressModel.ParseToString` | test/Klean.EntityFrameworkCore.DataProtection.Test/Data/AddressData.cs:8-14 | a dash-free address survives printing and parsing |
| `AddressModel.ToStringParse` | test/Klean.EntityFrameworkCore.DataProtection.Test/Data/AddressData.cs:8-14 | a string that parses prints back to itself |
| `AddressModel.DashInFieldIsRejected` | test/Klean.EntityFrameworkCore.DataProtection.Test/Data/AddressData.cs:8-14 | an address with a dash in a field does not survive the round trip |
| `AddressModel.AddressRoundTrip` | test/Klean.EntityFrameworkCore.DataProtection.Test/Data/TestDbContext.cs:25-33 | the address, protected through its string intermediary, reads back as itself |
| `AddressModel.AddressProperty` | test/Klean.EntityFrameworkCore.DataProtection.Test/Data/TestDbContext.cs:26-28 | the test `Address` property: encrypted, not queryable, with a string intermediary |
| `AddressModel.AddressIntermediaryShapes` | test/Klean.EntityFrameworkCore.DataProtection.Test/Data/TestDbContext.cs:26-33 | the test's non-generic intermediary gets the string converter; the same conversion as a closed `ValueConverter<AddressData, string>` stops the pass with an index error |

## Left out

- Cryptography is a parameter. The data protector, UTF-8 encoding, SHA-256 and HMAC-SHA256 are functions passed in. The only law assumed is that unprotecting a protected value gives it back.
- `IDataProtectionProvider.CreateProtector` is recorded only as the purpose string on the converter tags. Key management and the Data Protection services are not part of this model.
- `Environment.GetEnvironmentVariable` is a salt parameter. The model reads the salt once per save or query, assuming the environment does not change during one save.
- `string.ToLower` is culture-sensitive in .NET. It is applied only to hex digits here, so ASCII lower-casing is exact.
- Reflection on converter types is reduced to two class shapes: a closed `ValueConverter<TModel, TProvider>` instance, as `HasConversion(to, from)` builds, and a non-generic subclass of it. Both index errors are modelled: the pass's `GetType().BaseType?.GetGenericArguments()[1]` fails on the first shape, for every property and before any type test; the `byte[]` converter's `GetType().GetGenericArguments()[1]` fails on the second. Generic subclasses of other arities are not modelled.
- The generic converters that `ModelBuilderExt` instantiates with `MakeGenericType` are not part of this model. `Converters.NewStringConverter` assumes the string converter checks its intermediary's provider type as the `byte[]` converter does, read so that a converter class of either shape is accepted; the test model's non-generic `AddressToStringIntermediaryConverter` is used that way.
- `Activator.CreateInstance` wraps a constructor exception in a `TargetInvocationException`. The model reports the inner error.
- The earlier `StringDataProtectionValueConverter` is not part of this model; only the earlier `byte[]` converter is.
- The earlier `ModelBuilderExt` reads `GetEncryptionMetadata()` and `IsUniqueIndex`, which its own `PropertyBuilderExtensions` does not define. `LegacySchema` therefore reuses the current three-flag metadata. `LegacyPolicy.GetEncryptionStatus` models the earlier two-flag status separately.
- Errors carry more than the exceptions do. The earlier `IsEncrypted` throws an `InvalidOperationException` with a fixed message; its model returns `InvalidType` with the rejected type. The current pass throws an `InvalidOperationException` with a fixed message, and the earlier pass throws the static `PropertyBuilderExt.InvalidTypeException`; both are modelled as `UnsupportedPropertyType` carrying the property's name, which the exceptions do not.
- A property's CLR type of `null` makes `MakeGenericType` throw an `ArgumentNullException`. When a converter is chosen this is reported as `MissingClrType`; when none is, the pass fails as for an unsupported type.
- `SavingChangesAsync` does the same as `SavingChanges`. Asynchrony and cancellation are not modelled.
- The interceptor's singleton `Instance`, the service registration and the options-builder extensions are not part of this model.
- LINQ expression building and SQL translation are not modelled: `WherePdEquals` is a filter over rows held as maps. A row without the shadow column never matches; EF Core would reject that query when translating it.
- `FindEntityType` returns the first entity type with the entry's CLR type name. Shared-type and owned entity types are not modelled.
- The change tracker is a sequence of entry values held by the DbContext. Entity identity and aliasing between entries are not modelled. `PropertyInfo.GetValue(entity)` reads the entry's current value of the property.
- `ToString()` of an arbitrary CLR value is given as data (`OtherValue`). A `byte[]` prints as `System.Byte[]`.
- `AddressData` fields that are `null` are not modelled: both fields are strings.
- Schema.WithShadowProperty, Schema.AddShadowProperty, Schema.ShadowPropertyAdded, Schema.AugmentAddsOnlyShadows: these build the shadow column with the intended unique or plain index, where the source (ModelBuilderExt.cs:100-106 in the current tree, :86-92 in the earlier one) creates no index. The pass members that use them inherit this: `Schema.Augment`, `Schema.ProtectSelected`, `Schema.UseDataProtection` and `LegacySchema.UseDataProtection`. The written behaviour is `Schema.NewShadowPropertyAsWritten`, and `Schema.AsWrittenCreatesNoIndex` proves it is the intended column with the index dropped; see "## Findings".
- ShadowSync.SyncedShadowHash: requires unique property names and that no hashed property is named like another's shadow column. Without these, a later write can overwrite an earlier one; `ShadowSync.SyncAll` still models that exactly.

## Findings

| source | as written | input that shows it | evidently intended | confidence | as-written member | corrected member |
|---|---|---|---|---|---|---|
| src/Klean.EntityFrameworkCore.DataProtection/Extensions/ModelBuilderExt.cs:100-106 | the new shadow property calls `IsShadowProperty()`, `IsUniqueIndex()` and `IsIndex()`, which only read whether an index exists | any property marked queryable with a unique index, e.g. `[Encrypt(isQueryable: true, isUnique: true)]`: the shadow column gets no index (`Schema.AsWrittenCreatesNoIndex`) | create a unique index when asked, and a plain index otherwise | medium, not executed | `Schema.NewShadowPropertyAsWritten` | `Schema.NewShadowProperty` |
| src/EntityFrameworkCore.DataProtection/Extensions/ModelBuilderExt.cs:86-92 | the same read-only calls in the earlier tree | any queryable encrypted property: the shadow column gets no index (`Schema.AsWrittenCreatesNoIndex`) | create a unique or a plain index on the shadow column | medium, not executed | `Schema.NewShadowPropertyAsWritten` | `Schema.NewShadowProperty` |
