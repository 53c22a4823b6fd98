/**
 * `ModelBuilderExt.UseDataProtection` of the earlier
 * `EntityFrameworkCore.DataProtection` tree. The selection, the loop and
 * `AddShadowProperty` are those of the Klean tree; the converter dispatch
 * differs: only the declared CLR type counts, an existing converter is
 * replaced rather than wrapped, and every other type is an error.
 */
module LegacySchema {
  import opened Wrappers
  import opened Policy
  import opened EfModel
  import Schema

  const ProtectorPurpose: string := "EntityFrameworkCore.DataProtection"

  /** The converter dispatch of the earlier tree. */
  function LegacySelectConverter(p: Property): (r: Result<Option<ConverterTag>, SchemaError>)
    ensures r.Success? <==> (PropertyInfoType(p) == Some(StringType) || PropertyInfoType(p) == Some(ByteArrayType))
    ensures r.Success? ==>
      (r.value.Some? && !r.value.value.HostConverter?
       && r.value.value.purpose == ProtectorPurpose && r.value.value.inner.None?
       && Some(ProviderType(r.value.value)) == PropertyInfoType(p))
    ensures r.Failure? ==> r.error == UnsupportedPropertyType(p.name)
  {
    var propertyType := PropertyInfoType(p);
    if propertyType == Some(StringType) then Success(Some(StringProtection(ProtectorPurpose, None)))
    else if propertyType == Some(ByteArrayType) then Success(Some(ByteArrayProtection(ProtectorPurpose, None)))
    else Failure(UnsupportedPropertyType(p.name))
  }

  /**
   * `UseDataProtection` of the earlier tree: returns the same builder, or
   * the error of the first encrypted property that is neither string nor
   * byte[].
   */
  method UseDataProtection(builder: ModelBuilder) returns (r: Result<ModelBuilder, SchemaError>)
    modifies builder
    ensures var (ets, o) := Schema.Augment(old(builder.entityTypes), LegacySelectConverter);
      && builder.entityTypes == ets
      && (o.Pass? ==> r == Success(builder))
      && (o.Fail? ==> r == Failure(o.error))
  {
    var outcome := Schema.ProtectSelected(builder, LegacySelectConverter);
    if outcome.Fail? {
      return Failure(outcome.error);
    }
    return Success(builder);
  }

  /**
   * The earlier pass succeeds exactly when every encrypted property is
   * declared string or byte[]; then each carries a protecting converter of
   * its own type that replaced whatever converter it had.
   */
  lemma LegacyOutcome(ets: seq<EntityType>)
    ensures var (r, o) := Schema.Augment(ets, LegacySelectConverter);
      && (o.Pass? <==> forall i, j :: Schema.EncryptedAt(ets, i, j) ==>
            PropertyInfoType(ets[i].properties[j]) in {Some(StringType), Some(ByteArrayType)})
      && (o.Pass? ==> forall i, j :: Schema.EncryptedAt(ets, i, j) ==>
            && i < |r| && j < |r[i].properties|
            && r[i].properties[j] == ets[i].properties[j].(converter := LegacySelectConverter(ets[i].properties[j]).value))
  {
    Schema.AugmentOutcome(ets, LegacySelectConverter);
    var (r, o) := Schema.Augment(ets, LegacySelectConverter);
    if o.Pass? {
      forall i, j | Schema.EncryptedAt(ets, i, j)
        ensures && i < |r| && j < |r[i].properties|
                && r[i].properties[j] == ets[i].properties[j].(converter := LegacySelectConverter(ets[i].properties[j]).value)
      {
        Schema.AugmentConverts(ets, LegacySelectConverter, i, j);
      }
    }
  }

  /**
   * Where the two trees part: a property of another type whose converter
   * already maps it to string is protected by the Klean tree (through the
   * intermediary) and rejected by the earlier one. The Klean tree still
   * fails when the intermediary's class hides its provider type from the
   * base-type read.
   */
  lemma IntermediaryOnlyInKlean(p: Property)
    requires PropertyInfoType(p).Some? && PropertyInfoType(p).value.OtherType?
    requires p.converter.Some? && ProviderType(p.converter.value) == StringType
    ensures LegacySelectConverter(p) == Failure(UnsupportedPropertyType(p.name))
    ensures Schema.SelectConverter(p) ==
      if BaseGenericProvider(p.converter.value).Some? then Success(Some(StringProtection(Schema.ProtectorPurpose, p.converter)))
      else Failure(GenericArgumentOutOfRange)
  {
  }

  /**
   * Without an intermediary the two dispatches agree: the same properties
   * are accepted and get the same kind of converter, under each tree's own
   * protector purpose, and the same properties are rejected with the same
   * error.
   */
  lemma SameDispatchWithoutIntermediary(p: Property)
    requires p.converter.None?
    ensures LegacySelectConverter(p) == Success(Some(StringProtection(ProtectorPurpose, None)))
      <==> Schema.SelectConverter(p) == Success(Some(StringProtection(Schema.ProtectorPurpose, None)))
    ensures LegacySelectConverter(p) == Success(Some(ByteArrayProtection(ProtectorPurpose, None)))
      <==> Schema.SelectConverter(p) == Success(Some(ByteArrayProtection(Schema.ProtectorPurpose, None)))
    ensures LegacySelectConverter(p).Failure? <==> Schema.SelectConverter(p).Failure?
    ensures LegacySelectConverter(p).Failure? ==> Schema.SelectConverter(p) == LegacySelectConverter(p)
  {
  }
}
