/**
 * The earlier tree's policy: a one-flag `[Encrypt(isQueryable = false)]`
 * attribute, an `IsEncrypted(isQueryable = false)` that checks the property
 * type before writing, and the two-flag `GetEncryptionStatus`.
 */
module LegacyPolicy {
  import opened Wrappers
  import opened Policy
  import opened EfModel

  /** `[Encrypt(isQueryable = false)]`: one get-only flag; no uniqueness dimension. */
  datatype LegacyEncryptAttribute = LegacyEncryptAttribute(isQueryable: bool)

  /** The attribute's constructor, with its default argument. */
  function NewLegacyEncryptAttribute(isQueryable: bool := false): (a: LegacyEncryptAttribute)
    ensures a.isQueryable == isQueryable
  {
    LegacyEncryptAttribute(isQueryable)
  }

  const LegacyIsEncryptedAnnotationName: string := "EntityFrameworkCore.DataProtection.IsEncrypted"
  const LegacyIsQueryableAnnotationName: string := "EntityFrameworkCore.DataProtection.IsQueryable"

  datatype EncryptionStatus = EncryptionStatus(supportsEncryption: bool, supportsQuerying: bool)

  /**
   * Each flag is set when the attribute sets it or its annotation is
   * exactly `true`, and only then.
   */
  function GetEncryptionStatus(attribute: Option<LegacyEncryptAttribute>, annotations: Annotations): (s: EncryptionStatus)
    ensures attribute.Some? ==> s.supportsEncryption
    ensures attribute.Some? && attribute.value.isQueryable ==> s.supportsQuerying
    ensures AnnotationIsTrue(annotations, LegacyIsEncryptedAnnotationName) ==> s.supportsEncryption
    ensures AnnotationIsTrue(annotations, LegacyIsQueryableAnnotationName) ==> s.supportsQuerying
    ensures s.supportsEncryption ==> attribute.Some? || AnnotationIsTrue(annotations, LegacyIsEncryptedAnnotationName)
    ensures s.supportsQuerying ==>
      (attribute.Some? && attribute.value.isQueryable) || AnnotationIsTrue(annotations, LegacyIsQueryableAnnotationName)
  {
    EncryptionStatus(
      attribute.Some? || AnnotationIsTrue(annotations, LegacyIsEncryptedAnnotationName),
      (attribute.Some? && attribute.value.isQueryable) || AnnotationIsTrue(annotations, LegacyIsQueryableAnnotationName))
  }

  /** The InvalidOperationException for a type other than string or byte[]. */
  datatype PolicyError = InvalidType(clrType: ClrType)

  predicate IsSupportedType(t: ClrType)
  {
    t == StringType || t == ByteArrayType
  }

  /**
   * The annotation writes of a successful `IsEncrypted(isQueryable)`: without
   * an attribute the status is then exactly `(true, isQueryable)`, and no
   * other annotation changes.
   */
  function AfterIsEncrypted(annotations: Annotations, isQueryable: bool): (r: Annotations)
    ensures GetEncryptionStatus(None, r) == EncryptionStatus(true, isQueryable)
    ensures forall name :: name != LegacyIsEncryptedAnnotationName && name != LegacyIsQueryableAnnotationName ==>
      (name in r <==> name in annotations) && (name in annotations ==> r[name] == annotations[name])
  {
    annotations[LegacyIsEncryptedAnnotationName := BoolAnnotation(true)]
               [LegacyIsQueryableAnnotationName := BoolAnnotation(isQueryable)]
  }

  /** The fluent builder of one property of declared type `propertyType`. */
  class LegacyPropertyBuilder {
    const propertyType: ClrType
    var annotations: Annotations

    constructor (propertyType: ClrType, annotations: Annotations)
      ensures this.propertyType == propertyType && this.annotations == annotations
    {
      this.propertyType := propertyType;
      this.annotations := annotations;
    }

    /**
     * Rejects a type other than string or byte[] before writing anything;
     * otherwise sets IsEncrypted to true and IsQueryable to `isQueryable`.
     */
    method IsEncrypted(isQueryable: bool := false) returns (r: Result<LegacyPropertyBuilder, PolicyError>)
      modifies this
      ensures !IsSupportedType(propertyType) ==> r == Failure(InvalidType(propertyType)) && annotations == old(annotations)
      ensures IsSupportedType(propertyType) ==> r == Success(this) && annotations == AfterIsEncrypted(old(annotations), isQueryable)
    {
      if propertyType != StringType && propertyType != ByteArrayType {
        return Failure(InvalidType(propertyType));
      }
      annotations := annotations[LegacyIsEncryptedAnnotationName := BoolAnnotation(true)];
      annotations := annotations[LegacyIsQueryableAnnotationName := BoolAnnotation(isQueryable)];
      return Success(this);
    }
  }
}
