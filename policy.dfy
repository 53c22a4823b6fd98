/**
 * Encryption policy of a property: the `[Encrypt]` attribute, the fluent
 * `IsEncrypted` / `IsEncryptedQueryable` annotations, and the merge of the
 * two in `GetEncryptionMetadata` (Klean `PropertyBuilderExt` and
 * `EncryptAttribute`).
 */
module Policy {
  import opened Wrappers

  /**
   * `[Encrypt(isQueryable, isUnique)]`: both flags are required constructor
   * arguments and init-only. The attribute has no encryption flag: being
   * present is what marks the property encrypted.
   */
  datatype EncryptAttribute = EncryptAttribute(isQueryable: bool, isUnique: bool)

  /** An annotation value: a boxed bool, or any other object (including null). */
  datatype AnnotationValue = BoolAnnotation(flag: bool) | OtherAnnotation

  type Annotations = map<string, AnnotationValue>

  const IsEncryptedAnnotationName: string := "Klean.EntityFrameworkCore.DataProtection.IsEncrypted"
  const IsQueryableAnnotationName: string := "Klean.EntityFrameworkCore.DataProtection.IsQueryable"
  const IsUniqueIndexAnnotationName: string := "Klean.EntityFrameworkCore.DataProtection.IsUniqueIndex"

  /** `FindAnnotation(name)?.Value is true`. */
  predicate AnnotationIsTrue(annotations: Annotations, name: string)
  {
    name in annotations && annotations[name] == BoolAnnotation(true)
  }

  datatype EncryptionMetadata = EncryptionMetadata(supportsEncryption: bool, supportsQuerying: bool, isUniqueIndex: bool)

  /**
   * Each flag is set when the attribute sets it or its annotation is
   * exactly `true`, and only then. A fluent `false` never cancels what the
   * attribute turns on.
   */
  function GetEncryptionMetadata(attribute: Option<EncryptAttribute>, annotations: Annotations): (m: EncryptionMetadata)
    ensures attribute.Some? ==> m.supportsEncryption
    ensures attribute.Some? && attribute.value.isQueryable ==> m.supportsQuerying
    ensures attribute.Some? && attribute.value.isUnique ==> m.isUniqueIndex
    ensures AnnotationIsTrue(annotations, IsEncryptedAnnotationName) ==> m.supportsEncryption
    ensures AnnotationIsTrue(annotations, IsQueryableAnnotationName) ==> m.supportsQuerying
    ensures AnnotationIsTrue(annotations, IsUniqueIndexAnnotationName) ==> m.isUniqueIndex
    ensures m.supportsEncryption ==> attribute.Some? || AnnotationIsTrue(annotations, IsEncryptedAnnotationName)
    ensures m.supportsQuerying ==>
      (attribute.Some? && attribute.value.isQueryable) || AnnotationIsTrue(annotations, IsQueryableAnnotationName)
    ensures m.isUniqueIndex ==>
      (attribute.Some? && attribute.value.isUnique) || AnnotationIsTrue(annotations, IsUniqueIndexAnnotationName)
  {
    EncryptionMetadata(
      attribute.Some? || AnnotationIsTrue(annotations, IsEncryptedAnnotationName),
      (attribute.Some? && attribute.value.isQueryable) || AnnotationIsTrue(annotations, IsQueryableAnnotationName),
      (attribute.Some? && attribute.value.isUnique) || AnnotationIsTrue(annotations, IsUniqueIndexAnnotationName))
  }

  /** `m1` is nowhere above `m2`, flag by flag. */
  predicate AtMost(m1: EncryptionMetadata, m2: EncryptionMetadata)
  {
    && (m1.supportsEncryption ==> m2.supportsEncryption)
    && (m1.supportsQuerying ==> m2.supportsQuerying)
    && (m1.isUniqueIndex ==> m2.isUniqueIndex)
  }

  /** Every annotation that is exactly `true` in `a1` is still `true` in `a2`. */
  ghost predicate TrueAnnotationsKept(a1: Annotations, a2: Annotations)
  {
    forall name :: AnnotationIsTrue(a1, name) ==> AnnotationIsTrue(a2, name)
  }

  /** `att2` sets every flag `att1` sets (an absent attribute sets none). */
  predicate AttributeAtMost(att1: Option<EncryptAttribute>, att2: Option<EncryptAttribute>)
  {
    att1.Some? ==> att2.Some? && (att1.value.isQueryable ==> att2.value.isQueryable) && (att1.value.isUnique ==> att2.value.isUnique)
  }

  /**
   * The merge is monotone: adding a source, or a `true` in a source, never
   * lowers a flag.
   */
  lemma MetadataMonotone(att1: Option<EncryptAttribute>, a1: Annotations, att2: Option<EncryptAttribute>, a2: Annotations)
    requires AttributeAtMost(att1, att2) && TrueAnnotationsKept(a1, a2)
    ensures AtMost(GetEncryptionMetadata(att1, a1), GetEncryptionMetadata(att2, a2))
  {
    assert AnnotationIsTrue(a1, IsEncryptedAnnotationName) ==> AnnotationIsTrue(a2, IsEncryptedAnnotationName);
    assert AnnotationIsTrue(a1, IsQueryableAnnotationName) ==> AnnotationIsTrue(a2, IsQueryableAnnotationName);
    assert AnnotationIsTrue(a1, IsUniqueIndexAnnotationName) ==> AnnotationIsTrue(a2, IsUniqueIndexAnnotationName);
  }

  /**
   * With no attribute and none of the three annotations exactly `true`
   * (absent, `false`, or some other value), every flag is off.
   */
  lemma NoSourceNoFlags(annotations: Annotations)
    requires !AnnotationIsTrue(annotations, IsEncryptedAnnotationName)
    requires !AnnotationIsTrue(annotations, IsQueryableAnnotationName)
    requires !AnnotationIsTrue(annotations, IsUniqueIndexAnnotationName)
    ensures GetEncryptionMetadata(None, annotations) == EncryptionMetadata(false, false, false)
  {
  }

  /** The two fluent calls of `PropertyBuilderExt`, as data. */
  datatype FluentCall = MarkEncrypted | MarkEncryptedQueryable(isUnique: bool)

  /** The annotation writes one fluent call performs. */
  function ApplyFluent(annotations: Annotations, call: FluentCall): Annotations
  {
    match call
    case MarkEncrypted =>
      annotations[IsEncryptedAnnotationName := BoolAnnotation(true)]
    case MarkEncryptedQueryable(isUnique) =>
      annotations[IsEncryptedAnnotationName := BoolAnnotation(true)]
                 [IsQueryableAnnotationName := BoolAnnotation(true)]
                 [IsUniqueIndexAnnotationName := BoolAnnotation(isUnique)]
  }

  function ApplyFluentCalls(annotations: Annotations, calls: seq<FluentCall>): Annotations
    decreases |calls|
  {
    if calls == [] then annotations
    else ApplyFluentCalls(ApplyFluent(annotations, calls[0]), calls[1..])
  }

  /** An annotation store in which "queryable" is never set without "encrypted". */
  predicate QueryableOnlyIfEncrypted(annotations: Annotations)
  {
    AnnotationIsTrue(annotations, IsQueryableAnnotationName) ==> AnnotationIsTrue(annotations, IsEncryptedAnnotationName)
  }

  /**
   * When annotations come only from the two fluent calls (and the attribute),
   * a queryable property is always an encrypted one.
   */
  lemma {:induction false} FluentCallsKeepQueryableEncrypted(attribute: Option<EncryptAttribute>, annotations: Annotations, calls: seq<FluentCall>)
    requires QueryableOnlyIfEncrypted(annotations)
    ensures QueryableOnlyIfEncrypted(ApplyFluentCalls(annotations, calls))
    ensures var m := GetEncryptionMetadata(attribute, ApplyFluentCalls(annotations, calls));
      m.supportsQuerying ==> m.supportsEncryption
    decreases |calls|
  {
    if calls != [] {
      var next := ApplyFluent(annotations, calls[0]);
      assert QueryableOnlyIfEncrypted(next);
      FluentCallsKeepQueryableEncrypted(attribute, next, calls[1..]);
    }
  }

  /**
   * The fluent builder of one property: only its annotation store is
   * modelled. Each call returns the same builder for chaining.
   */
  class PropertyBuilder {
    var annotations: Annotations

    constructor (annotations: Annotations)
      ensures this.annotations == annotations
    {
      this.annotations := annotations;
    }

    /** Writes only the IsEncrypted annotation. There is no type check, whatever the doc comment says. */
    method IsEncrypted() returns (builder: PropertyBuilder)
      modifies this
      ensures builder == this
      ensures annotations == ApplyFluent(old(annotations), MarkEncrypted)
      ensures annotations == old(annotations)[IsEncryptedAnnotationName := BoolAnnotation(true)]
    {
      annotations := annotations[IsEncryptedAnnotationName := BoolAnnotation(true)];
      builder := this;
    }

    /** Writes all three annotations; `isUnique` defaults to true. */
    method IsEncryptedQueryable(isUnique: bool := true) returns (builder: PropertyBuilder)
      modifies this
      ensures builder == this
      ensures annotations == ApplyFluent(old(annotations), MarkEncryptedQueryable(isUnique))
      ensures GetEncryptionMetadata(None, annotations) == EncryptionMetadata(true, true, isUnique)
    {
      annotations := annotations[IsEncryptedAnnotationName := BoolAnnotation(true)];
      annotations := annotations[IsQueryableAnnotationName := BoolAnnotation(true)];
      annotations := annotations[IsUniqueIndexAnnotationName := BoolAnnotation(isUnique)];
      builder := this;
    }
  }
}
