/**
 * The slice of Entity Framework Core's mutable model the library touches:
 * entity types, their properties (CLR-backed or shadow), the value converter
 * installed on each, nullability, and the index the library asks for.
 * Reflection is replaced by explicit type tags.
 */
module EfModel {
  import opened Wrappers
  import opened Policy

  /** The CLR types the library distinguishes. */
  datatype ClrType = StringType | ByteArrayType | OtherType(name: string)

  /** The index on a property. */
  datatype IndexKind = NoIndex | PlainIndex | UniqueIndex

  /**
   * How a host converter's class is declared, which decides what reflection
   * sees of it. `HasConversion(to, from)` builds an instance of the closed
   * generic `ValueConverter<TModel, TProvider>` itself: its own generic
   * arguments are the two types, and its base class is the non-generic
   * `ValueConverter`. A converter class written as a non-generic subclass of
   * `ValueConverter<TModel, TProvider>` is the other way round.
   */
  datatype ConverterClass = ClosedGeneric | DerivedNonGeneric

  /**
   * A value converter as the model builder sees it: a converter the host
   * configured (with the provider type it converts to and the shape of its
   * class), or one of the library's protecting converters, each wrapping the
   * converter that was installed before it, if any.
   */
  datatype ConverterTag =
    | HostConverter(name: string, providerType: ClrType, shape: ConverterClass)
    | StringProtection(purpose: string, inner: Option<ConverterTag>)
    | ByteArrayProtection(purpose: string, inner: Option<ConverterTag>)

  /**
   * The configuration errors raised while the model is built: the
   * InvalidOperationException for an unsupported property type, the one a
   * protecting converter's constructor throws for an intermediary of the
   * wrong provider type, the failure of `MakeGenericType` on a property
   * with no CLR type, and the IndexOutOfRangeException of reading a second
   * generic argument that a converter's class does not have.
   */
  datatype SchemaError =
    | UnsupportedPropertyType(property: string)
    | IntermediaryTargetMismatch(expected: ClrType, actual: ClrType)
    | MissingClrType(property: string)
    | GenericArgumentOutOfRange

  /** The second generic argument of the converter's `ValueConverter<TModel, TProvider>` base. */
  function ProviderType(c: ConverterTag): ClrType
  {
    match c
    case HostConverter(_, t, _) => t
    case StringProtection(_, _) => StringType
    case ByteArrayProtection(_, _) => ByteArrayType
  }

  /**
   * `c.GetType().BaseType?.GetGenericArguments()[1]`, or `None` where that
   * index is out of range. The protecting converters the model builder
   * installs are generic subclasses of `ValueConverter<T, TProvider>`, so
   * their base type carries the provider type.
   */
  function BaseGenericProvider(c: ConverterTag): (r: Option<ClrType>)
    ensures r.Some? ==> r.value == ProviderType(c)
    ensures r.None? <==> c.HostConverter? && c.shape == ClosedGeneric
  {
    match c
    case HostConverter(_, t, shape) =>
      (match shape
       case DerivedNonGeneric => Some(t)
       case ClosedGeneric => None)
    case _ => Some(ProviderType(c))
  }

  /**
   * `c.GetType().GetGenericArguments()[1]`, or `None` where that index is out
   * of range: only a closed `ValueConverter<TModel, TProvider>` has a second
   * generic argument of its own (a protecting converter `Conv<T>` has one).
   */
  function OwnGenericProvider(c: ConverterTag): (r: Option<ClrType>)
    ensures r.Some? ==> r.value == ProviderType(c)
    ensures r.Some? <==> c.HostConverter? && c.shape == ClosedGeneric
  {
    match c
    case HostConverter(_, t, shape) =>
      (match shape
       case ClosedGeneric => Some(t)
       case DerivedNonGeneric => None)
    case _ => None
  }

  /**
   * A property of an entity type. `hasClrMember` is false for a shadow
   * property, which has no `PropertyInfo`: then neither the attribute nor
   * the CLR type can be read by reflection.
   */
  datatype Property = Property(
    name: string,
    clrType: ClrType,
    hasClrMember: bool,
    attribute: Option<EncryptAttribute>,
    annotations: Annotations,
    converter: Option<ConverterTag>,
    isNullable: bool,
    index: IndexKind)

  datatype EntityType = EntityType(clrTypeName: string, properties: seq<Property>)

  /** `property.PropertyInfo?.PropertyType`. */
  function PropertyInfoType(p: Property): Option<ClrType>
  {
    if p.hasClrMember then Some(p.clrType) else None
  }

  /** `GetEncryptionMetadata` on a model property: the attribute is found only through its `PropertyInfo`. */
  function Metadata(p: Property): EncryptionMetadata
  {
    GetEncryptionMetadata(if p.hasClrMember then p.attribute else None, p.annotations)
  }

  /** The companion column's name, shared by model builder, synchronizer and query rewriter. */
  function ShadowName(name: string): string
  {
    name + "ShadowHash"
  }

  /** Distinct properties have distinct companion columns. */
  lemma ShadowNameInjective(a: string, b: string)
    ensures ShadowName(a) == ShadowName(b) <==> a == b
  {
    if ShadowName(a) == ShadowName(b) {
      assert a == ShadowName(a)[..|a|] && b == ShadowName(b)[..|b|];
    }
  }

  /** `entityType.GetProperties().Any(p => p.Name == name)`, and `FindProperty(name) != null`. */
  predicate HasProperty(et: EntityType, name: string)
  {
    exists j :: 0 <= j < |et.properties| && et.properties[j].name == name
  }

  /** No two properties of the entity type share a name. */
  predicate UniqueNames(et: EntityType)
  {
    forall j, k :: 0 <= j < k < |et.properties| ==> et.properties[j].name != et.properties[k].name
  }

  /** `IMutableModel`, reached through the `ModelBuilder`: the list of entity types. */
  class ModelBuilder {
    var entityTypes: seq<EntityType>

    constructor (entityTypes: seq<EntityType>)
      ensures this.entityTypes == entityTypes
    {
      this.entityTypes := entityTypes;
    }
  }
}
