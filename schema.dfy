/**
 * `ModelBuilderExt.UseDataProtection` and `AddShadowProperty` (Klean tree):
 * select the encrypted properties of the model, install a protecting value
 * converter on each, and give each queryable one a `<Name>ShadowHash`
 * companion property.
 *
 * The pass is a loop over a list computed up front; an exception stops it
 * with the properties before the failing one already rewritten. `RunAll`
 * specifies the loop step by step, and the lemmas below state what a run
 * does to the model.
 */
module Schema {
  import opened Wrappers
  import opened Policy
  import opened EfModel
  import opened Converters

  const ProtectorPurpose: string := "Klean.EntityFrameworkCore.DataProtection"

  /** How a pass chooses the converter for one property: a new converter, none, or an error. */
  type Selector = Property -> Result<Option<ConverterTag>, SchemaError>

  /**
   * The intermediary's provider type can be read off its base class
   * (`GetType().BaseType?.GetGenericArguments()[1]`), or there is none.
   */
  predicate ReadsIntermediary(p: Property)
  {
    p.converter.None? || BaseGenericProvider(p.converter.value).Some?
  }

  /** An intermediary is installed and converts to `t`. */
  predicate IntermediaryProvides(p: Property, t: ClrType)
  {
    p.converter.Some? && ProviderType(p.converter.value) == t
  }

  /** The first branch of the dispatch: string by declaration or through the intermediary. */
  predicate StringBranch(p: Property)
  {
    PropertyInfoType(p) == Some(StringType) || IntermediaryProvides(p, StringType)
  }

  /** The second branch: not string, but byte[] by declaration or through the intermediary. */
  predicate ByteArrayBranch(p: Property)
  {
    !StringBranch(p) && (PropertyInfoType(p) == Some(ByteArrayType) || IntermediaryProvides(p, ByteArrayType))
  }

  /**
   * The converter dispatch of the Klean tree. The intermediary's provider
   * type is read first, for every property. String is tried first: the
   * declared type, or the provider type of the converter already installed
   * (the intermediary). Then byte[]. A property of another type with no
   * intermediary is an error; with an intermediary to some other type it is
   * left as it is. The intermediary is handed to the new converter, whose
   * constructor may still reject it.
   */
  function SelectConverter(p: Property): (r: Result<Option<ConverterTag>, SchemaError>)
    ensures r.Success? && r.value.Some? ==> !r.value.value.HostConverter? && r.value.value.inner == p.converter
    ensures r.Success? && r.value.Some? ==>
      (ProviderType(r.value.value) == StringType <==>
        (PropertyInfoType(p) == Some(StringType) || (p.converter.Some? && ProviderType(p.converter.value) == StringType)))
    // a string property, or one whose intermediary provides string, gets the string converter
    ensures r == Success(Some(StringProtection(ProtectorPurpose, p.converter))) <==>
      ReadsIntermediary(p) && PropertyInfoType(p).Some? && StringBranch(p)
      && (p.converter.None? || IntermediaryProvides(p, StringType))
    // likewise byte[], when the intermediary's own class names its provider type
    ensures r == Success(Some(ByteArrayProtection(ProtectorPurpose, p.converter))) <==>
      ReadsIntermediary(p) && PropertyInfoType(p).Some? && ByteArrayBranch(p)
      && (p.converter.None? || OwnGenericProvider(p.converter.value) == Some(ByteArrayType))
    ensures r == Failure(GenericArgumentOutOfRange) <==>
      !ReadsIntermediary(p)
      || (PropertyInfoType(p).Some? && ByteArrayBranch(p) && p.converter.Some? && OwnGenericProvider(p.converter.value).None?)
    ensures r == Failure(MissingClrType(p.name)) <==>
      ReadsIntermediary(p) && PropertyInfoType(p).None?
      && (IntermediaryProvides(p, StringType) || IntermediaryProvides(p, ByteArrayType))
    ensures (r.Failure? && r.error.IntermediaryTargetMismatch?) <==>
      ReadsIntermediary(p) && PropertyInfoType(p).Some? && p.converter.Some?
      && ((StringBranch(p) && !IntermediaryProvides(p, StringType))
          || (ByteArrayBranch(p) && OwnGenericProvider(p.converter.value).Some? && !IntermediaryProvides(p, ByteArrayType)))
    ensures r.Failure? && r.error.IntermediaryTargetMismatch? ==>
      p.converter.Some? && r.error.actual == ProviderType(p.converter.value)
      && r.error.expected == (if StringBranch(p) then StringType else ByteArrayType)
    ensures r == Failure(UnsupportedPropertyType(p.name)) <==>
      (PropertyInfoType(p) != Some(StringType) && PropertyInfoType(p) != Some(ByteArrayType) && p.converter.None?)
    ensures r == Success(None) <==>
      (ReadsIntermediary(p) && PropertyInfoType(p) != Some(StringType) && PropertyInfoType(p) != Some(ByteArrayType)
       && p.converter.Some? && ProviderType(p.converter.value).OtherType?)
  {
    var propertyType := PropertyInfoType(p);
    var internalConverter := p.converter;
    if internalConverter.Some? && BaseGenericProvider(internalConverter.value).None? then
      Failure(GenericArgumentOutOfRange)
    else
      var convertTo := if internalConverter.Some? then BaseGenericProvider(internalConverter.value) else None;
      if propertyType == Some(StringType) || convertTo == Some(StringType) then
        if propertyType.None? then Failure(MissingClrType(p.name))
        else match NewStringConverter(ProtectorPurpose, internalConverter)
          case Success(c) => Success(Some(c))
          case Failure(e) => Failure(e)
      else if propertyType == Some(ByteArrayType) || convertTo == Some(ByteArrayType) then
        if propertyType.None? then Failure(MissingClrType(p.name))
        else match NewByteArrayConverter(ProtectorPurpose, internalConverter)
          case Success(c) => Success(Some(c))
          case Failure(e) => Failure(e)
      else if internalConverter.None? then Failure(UnsupportedPropertyType(p.name))
      else Success(None)
  }

  /** `property.SetValueConverter(c)` when a converter was chosen. */
  function Install(p: Property, c: Option<ConverterTag>): Property
  {
    if c.Some? then p.(converter := c) else p
  }

  /**
   * The shadow property `AddShadowProperty` means to add: string-typed, no
   * CLR member, the owner's nullability, and a unique or a plain index.
   */
  function NewShadowProperty(owner: Property, isUniqueIndex: bool): Property
  {
    Property(ShadowName(owner.name), StringType, false, None, map[], None, owner.isNullable,
             if isUniqueIndex then UniqueIndex else PlainIndex)
  }

  /**
   * The shadow property the code as written adds. `IsShadowProperty()`,
   * `IsUniqueIndex()` and `IsIndex()` are read-only queries of
   * `IReadOnlyProperty` whose results are discarded, so no index is created
   * and `isUniqueIndex` has no effect.
   */
  function NewShadowPropertyAsWritten(owner: Property, isUniqueIndex: bool): Property
  {
    Property(ShadowName(owner.name), StringType, false, None, map[], None, owner.isNullable, NoIndex)
  }

  /**
   * As written, the uniqueness flag changes nothing and no index exists; the
   * intended property has one, and differs from the written one in nothing else.
   */
  lemma AsWrittenCreatesNoIndex(owner: Property)
    ensures NewShadowPropertyAsWritten(owner, true) == NewShadowPropertyAsWritten(owner, false)
    ensures forall u: bool :: NewShadowPropertyAsWritten(owner, u) == NewShadowProperty(owner, u).(index := NoIndex)
    ensures NewShadowPropertyAsWritten(owner, true).index == NoIndex
    ensures NewShadowProperty(owner, true).index == UniqueIndex
    ensures NewShadowProperty(owner, false).index == PlainIndex
  {
  }

  /**
   * `AddShadowProperty` on an entity type: nothing happens if the shadow name
   * is taken. It appends the intended shadow property, with its index; the
   * code as written appends `NewShadowPropertyAsWritten`, which has none.
   */
  function WithShadowProperty(et: EntityType, owner: Property, isUniqueIndex: bool): EntityType
  {
    if HasProperty(et, ShadowName(owner.name)) then et
    else et.(properties := et.properties + [NewShadowProperty(owner, isUniqueIndex)])
  }

  /**
   * What `AddShadowProperty` does: nothing when a property of the shadow
   * name exists; otherwise it appends exactly one property, of that name,
   * string-typed, with the owner's nullability and the index the flag asks
   * for. The index is the intended behaviour: as written the source creates
   * none (see `AsWrittenCreatesNoIndex`).
   */
  lemma ShadowPropertyAdded(et: EntityType, owner: Property, isUniqueIndex: bool)
    ensures var r := WithShadowProperty(et, owner, isUniqueIndex);
      && HasProperty(r, ShadowName(owner.name))
      && (HasProperty(et, ShadowName(owner.name)) ==> r == et)
      && (!HasProperty(et, ShadowName(owner.name)) ==>
            && r.clrTypeName == et.clrTypeName
            && |r.properties| == |et.properties| + 1
            && r.properties[..|et.properties|] == et.properties
            && var s := r.properties[|et.properties|];
               s.name == ShadowName(owner.name) && s.clrType == StringType && !s.hasClrMember
               && s.isNullable == owner.isNullable
               && s.index == (if isUniqueIndex then UniqueIndex else PlainIndex))
  {
    var r := WithShadowProperty(et, owner, isUniqueIndex);
    if !HasProperty(et, ShadowName(owner.name)) {
      assert r.properties[|et.properties|].name == ShadowName(owner.name);
    }
  }

  /** Adding the same shadow property twice adds it once. */
  lemma ShadowPropertyIdempotent(et: EntityType, owner: Property, u1: bool, u2: bool)
    ensures WithShadowProperty(WithShadowProperty(et, owner, u1), owner, u2) == WithShadowProperty(et, owner, u1)
  {
    ShadowPropertyAdded(et, owner, u1);
  }

  /** Adding a shadow property never creates a second property of an existing name. */
  lemma ShadowPropertyKeepsNamesUnique(et: EntityType, owner: Property, isUniqueIndex: bool)
    requires UniqueNames(et)
    ensures UniqueNames(WithShadowProperty(et, owner, isUniqueIndex))
  {
  }

  /** One element of the selection: where the property is, and its policy as resolved when selected. */
  datatype Target = Target(entity: nat, property: nat, status: EncryptionMetadata)

  predicate ValidTarget(ets: seq<EntityType>, t: Target)
  {
    t.entity < |ets| && t.property < |ets[t.entity].properties|
  }

  /** The property a valid target designates. */
  function At(ets: seq<EntityType>, t: Target): Property
    requires ValidTarget(ets, t)
  {
    ets[t.entity].properties[t.property]
  }

  /** The encrypted properties of entity type `i`, from property `j` on, in order. */
  function SelectInEntity(et: EntityType, i: nat, j: nat): (ts: seq<Target>)
    ensures forall k :: 0 <= k < |ts| ==>
      && ts[k].entity == i && j <= ts[k].property < |et.properties|
      && ts[k].status == Metadata(et.properties[ts[k].property]) && ts[k].status.supportsEncryption
    ensures forall a, b :: 0 <= a < b < |ts| ==> ts[a].property < ts[b].property
    ensures forall q :: j <= q < |et.properties| && Metadata(et.properties[q]).supportsEncryption ==>
      Target(i, q, Metadata(et.properties[q])) in ts
    decreases |et.properties| - j
  {
    if j >= |et.properties| then []
    else
      var status := Metadata(et.properties[j]);
      var head := if status.supportsEncryption then [Target(i, j, status)] else [];
      var rest := SelectInEntity(et, i, j + 1);
      SelectInEntityCons(et, i, j, head, rest);
      head + rest
  }

  /** The step of SelectInEntity: property `j`'s target, if any, goes before those of the later properties. */
  lemma SelectInEntityCons(et: EntityType, i: nat, j: nat, head: seq<Target>, rest: seq<Target>)
    requires j < |et.properties|
    requires head == if Metadata(et.properties[j]).supportsEncryption then [Target(i, j, Metadata(et.properties[j]))] else []
    requires forall k :: 0 <= k < |rest| ==>
      && rest[k].entity == i && j + 1 <= rest[k].property < |et.properties|
      && rest[k].status == Metadata(et.properties[rest[k].property]) && rest[k].status.supportsEncryption
    requires forall a, b :: 0 <= a < b < |rest| ==> rest[a].property < rest[b].property
    requires forall q :: j + 1 <= q < |et.properties| && Metadata(et.properties[q]).supportsEncryption ==>
      Target(i, q, Metadata(et.properties[q])) in rest
    ensures var ts := head + rest;
      && (forall k :: 0 <= k < |ts| ==>
            && ts[k].entity == i && j <= ts[k].property < |et.properties|
            && ts[k].status == Metadata(et.properties[ts[k].property]) && ts[k].status.supportsEncryption)
      && (forall a, b :: 0 <= a < b < |ts| ==> ts[a].property < ts[b].property)
      && (forall q :: j <= q < |et.properties| && Metadata(et.properties[q]).supportsEncryption ==>
            Target(i, q, Metadata(et.properties[q])) in ts)
  {
    var ts := head + rest;
    forall q | j <= q < |et.properties| && Metadata(et.properties[q]).supportsEncryption
      ensures Target(i, q, Metadata(et.properties[q])) in ts
    {
      if q == j {
        assert ts[0] == Target(i, q, Metadata(et.properties[q]));
      } else {
        assert Target(i, q, Metadata(et.properties[q])) in rest;
      }
    }
  }

  /** The encrypted properties of entity types `i` on, entity type by entity type. */
  function SelectFrom(ets: seq<EntityType>, i: nat): (ts: seq<Target>)
    ensures forall k :: 0 <= k < |ts| ==>
      && i <= ts[k].entity && ValidTarget(ets, ts[k])
      && ts[k].status == Metadata(At(ets, ts[k])) && ts[k].status.supportsEncryption
    ensures forall a, b :: 0 <= a < b < |ts| ==>
      ts[a].entity < ts[b].entity || (ts[a].entity == ts[b].entity && ts[a].property < ts[b].property)
    ensures forall e, q :: i <= e < |ets| && 0 <= q < |ets[e].properties| && Metadata(ets[e].properties[q]).supportsEncryption ==>
      Target(e, q, Metadata(ets[e].properties[q])) in ts
    decreases |ets| - i
  {
    if i >= |ets| then []
    else SelectInEntity(ets[i], i, 0) + SelectFrom(ets, i + 1)
  }

  /**
   * The selection query of `UseDataProtection`: every property whose
   * resolved policy supports encryption, once each, with that policy.
   */
  function EncryptedProperties(ets: seq<EntityType>): seq<Target>
  {
    SelectFrom(ets, 0)
  }

  /** Position `(i, j)` holds a property whose resolved policy supports encryption. */
  predicate EncryptedAt(ets: seq<EntityType>, i: int, j: int)
  {
    0 <= i < |ets| && 0 <= j < |ets[i].properties| && Metadata(ets[i].properties[j]).supportsEncryption
  }

  /** Some target designates position `(i, j)`. */
  predicate Targeted(ts: seq<Target>, i: nat, j: nat)
  {
    exists k :: 0 <= k < |ts| && ts[k].entity == i && ts[k].property == j
  }

  /** Targets that are valid, pairwise distinct, and carry their property's policy. */
  predicate WellFormedTargets(ets: seq<EntityType>, ts: seq<Target>)
  {
    && (forall k :: 0 <= k < |ts| ==> ValidTarget(ets, ts[k]) && ts[k].status == Metadata(At(ets, ts[k])))
    && (forall a, b :: 0 <= a < b < |ts| ==> ts[a].entity != ts[b].entity || ts[a].property != ts[b].property)
  }

  /** The selection is well formed, and it holds a property exactly when its policy supports encryption. */
  lemma SelectionExact(ets: seq<EntityType>, i: nat, j: nat)
    requires i < |ets| && j < |ets[i].properties|
    ensures WellFormedTargets(ets, EncryptedProperties(ets))
    ensures Targeted(EncryptedProperties(ets), i, j) <==> Metadata(ets[i].properties[j]).supportsEncryption
  {
    var ts := EncryptedProperties(ets);
    if Metadata(ets[i].properties[j]).supportsEncryption {
      var k :| 0 <= k < |ts| && ts[k] == Target(i, j, Metadata(ets[i].properties[j]));
    }
  }

  lemma SelectionWellFormed(ets: seq<EntityType>)
    ensures WellFormedTargets(ets, EncryptedProperties(ets))
  {
  }

  /** One iteration of the loop on the entity type that holds the property. */
  function StepEntity(et: EntityType, j: nat, status: EncryptionMetadata, select: Selector): Result<EntityType, SchemaError>
    requires j < |et.properties|
  {
    var p := et.properties[j];
    match select(p)
    case Failure(e) => Failure(e)
    case Success(c) =>
      var installed := Install(p, c);
      var et' := et.(properties := et.properties[j := installed]);
      Success(if status.supportsQuerying then WithShadowProperty(et', installed, status.isUniqueIndex) else et')
  }

  /** One iteration of the loop on the whole model; a target outside the model changes nothing. */
  function Step(ets: seq<EntityType>, t: Target, select: Selector): (seq<EntityType>, Outcome<SchemaError>)
  {
    if !ValidTarget(ets, t) then (ets, Pass)
    else match StepEntity(ets[t.entity], t.property, t.status, select)
      case Failure(e) => (ets, Fail(e))
      case Success(et) => (ets[t.entity := et], Pass)
  }

  /** The loop over `ts`, stopping at the first error with the model as it then stands. */
  function RunAll(ets: seq<EntityType>, ts: seq<Target>, select: Selector): (seq<EntityType>, Outcome<SchemaError>)
    decreases |ts|
  {
    if ts == [] then (ets, Pass)
    else
      var prior := RunAll(ets, ts[..|ts| - 1], select);
      if prior.1.Fail? then prior else Step(prior.0, ts[|ts| - 1], select)
  }

  /** The whole pass: the selection, then the loop over it. */
  function Augment(ets: seq<EntityType>, select: Selector): (seq<EntityType>, Outcome<SchemaError>)
  {
    RunAll(ets, EncryptedProperties(ets), select)
  }

  /** The shadow property a step appends, if any. */
  function Appended(et: EntityType, p: Property, status: EncryptionMetadata): seq<Property>
  {
    if status.supportsQuerying && !HasProperty(et, ShadowName(p.name)) then [NewShadowProperty(p, status.isUniqueIndex)] else []
  }

  /**
   * A step on a valid target the dispatch accepts: the property gets its
   * converter and, if queryable, its shadow property is appended unless
   * the name is taken.
   */
  lemma StepAccepted(ets: seq<EntityType>, t: Target, select: Selector)
    requires ValidTarget(ets, t) && select(At(ets, t)).Success?
    ensures var p := At(ets, t);
      var et := ets[t.entity];
      Step(ets, t, select) ==
        (ets[t.entity := et.(properties := et.properties[t.property := Install(p, select(p).value)] + Appended(et, p, t.status))], Pass)
  {
    var p := At(ets, t);
    var et := ets[t.entity];
    var installed := Install(p, select(p).value);
    var et' := et.(properties := et.properties[t.property := installed]);
    assert HasProperty(et', ShadowName(p.name)) <==> HasProperty(et, ShadowName(p.name)) by {
      if HasProperty(et, ShadowName(p.name)) {
        var j :| 0 <= j < |et.properties| && et.properties[j].name == ShadowName(p.name);
        assert et'.properties[j].name == et.properties[j].name;
      }
      if HasProperty(et', ShadowName(p.name)) {
        var j :| 0 <= j < |et'.properties| && et'.properties[j].name == ShadowName(p.name);
        assert et'.properties[j].name == et.properties[j].name;
      }
    }
    assert NewShadowProperty(installed, t.status.isUniqueIndex) == NewShadowProperty(p, t.status.isUniqueIndex);
    if t.status.supportsQuerying {
      assert StepEntity(et, t.property, t.status, select) == Success(WithShadowProperty(et', installed, t.status.isUniqueIndex));
      if HasProperty(et, ShadowName(p.name)) {
        assert WithShadowProperty(et', installed, t.status.isUniqueIndex) == et';
        assert et'.properties + Appended(et, p, t.status) == et'.properties;
      } else {
        assert Appended(et, p, t.status) == [NewShadowProperty(installed, t.status.isUniqueIndex)];
      }
    } else {
      assert et'.properties + Appended(et, p, t.status) == et'.properties;
    }
  }

  /** A step leaves the property at every other valid position where it was. */
  lemma StepKeepsOthers(ets: seq<EntityType>, t: Target, u: Target, select: Selector)
    requires ValidTarget(ets, u)
    requires t.entity != u.entity || t.property != u.property
    ensures var r := Step(ets, t, select).0;
      ValidTarget(r, u) && At(r, u) == At(ets, u)
  {
    if ValidTarget(ets, t) && select(At(ets, t)).Success? {
      StepAccepted(ets, t, select);
      var p := At(ets, t);
      var et := ets[t.entity];
      var props := et.properties[t.property := Install(p, select(p).value)] + Appended(et, p, t.status);
      if u.entity == t.entity {
        assert props[u.property] == et.properties[u.property];
      }
    }
  }

  /** A step as the loop body performs it: replace the property, then add the shadow property. */
  lemma StepAsUpdates(ets: seq<EntityType>, t: Target, select: Selector)
    requires ValidTarget(ets, t) && select(At(ets, t)).Success?
    ensures var et := ets[t.entity];
      var installed := Install(At(ets, t), select(At(ets, t)).value);
      var updated := et.(properties := et.properties[t.property := installed]);
      && (t.status.supportsQuerying ==>
            Step(ets, t, select).0 == ets[t.entity := updated][t.entity := WithShadowProperty(updated, installed, t.status.isUniqueIndex)])
      && (!t.status.supportsQuerying ==> Step(ets, t, select).0 == ets[t.entity := updated])
  {
  }

  /** Unfolding the loop specification one target at a time. */
  lemma RunAllSnoc(ets: seq<EntityType>, ts: seq<Target>, k: nat, select: Selector)
    requires k < |ts|
    ensures var prior := RunAll(ets, ts[..k], select);
      RunAll(ets, ts[..k + 1], select) == if prior.1.Fail? then prior else Step(prior.0, ts[k], select)
  {
    assert ts[..k + 1][..k] == ts[..k];
  }

  /**
   * The shape a run keeps: the same entity types, properties only appended,
   * names of existing properties unchanged, and every property no target
   * designates untouched.
   */
  predicate Extends(ets: seq<EntityType>, r: seq<EntityType>, ts: seq<Target>)
  {
    && |r| == |ets|
    && (forall i :: 0 <= i < |ets| ==>
          r[i].clrTypeName == ets[i].clrTypeName && |ets[i].properties| <= |r[i].properties|)
    && (forall i, j :: 0 <= i < |ets| && 0 <= j < |ets[i].properties| ==>
          r[i].properties[j].name == ets[i].properties[j].name
          && r[i].properties[j].isNullable == ets[i].properties[j].isNullable)
    && (forall i, j :: 0 <= i < |ets| && 0 <= j < |ets[i].properties| && !Targeted(ts, i, j) ==>
          r[i].properties[j] == ets[i].properties[j])
  }

  lemma StepExtends(ets: seq<EntityType>, t: Target, select: Selector)
    ensures Extends(ets, Step(ets, t, select).0, [t])
  {
    if ValidTarget(ets, t) && select(At(ets, t)).Success? {
      StepAccepted(ets, t, select);
      assert Targeted([t], t.entity, t.property) by {
        assert [t][0] == t;
      }
    }
  }

  /** A run keeps the shape. */
  lemma {:induction false} RunExtends(ets: seq<EntityType>, ts: seq<Target>, select: Selector)
    ensures Extends(ets, RunAll(ets, ts, select).0, ts)
    decreases |ts|
  {
    if ts != [] {
      var init := ts[..|ts| - 1];
      var last := ts[|ts| - 1];
      RunExtends(ets, init, select);
      var prior := RunAll(ets, init, select);
      if prior.1.Pass? {
        StepExtends(prior.0, last, select);
        var r := RunAll(ets, ts, select).0;
        forall i, j | 0 <= i < |ets| && 0 <= j < |ets[i].properties| && !Targeted(ts, i, j)
          ensures r[i].properties[j] == ets[i].properties[j]
        {
          assert !Targeted(init, i, j) by {
            forall k | 0 <= k < |init| ensures init[k] == ts[k] { }
          }
          assert !Targeted([last], i, j) by {
            assert [last][0] == ts[|ts| - 1];
          }
        }
      }
    }
  }

  /** The loop stops at an error: running further after a failing prefix changes nothing. */
  lemma {:induction false} RunStopsAtError(ets: seq<EntityType>, ts: seq<Target>, n: nat, select: Selector)
    requires n <= |ts|
    requires RunAll(ets, ts[..n], select).1.Fail?
    ensures RunAll(ets, ts, select) == RunAll(ets, ts[..n], select)
    decreases |ts| - n
  {
    if n < |ts| {
      assert ts[..|ts| - 1][..n] == ts[..n];
      RunStopsAtError(ets, ts[..|ts| - 1], n, select);
    } else {
      assert ts[..n] == ts;
    }
  }

  /** The property at the `k`-th target is still the original one when its turn comes. */
  lemma TargetUntouchedBefore(ets: seq<EntityType>, ts: seq<Target>, k: nat, select: Selector)
    requires WellFormedTargets(ets, ts) && k < |ts|
    ensures var r := RunAll(ets, ts[..k], select).0;
      ValidTarget(r, ts[k]) && At(r, ts[k]) == At(ets, ts[k])
  {
    RunExtends(ets, ts[..k], select);
  }

  /**
   * The last step of a run whose earlier steps all succeeded, on a target
   * the dispatch accepts: every targeted property now carries its converter.
   */
  lemma RunOutcomeAccepted(ets: seq<EntityType>, ts: seq<Target>, select: Selector)
    requires WellFormedTargets(ets, ts) && ts != []
    requires forall k :: 0 <= k < |ts| - 1 ==> select(At(ets, ts[k])).Success?
    requires var prior := RunAll(ets, ts[..|ts| - 1], select);
      && prior.1.Pass?
      && forall k :: 0 <= k < |ts| - 1 ==>
           ValidTarget(prior.0, ts[k]) && At(prior.0, ts[k]) == Install(At(ets, ts[k]), select(At(ets, ts[k])).value)
    requires select(At(ets, ts[|ts| - 1])).Success?
    ensures var (r, o) := RunAll(ets, ts, select);
      && o.Pass?
      && forall k :: 0 <= k < |ts| ==>
           ValidTarget(r, ts[k]) && At(r, ts[k]) == Install(At(ets, ts[k]), select(At(ets, ts[k])).value)
  {
    var n := |ts| - 1;
    var last := ts[n];
    var prior := RunAll(ets, ts[..n], select);
    assert ts[..n + 1] == ts;
    RunAllSnoc(ets, ts, n, select);
    TargetUntouchedBefore(ets, ts, n, select);
    StepAccepted(prior.0, last, select);
    var r := RunAll(ets, ts, select).0;
    forall k | 0 <= k < |ts|
      ensures ValidTarget(r, ts[k]) && At(r, ts[k]) == Install(At(ets, ts[k]), select(At(ets, ts[k])).value)
    {
      if k < n {
        StepKeepsOthers(prior.0, last, ts[k], select);
      }
    }
  }

  /**
   * The outcome of a run: it succeeds exactly when the dispatch accepts every
   * targeted property as it was before the run; then every targeted property
   * carries the converter chosen for it; and a failure is the dispatch's
   * error for one targeted property.
   */
  lemma {:induction false} RunOutcome(ets: seq<EntityType>, ts: seq<Target>, select: Selector)
    requires WellFormedTargets(ets, ts)
    ensures var (r, o) := RunAll(ets, ts, select);
      && (o.Pass? <==> forall k :: 0 <= k < |ts| ==> select(At(ets, ts[k])).Success?)
      && (o.Pass? ==> forall k :: 0 <= k < |ts| ==>
            ValidTarget(r, ts[k]) && At(r, ts[k]) == Install(At(ets, ts[k]), select(At(ets, ts[k])).value))
      && (o.Fail? ==> exists k :: 0 <= k < |ts| && select(At(ets, ts[k])) == Failure(o.error))
    decreases |ts|
  {
    if ts != [] {
      var n := |ts| - 1;
      var init := ts[..n];
      var last := ts[n];
      assert WellFormedTargets(ets, init);
      RunOutcome(ets, init, select);
      var prior := RunAll(ets, init, select);
      if prior.1.Fail? {
        var k :| 0 <= k < |init| && select(At(ets, init[k])) == Failure(prior.1.error);
        assert init[k] == ts[k];
      } else {
        assert forall k :: 0 <= k < n ==> init[k] == ts[k];
        TargetUntouchedBefore(ets, ts, n, select);
        var p0 := At(ets, last);
        var (r, o) := RunAll(ets, ts, select);
        if select(p0).Failure? {
          assert select(At(ets, ts[n])) == Failure(o.error);
        } else {
          RunOutcomeAccepted(ets, ts, select);
        }
      }
    }
  }

  /** `s` is the shadow property of a targeted, queryable property of entity type `i`. */
  predicate ShadowOfTarget(ets: seq<EntityType>, ts: seq<Target>, i: nat, s: Property)
  {
    exists k :: 0 <= k < |ts| && ValidTarget(ets, ts[k]) && ts[k].entity == i && ts[k].status.supportsQuerying
      && s == NewShadowProperty(At(ets, ts[k]), ts[k].status.isUniqueIndex)
  }

  /** Every property a run appends is the shadow property of a targeted, queryable property. */
  predicate AppendedAreShadows(ets: seq<EntityType>, r: seq<EntityType>, ts: seq<Target>)
  {
    |r| == |ets| &&
    forall i, j :: 0 <= i < |ets| && |ets[i].properties| <= j < |r[i].properties| ==>
      ShadowOfTarget(ets, ts, i, r[i].properties[j])
  }

  /**
   * One appended property of a run over `ts` is a shadow property, given
   * that this holds for the run over all targets but the last.
   */
  lemma AppendedIsShadow(ets: seq<EntityType>, ts: seq<Target>, select: Selector, i: nat, j: nat)
    requires WellFormedTargets(ets, ts) && ts != []
    requires AppendedAreShadows(ets, RunAll(ets, ts[..|ts| - 1], select).0, ts[..|ts| - 1])
    requires Extends(ets, RunAll(ets, ts[..|ts| - 1], select).0, ts[..|ts| - 1])
    requires var r := RunAll(ets, ts, select).0; i < |ets| == |r| && |ets[i].properties| <= j < |r[i].properties|
    ensures ShadowOfTarget(ets, ts, i, RunAll(ets, ts, select).0[i].properties[j])
  {
    var n := |ts| - 1;
    var init := ts[..n];
    var last := ts[n];
    var m := RunAll(ets, init, select).0;
    var r := RunAll(ets, ts, select).0;
    assert ts[..n + 1] == ts;
    RunAllSnoc(ets, ts, n, select);
    if j < |m[i].properties| && r[i].properties[j] == m[i].properties[j] {
      var k :| 0 <= k < |init| && ValidTarget(ets, init[k]) && init[k].entity == i && init[k].status.supportsQuerying
        && m[i].properties[j] == NewShadowProperty(At(ets, init[k]), init[k].status.isUniqueIndex);
      assert ts[k] == init[k];
    } else {
      TargetUntouchedBefore(ets, ts, n, select);
      StepAccepted(m, last, select);
      assert ts[n] == last;
    }
  }

  lemma {:induction false} RunAppendsOnlyShadows(ets: seq<EntityType>, ts: seq<Target>, select: Selector)
    requires WellFormedTargets(ets, ts)
    ensures AppendedAreShadows(ets, RunAll(ets, ts, select).0, ts)
    decreases |ts|
  {
    RunExtends(ets, ts, select);
    if ts != [] {
      var init := ts[..|ts| - 1];
      assert WellFormedTargets(ets, init);
      RunAppendsOnlyShadows(ets, init, select);
      RunExtends(ets, init, select);
      var r := RunAll(ets, ts, select).0;
      forall i, j | 0 <= i < |ets| && |ets[i].properties| <= j < |r[i].properties|
        ensures ShadowOfTarget(ets, ts, i, r[i].properties[j])
      {
        AppendedIsShadow(ets, ts, select, i, j);
      }
    }
  }

  lemma HasPropertyGrows(a: EntityType, b: EntityType, name: string)
    requires |a.properties| <= |b.properties|
    requires forall j :: 0 <= j < |a.properties| ==> b.properties[j].name == a.properties[j].name
    requires HasProperty(a, name)
    ensures HasProperty(b, name)
  {
    var j :| 0 <= j < |a.properties| && a.properties[j].name == name;
    assert b.properties[j].name == name;
  }

  /** After a successful run, every targeted queryable property has its shadow property. */
  lemma {:induction false} RunAddsShadows(ets: seq<EntityType>, ts: seq<Target>, select: Selector)
    requires WellFormedTargets(ets, ts)
    ensures var (r, o) := RunAll(ets, ts, select);
      o.Pass? ==> |r| == |ets| && forall k :: 0 <= k < |ts| && ts[k].status.supportsQuerying ==>
        HasProperty(r[ts[k].entity], ShadowName(At(ets, ts[k]).name))
    decreases |ts|
  {
    if ts != [] {
      var init := ts[..|ts| - 1];
      assert WellFormedTargets(ets, init);
      RunAddsShadows(ets, init, select);
      var (r, o) := RunAll(ets, ts, select);
      if o.Pass? {
        assert |r| == |ets| by {
          RunExtends(ets, ts, select);
        }
        forall k | 0 <= k < |ts| && ts[k].status.supportsQuerying
          ensures HasProperty(r[ts[k].entity], ShadowName(At(ets, ts[k]).name))
        {
          ShadowPresentAfter(ets, ts, select, k);
        }
      }
    }
  }


  /**
   * One target of a successful run has its shadow property afterwards,
   * given that the run over all targets but the last added the earlier ones.
   */
  lemma ShadowPresentAfter(ets: seq<EntityType>, ts: seq<Target>, select: Selector, k: nat)
    requires WellFormedTargets(ets, ts) && ts != [] && k < |ts| && ts[k].status.supportsQuerying
    requires RunAll(ets, ts, select).1.Pass?
    requires var (m, o) := RunAll(ets, ts[..|ts| - 1], select);
      o.Pass? ==> |m| == |ets| && forall q :: 0 <= q < |ts| - 1 && ts[q].status.supportsQuerying ==>
        HasProperty(m[ts[q].entity], ShadowName(At(ets, ts[q]).name))
    ensures var r := RunAll(ets, ts, select).0;
      ts[k].entity < |r| && HasProperty(r[ts[k].entity], ShadowName(At(ets, ts[k]).name))
  {
    var n := |ts| - 1;
    var last := ts[n];
    var m := RunAll(ets, ts[..n], select).0;
    assert ts[..n + 1] == ts;
    RunAllSnoc(ets, ts, n, select);
    TargetUntouchedBefore(ets, ts, n, select);
    if k < n {
      StepKeepsShadow(m, last, select, ts[k].entity, ShadowName(At(ets, ts[k]).name));
    } else {
      StepAddsShadow(m, last, select);
    }
  }

  /** An accepted step removes no property name. */
  lemma StepKeepsShadow(ets: seq<EntityType>, t: Target, select: Selector, e: nat, name: string)
    requires ValidTarget(ets, t) && Step(ets, t, select).1.Pass?
    requires e < |ets| && HasProperty(ets[e], name)
    ensures var r := Step(ets, t, select).0;
      e < |r| && HasProperty(r[e], name)
  {
    StepAccepted(ets, t, select);
    var r := Step(ets, t, select).0;
    if e == t.entity {
      HasPropertyGrows(ets[e], r[e], name);
    }
  }

  /** An accepted step on a queryable target leaves its entity type with the shadow property. */
  lemma StepAddsShadow(ets: seq<EntityType>, t: Target, select: Selector)
    requires ValidTarget(ets, t) && Step(ets, t, select).1.Pass? && t.status.supportsQuerying
    ensures var r := Step(ets, t, select).0;
      t.entity < |r| && HasProperty(r[t.entity], ShadowName(At(ets, t).name))
  {
    StepAccepted(ets, t, select);
    var e := t.entity;
    var r := Step(ets, t, select).0;
    var name := ShadowName(At(ets, t).name);
    if HasProperty(ets[e], name) {
      HasPropertyGrows(ets[e], r[e], name);
    } else {
      assert r[e].properties[|ets[e].properties|].name == name;
    }
  }


  /** A run never gives two properties of one entity type the same name. */
  lemma {:induction false} RunKeepsNamesUnique(ets: seq<EntityType>, ts: seq<Target>, select: Selector)
    requires forall i :: 0 <= i < |ets| ==> UniqueNames(ets[i])
    ensures var r := RunAll(ets, ts, select).0;
      |r| == |ets| && forall i :: 0 <= i < |r| ==> UniqueNames(r[i])
    decreases |ts|
  {
    if ts != [] {
      var init := ts[..|ts| - 1];
      var last := ts[|ts| - 1];
      RunKeepsNamesUnique(ets, init, select);
      var prior := RunAll(ets, init, select);
      if prior.1.Pass? && ValidTarget(prior.0, last) {
        var et := prior.0[last.entity];
        var p := et.properties[last.property];
        if select(p).Success? {
          var installed := Install(p, select(p).value);
          var et' := et.(properties := et.properties[last.property := installed]);
          assert UniqueNames(et') by {
            forall a, b | 0 <= a < b < |et'.properties|
              ensures et'.properties[a].name != et'.properties[b].name
            {
              assert et'.properties[a].name == et.properties[a].name;
              assert et'.properties[b].name == et.properties[b].name;
            }
          }
          ShadowPropertyKeepsNamesUnique(et', installed, last.status.isUniqueIndex);
        }
      }
    }
  }

  /**
   * `AddShadowProperty`: adds the shadow property of `property` to entity
   * type `entity`, unless a property of that name exists. The index is set
   * as intended; the source's `IsUniqueIndex()` and `IsIndex()` only read it.
   */
  method AddShadowProperty(builder: ModelBuilder, entity: nat, property: Property, isUniqueIndex: bool)
    requires entity < |builder.entityTypes|
    modifies builder
    ensures builder.entityTypes ==
      old(builder.entityTypes)[entity := WithShadowProperty(old(builder.entityTypes)[entity], property, isUniqueIndex)]
  {
    var entityType := builder.entityTypes[entity];
    var shadowPropertyName := ShadowName(property.name);
    if HasProperty(entityType, shadowPropertyName) {
      return;
    }
    var shadowProperty := Property(shadowPropertyName, StringType, false, None, map[], None, false, NoIndex);
    shadowProperty := shadowProperty.(index := if isUniqueIndex then UniqueIndex else PlainIndex);
    shadowProperty := shadowProperty.(isNullable := property.isNullable);
    builder.entityTypes := builder.entityTypes[entity := entityType.(properties := entityType.properties + [shadowProperty])];
  }

  /**
   * The body of the loop of `UseDataProtection` for one selected property:
   * choose its converter, install it, and add the shadow property when the
   * policy asks for querying.
   */
  method ProtectProperty(builder: ModelBuilder, t: Target, select: Selector) returns (r: Outcome<SchemaError>)
    requires ValidTarget(builder.entityTypes, t)
    modifies builder
    ensures (builder.entityTypes, r) == Step(old(builder.entityTypes), t, select)
  {
    var entityType := builder.entityTypes[t.entity];
    var property := entityType.properties[t.property];
    var converter := select(property);
    if converter.Failure? {
      return Fail(converter.error);
    }
    StepAsUpdates(builder.entityTypes, t, select);
    property := Install(property, converter.value);
    builder.entityTypes := builder.entityTypes[t.entity := entityType.(properties := entityType.properties[t.property := property])];
    if t.status.supportsQuerying {
      AddShadowProperty(builder, t.entity, property, t.status.isUniqueIndex);
    }
    return Pass;
  }

  /**
   * The loop of `UseDataProtection` over a precomputed selection, with the
   * dispatch `select`. On an error the model keeps the changes made so far.
   */
  method ProtectSelected(builder: ModelBuilder, select: Selector) returns (r: Outcome<SchemaError>)
    modifies builder
    ensures (builder.entityTypes, r) == Augment(old(builder.entityTypes), select)
  {
    ghost var start := builder.entityTypes;
    var properties := EncryptedProperties(builder.entityTypes);
    SelectionWellFormed(start);
    var k := 0;
    while k < |properties|
      invariant 0 <= k <= |properties|
      invariant RunAll(start, properties[..k], select) == (builder.entityTypes, Pass)
    {
      TargetUntouchedBefore(start, properties, k, select);
      RunAllSnoc(start, properties, k, select);
      var outcome := ProtectProperty(builder, properties[k], select);
      if outcome.Fail? {
        RunStopsAtError(start, properties, k + 1, select);
        return outcome;
      }
      k := k + 1;
    }
    assert properties[..k] == properties;
    return Pass;
  }

  /**
   * `UseDataProtection` of the Klean tree: returns the same builder, or the
   * error of the first property the dispatch rejects.
   */
  method UseDataProtection(builder: ModelBuilder) returns (r: Result<ModelBuilder, SchemaError>)
    modifies builder
    ensures var (ets, o) := Augment(old(builder.entityTypes), SelectConverter);
      && builder.entityTypes == ets
      && (o.Pass? ==> r == Success(builder))
      && (o.Fail? ==> r == Failure(o.error))
  {
    var outcome := ProtectSelected(builder, SelectConverter);
    if outcome.Fail? {
      return Failure(outcome.error);
    }
    return Success(builder);
  }

  /** A property whose policy does not support encryption comes out of the pass unchanged. */
  lemma AugmentKeepsUnencrypted(ets: seq<EntityType>, select: Selector, i: nat, j: nat)
    requires i < |ets| && j < |ets[i].properties| && !Metadata(ets[i].properties[j]).supportsEncryption
    ensures var r := Augment(ets, select).0;
      i < |r| && j < |r[i].properties| && r[i].properties[j] == ets[i].properties[j]
  {
    SelectionExact(ets, i, j);
    RunExtends(ets, EncryptedProperties(ets), select);
  }

  /**
   * The pass succeeds exactly when the dispatch accepts every property whose
   * policy supports encryption; a failure carries the error of one of them.
   */
  lemma AugmentOutcome(ets: seq<EntityType>, select: Selector)
    ensures var o := Augment(ets, select).1;
      && (o.Pass? <==> forall i, j :: EncryptedAt(ets, i, j) ==> select(ets[i].properties[j]).Success?)
      && (o.Fail? ==> exists i, j :: EncryptedAt(ets, i, j) && select(ets[i].properties[j]) == Failure(o.error))
  {
    var ts := EncryptedProperties(ets);
    SelectionWellFormed(ets);
    RunOutcome(ets, ts, select);
    var o := Augment(ets, select).1;
    if o.Pass? {
      forall i, j | EncryptedAt(ets, i, j)
        ensures select(ets[i].properties[j]).Success?
      {
        SelectionExact(ets, i, j);
      }
    } else {
      var k :| 0 <= k < |ts| && select(At(ets, ts[k])) == Failure(o.error);
      assert EncryptedAt(ets, ts[k].entity, ts[k].property);
    }
  }

  /** After a successful pass each encrypted property carries the converter the dispatch chose for it. */
  lemma AugmentConverts(ets: seq<EntityType>, select: Selector, i: nat, j: nat)
    requires i < |ets| && j < |ets[i].properties| && Metadata(ets[i].properties[j]).supportsEncryption
    requires Augment(ets, select).1.Pass?
    ensures var r := Augment(ets, select).0;
      && select(ets[i].properties[j]).Success?
      && i < |r| && j < |r[i].properties|
      && r[i].properties[j] == Install(ets[i].properties[j], select(ets[i].properties[j]).value)
  {
    var ts := EncryptedProperties(ets);
    SelectionExact(ets, i, j);
    RunOutcome(ets, ts, select);
    var k :| 0 <= k < |ts| && ts[k].entity == i && ts[k].property == j;
  }

  /** After a successful pass each encrypted, queryable property has its shadow property. */
  lemma AugmentAddsShadow(ets: seq<EntityType>, select: Selector, i: nat, j: nat)
    requires i < |ets| && j < |ets[i].properties|
    requires Metadata(ets[i].properties[j]).supportsEncryption && Metadata(ets[i].properties[j]).supportsQuerying
    requires Augment(ets, select).1.Pass?
    ensures var r := Augment(ets, select).0;
      i < |r| && HasProperty(r[i], ShadowName(ets[i].properties[j].name))
  {
    var ts := EncryptedProperties(ets);
    SelectionExact(ets, i, j);
    RunAddsShadows(ets, ts, select);
    var k :| 0 <= k < |ts| && ts[k].entity == i && ts[k].property == j;
  }

  /**
   * Every property the pass adds, whatever its outcome, is the shadow
   * property of an encrypted, queryable property of the same entity type,
   * with the index that property's uniqueness asks for (the intended one;
   * as written the source gives the shadow column no index).
   */
  lemma AugmentAddsOnlyShadows(ets: seq<EntityType>, select: Selector, i: nat, j: nat)
    requires i < |ets|
    requires var r := Augment(ets, select).0; i < |r| && |ets[i].properties| <= j < |r[i].properties|
    ensures exists q :: (EncryptedAt(ets, i, q) && Metadata(ets[i].properties[q]).supportsQuerying
      && Augment(ets, select).0[i].properties[j] == NewShadowProperty(ets[i].properties[q], Metadata(ets[i].properties[q]).isUniqueIndex))
  {
    var ts := EncryptedProperties(ets);
    SelectionWellFormed(ets);
    RunAppendsOnlyShadows(ets, ts, select);
    var r := Augment(ets, select).0;
    assert ShadowOfTarget(ets, ts, i, r[i].properties[j]);
    var k :| 0 <= k < |ts| && ValidTarget(ets, ts[k]) && ts[k].entity == i && ts[k].status.supportsQuerying
      && r[i].properties[j] == NewShadowProperty(At(ets, ts[k]), ts[k].status.isUniqueIndex);
    var q := ts[k].property;
    assert EncryptedAt(ets, i, q) && Metadata(ets[i].properties[q]).supportsQuerying;
  }

  /** The pass keeps property names unique within each entity type. */
  lemma AugmentKeepsNamesUnique(ets: seq<EntityType>, select: Selector)
    requires forall i :: 0 <= i < |ets| ==> UniqueNames(ets[i])
    ensures var r := Augment(ets, select).0;
      |r| == |ets| && forall i :: 0 <= i < |r| ==> UniqueNames(r[i])
  {
    RunKeepsNamesUnique(ets, EncryptedProperties(ets), select);
  }

  /**
   * What the Klean pass promises when it succeeds: every encrypted property
   * that is string (declared or through its intermediary) is protected by
   * the string converter under the library's purpose, every byte[] one by
   * the byte[] converter, each wrapping the converter it had; any other
   * encrypted property keeps its intermediary as it is.
   */
  lemma AugmentProtects(ets: seq<EntityType>, i: nat, j: nat)
    requires i < |ets| && j < |ets[i].properties| && Metadata(ets[i].properties[j]).supportsEncryption
    requires Augment(ets, SelectConverter).1.Pass?
    ensures var p := ets[i].properties[j];
      var r := Augment(ets, SelectConverter).0;
      && i < |r| && j < |r[i].properties|
      && (StringBranch(p) ==> r[i].properties[j] == p.(converter := Some(StringProtection(ProtectorPurpose, p.converter))))
      && (ByteArrayBranch(p) ==> r[i].properties[j] == p.(converter := Some(ByteArrayProtection(ProtectorPurpose, p.converter))))
      && (!StringBranch(p) && !ByteArrayBranch(p) ==> r[i].properties[j] == p && p.converter.Some?)
  {
    AugmentConverts(ets, SelectConverter, i, j);
  }
}
