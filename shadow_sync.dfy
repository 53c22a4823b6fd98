/**
 * `ShadowHashSynchronizerSaveChangesInterceptor`: before each save, every
 * added or modified entry gets, for each property marked encrypted and
 * queryable, its `<Name>ShadowHash` value set to the keyed hash of the
 * property's text, unless that text is null or white space or the entity
 * type has no such property.
 *
 * The change tracker is the `entries` field of a `DbContext`; the loops of
 * `UpdateEntities` and `SynchronizeShadowHash` rewrite it in place and are
 * proved against the folds `SyncEntriesUpTo` and `SyncAll`.
 */
module ShadowSync {
  import opened Wrappers
  import opened Crypto
  import opened Hex
  import opened Policy
  import opened EfModel
  import opened Hashing

  datatype EntityState = Detached | Unchanged | Deleted | Modified | Added

  /** A current value as the entity object holds it. */
  datatype Value =
    | NullValue
    | TextValue(text: string)
    | BytesValue(bytes: Bytes)
    /** Any other CLR value, with what its `ToString()` returns. */
    | OtherValue(toStringResult: Option<string>)

  /** An entry of the change tracker: its state, the CLR type of its entity, and current values by property name. */
  datatype Entry = Entry(state: EntityState, entityClrType: string, currentValues: map<string, Value>)

  function Lookup(values: map<string, Value>, key: string): Option<Value>
  {
    if key in values then Some(values[key]) else None
  }

  /** `char.IsWhiteSpace`: the Unicode space separators, line and paragraph separators, and U+0009..U+000D, U+0085. */
  predicate IsWhiteSpace(c: char)
  {
    || ('\U{0009}' <= c <= '\U{000D}') || c == '\U{0020}' || c == '\U{0085}' || c == '\U{00A0}' || c == '\U{1680}'
    || ('\U{2000}' <= c <= '\U{200A}') || c == '\U{2028}' || c == '\U{2029}' || c == '\U{202F}' || c == '\U{205F}'
    || c == '\U{3000}'
  }

  /** `string.IsNullOrWhiteSpace` on a string that is not null: empty or all white space. */
  predicate IsNullOrWhiteSpace(s: string)
  {
    forall k :: 0 <= k < |s| ==> IsWhiteSpace(s[k])
  }

  /**
   * `property.PropertyInfo?.GetValue(entity)?.ToString() ?? string.Empty`:
   * empty for a property with no CLR member, a null value or a null
   * `ToString()`; a byte array prints as its type name.
   */
  function ReadOriginal(p: Property, values: map<string, Value>): string
  {
    if !p.hasClrMember then ""
    else match Lookup(values, p.name)
      case None => ""
      case Some(NullValue) => ""
      case Some(TextValue(s)) => s
      case Some(BytesValue(_)) => "System.Byte[]"
      case Some(OtherValue(r)) => if r.Some? then r.value else ""
  }

  /** The filter of `SynchronizeShadowHash`: encrypted and queryable. */
  predicate Hashed(p: Property)
  {
    Metadata(p).supportsEncryption && Metadata(p).supportsQuerying
  }

  function FilterHashed(ps: seq<Property>): (r: seq<Property>)
    ensures forall q :: q in r <==> q in ps && Hashed(q)
  {
    if ps == [] then []
    else (if Hashed(ps[0]) then [ps[0]] else []) + FilterHashed(ps[1..])
  }

  /** The properties of an entity type that carry a shadow hash, in declaration order. */
  function HashedProperties(et: EntityType): seq<Property>
  {
    FilterHashed(et.properties)
  }

  /** `context.Model.FindEntityType(entity.GetType())`. */
  function FindEntityType(model: seq<EntityType>, clrTypeName: string): (r: Option<EntityType>)
    ensures r.Some? ==> r.value in model && r.value.clrTypeName == clrTypeName
    ensures r.None? <==> forall et :: et in model ==> et.clrTypeName != clrTypeName
  {
    if model == [] then None
    else if model[0].clrTypeName == clrTypeName then Some(model[0])
    else FindEntityType(model[1..], clrTypeName)
  }

  /** The property's text would be hashed into an existing shadow property. */
  predicate NeedsHash(et: EntityType, p: Property, values: map<string, Value>)
  {
    !IsNullOrWhiteSpace(ReadOriginal(p, values)) && HasProperty(et, ShadowName(p.name))
  }

  /** One iteration of the loop of `SynchronizeShadowHash`. */
  function SyncProperty(et: EntityType, p: Property, values: map<string, Value>, salt: Option<string>, prims: HashPrimitives)
    : (r: (map<string, Value>, Outcome<HashError>))
    ensures r.1.Fail? <==> NeedsHash(et, p, values) && salt.None?
    ensures r.1.Fail? ==> r.1.error == MissingSalt(EnvKey)
    ensures forall key :: key != ShadowName(p.name) ==> Lookup(r.0, key) == Lookup(values, key)
    ensures !(NeedsHash(et, p, values) && salt.Some?) ==> r.0 == values
    ensures NeedsHash(et, p, values) && salt.Some? ==>
      && Lookup(r.0, ShadowName(p.name)).Some?
      && r.0[ShadowName(p.name)].TextValue?
      && IsLowerHex(r.0[ShadowName(p.name)].text)
      && HexDecode(r.0[ShadowName(p.name)].text) ==
           Some(prims.hmacSha256(prims.utf8(salt.value), prims.utf8(ReadOriginal(p, values))))
  {
    var originalValue := ReadOriginal(p, values);
    var shadowPropertyName := ShadowName(p.name);
    if !IsNullOrWhiteSpace(originalValue) && HasProperty(et, shadowPropertyName) then
      match HmacSha256Hash(prims, salt, originalValue)
      case Failure(e) => (values, Fail(e))
      case Success(h) => (values[shadowPropertyName := TextValue(h)], Pass)
    else (values, Pass)
  }

  /** The loop of `SynchronizeShadowHash` over `ps`, stopping at the first error. */
  function SyncAll(et: EntityType, ps: seq<Property>, values: map<string, Value>, salt: Option<string>, prims: HashPrimitives)
    : (map<string, Value>, Outcome<HashError>)
    decreases |ps|
  {
    if ps == [] then (values, Pass)
    else
      var prior := SyncAll(et, ps[..|ps| - 1], values, salt, prims);
      if prior.1.Fail? then prior else SyncProperty(et, ps[|ps| - 1], prior.0, salt, prims)
  }

  function ShadowNames(ps: seq<Property>): set<string>
  {
    set q | q in ps :: ShadowName(q.name)
  }

  /** The loop writes only the shadow columns of the properties it visits. */
  lemma {:induction false} SyncAllFrame(et: EntityType, ps: seq<Property>, values: map<string, Value>, salt: Option<string>, prims: HashPrimitives)
    ensures forall key :: key !in ShadowNames(ps) ==>
      Lookup(SyncAll(et, ps, values, salt, prims).0, key) == Lookup(values, key)
    decreases |ps|
  {
    if ps != [] {
      var init := ps[..|ps| - 1];
      SyncAllFrame(et, init, values, salt, prims);
      assert ShadowNames(init) <= ShadowNames(ps) by {
        forall key | key in ShadowNames(init) ensures key in ShadowNames(ps) {
          var q :| q in init && key == ShadowName(q.name);
          assert q in ps;
        }
      }
      assert ShadowName(ps[|ps| - 1].name) in ShadowNames(ps);
    }
  }

  /**
   * Without a salt nothing is written, and the loop fails exactly when some
   * visited property needs a hash.
   */
  lemma {:induction false} SyncAllWithoutSalt(et: EntityType, ps: seq<Property>, values: map<string, Value>, prims: HashPrimitives)
    ensures SyncAll(et, ps, values, None, prims) ==
      (values, if exists k :: 0 <= k < |ps| && NeedsHash(et, ps[k], values) then Fail(MissingSalt(EnvKey)) else Pass)
    decreases |ps|
  {
    if ps != [] {
      var init := ps[..|ps| - 1];
      SyncAllWithoutSalt(et, init, values, prims);
      if exists k :: 0 <= k < |init| && NeedsHash(et, init[k], values) {
        var k :| 0 <= k < |init| && NeedsHash(et, init[k], values);
        assert ps[k] == init[k];
      } else {
        forall k | 0 <= k < |ps| - 1 ensures !NeedsHash(et, ps[k], values) {
          assert ps[k] == init[k];
        }
      }
    }
  }

  /** With a salt the loop never fails. */
  lemma {:induction false} SyncAllWithSalt(et: EntityType, ps: seq<Property>, values: map<string, Value>, salt: string, prims: HashPrimitives)
    ensures SyncAll(et, ps, values, Some(salt), prims).1 == Pass
    decreases |ps|
  {
    if ps != [] {
      SyncAllWithSalt(et, ps[..|ps| - 1], values, salt, prims);
    }
  }

  /**
   * After the loop, the shadow column of a visited property holds what
   * synchronizing that property alone on the values before the loop would
   * write, provided no other visited property has its name and no visited
   * property's shadow column is the property itself.
   */
  lemma {:induction false} SyncAllShadow(et: EntityType, ps: seq<Property>, values: map<string, Value>, salt: string,
                                         prims: HashPrimitives, p: Property)
    requires p in ps
    requires forall q :: q in ps && q.name == p.name ==> q == p
    requires forall q :: q in ps ==> ShadowName(q.name) != p.name
    ensures Lookup(SyncAll(et, ps, values, Some(salt), prims).0, ShadowName(p.name)) ==
            Lookup(SyncProperty(et, p, values, Some(salt), prims).0, ShadowName(p.name))
    decreases |ps|
  {
    var init := ps[..|ps| - 1];
    var last := ps[|ps| - 1];
    SyncAllPrefix(et, ps, values, salt, prims, p);
    if last.name == p.name {
      if p in init {
        SyncAllShadow(et, init, values, salt, prims, p);
      }
    } else {
      assert p in init;
      SyncAllShadow(et, init, values, salt, prims, p);
      ShadowNameInjective(last.name, p.name);
    }
  }

  /**
   * One step of the induction behind SyncAllShadow: the loop over `ps` is the
   * loop over all but its last property followed by that property's sync,
   * and that shorter loop left `p`'s value (and, when it did not visit `p`,
   * `p`'s shadow column) as it found them.
   */
  lemma SyncAllPrefix(et: EntityType, ps: seq<Property>, values: map<string, Value>, salt: string,
                      prims: HashPrimitives, p: Property)
    requires p in ps
    requires forall q :: q in ps && q.name == p.name ==> q == p
    requires forall q :: q in ps ==> ShadowName(q.name) != p.name
    ensures var prior := SyncAll(et, ps[..|ps| - 1], values, Some(salt), prims).0;
      && SyncAll(et, ps, values, Some(salt), prims).0 == SyncProperty(et, ps[|ps| - 1], prior, Some(salt), prims).0
      && ReadOriginal(p, prior) == ReadOriginal(p, values)
      && (ps[|ps| - 1].name == p.name ==> ps[|ps| - 1] == p)
      && (p !in ps[..|ps| - 1] ==> Lookup(prior, ShadowName(p.name)) == Lookup(values, ShadowName(p.name)))
  {
    var init := ps[..|ps| - 1];
    SyncAllWithSalt(et, init, values, salt, prims);
    assert ps[|ps| - 1] in ps;
    PrefixKeepsOriginal(et, ps, values, Some(salt), prims, p);
    if p !in init {
      assert forall q :: q in init ==> q in ps;
      PrefixKeepsShadow(et, init, values, Some(salt), prims, p);
    }
  }

  /** A loop over properties none of whose shadow names is `p`'s name leaves `p`'s value alone. */
  lemma PrefixKeepsOriginal(et: EntityType, ps: seq<Property>, values: map<string, Value>, salt: Option<string>,
                            prims: HashPrimitives, p: Property)
    requires ps != []
    requires forall q :: q in ps ==> ShadowName(q.name) != p.name
    ensures ReadOriginal(p, SyncAll(et, ps[..|ps| - 1], values, salt, prims).0) == ReadOriginal(p, values)
  {
    var init := ps[..|ps| - 1];
    SyncAllFrame(et, init, values, salt, prims);
    assert p.name !in ShadowNames(init) by {
      forall q | q in init ensures ShadowName(q.name) != p.name {
        assert q in ps;
      }
    }
  }

  /** A loop that does not visit `p` leaves `p`'s shadow column alone. */
  lemma PrefixKeepsShadow(et: EntityType, ps: seq<Property>, values: map<string, Value>, salt: Option<string>,
                          prims: HashPrimitives, p: Property)
    requires p !in ps
    requires forall q :: q in ps && q.name == p.name ==> q == p
    ensures Lookup(SyncAll(et, ps, values, salt, prims).0, ShadowName(p.name)) == Lookup(values, ShadowName(p.name))
  {
    SyncAllFrame(et, ps, values, salt, prims);
    assert ShadowName(p.name) !in ShadowNames(ps) by {
      forall q | q in ps ensures ShadowName(q.name) != ShadowName(p.name) {
        ShadowNameInjective(q.name, p.name);
      }
    }
  }



  /** An entry the interceptor visits: added or modified. */
  predicate Eligible(e: Entry)
  {
    e.state == Added || e.state == Modified
  }

  /** What `UpdateEntities` does to one entry. */
  function SyncEntry(model: seq<EntityType>, e: Entry, salt: Option<string>, prims: HashPrimitives): (r: (Entry, Outcome<HashError>))
    ensures r.0.state == e.state && r.0.entityClrType == e.entityClrType
  {
    if !Eligible(e) then (e, Pass)
    else match FindEntityType(model, e.entityClrType)
      case None => (e, Pass)
      case Some(et) =>
        var (values, outcome) := SyncAll(et, HashedProperties(et), e.currentValues, salt, prims);
        (e.(currentValues := values), outcome)
  }

  /** The loop of `UpdateEntities` over the first `n` entries, stopping at the first error. */
  function SyncEntriesUpTo(model: seq<EntityType>, entries: seq<Entry>, n: nat, salt: Option<string>, prims: HashPrimitives)
    : (seq<Entry>, Outcome<HashError>)
    requires n <= |entries|
  {
    if n == 0 then (entries, Pass)
    else
      var prior := SyncEntriesUpTo(model, entries, n - 1, salt, prims);
      if prior.1.Fail? || |prior.0| != |entries| then prior
      else
        var (e, outcome) := SyncEntry(model, prior.0[n - 1], salt, prims);
        (prior.0[n - 1 := e], outcome)
  }

  /** The whole of `UpdateEntities` on the change tracker's entries. */
  function SyncEntries(model: seq<EntityType>, entries: seq<Entry>, salt: Option<string>, prims: HashPrimitives)
    : (seq<Entry>, Outcome<HashError>)
  {
    SyncEntriesUpTo(model, entries, |entries|, salt, prims)
  }

  /**
   * The shape of a run over the first `n` entries: entries from `n` on are
   * untouched, and each earlier entry is either untouched or synchronized,
   * synchronized for all of them when the run succeeds.
   */
  lemma {:induction false} SyncEntriesShape(model: seq<EntityType>, entries: seq<Entry>, n: nat, salt: Option<string>, prims: HashPrimitives)
    requires n <= |entries|
    ensures var (r, o) := SyncEntriesUpTo(model, entries, n, salt, prims);
      && |r| == |entries|
      && (forall j :: n <= j < |entries| ==> r[j] == entries[j])
      && (forall j :: 0 <= j < n ==> r[j] == entries[j] || r[j] == SyncEntry(model, entries[j], salt, prims).0)
      && (o.Pass? ==> forall j :: 0 <= j < n ==> r[j] == SyncEntry(model, entries[j], salt, prims).0)
  {
    if n > 0 {
      SyncEntriesShape(model, entries, n - 1, salt, prims);
      var (prior, o) := SyncEntriesUpTo(model, entries, n - 1, salt, prims);
      if o.Pass? {
        var (e, o') := SyncEntry(model, entries[n - 1], salt, prims);
        var r := prior[n - 1 := e];
        assert SyncEntriesUpTo(model, entries, n, salt, prims) == (r, o');
        forall j | 0 <= j < n
          ensures r[j] == entries[j] || r[j] == SyncEntry(model, entries[j], salt, prims).0
          ensures o'.Pass? ==> r[j] == SyncEntry(model, entries[j], salt, prims).0
        {
          if j < n - 1 {
            assert r[j] == prior[j];
          }
        }
      }
    }
  }

  /** Unfolding the loop specification one entry at a time. */
  lemma SyncEntriesStep(model: seq<EntityType>, entries: seq<Entry>, k: nat, salt: Option<string>, prims: HashPrimitives)
    requires k < |entries|
    ensures var prior := SyncEntriesUpTo(model, entries, k, salt, prims);
      && |prior.0| == |entries| && prior.0[k] == entries[k]
      && SyncEntriesUpTo(model, entries, k + 1, salt, prims) ==
         if prior.1.Fail? then prior
         else (prior.0[k := SyncEntry(model, entries[k], salt, prims).0], SyncEntry(model, entries[k], salt, prims).1)
  {
    SyncEntriesShape(model, entries, k, salt, prims);
  }

  /** The loop of `UpdateEntities` stops at an error. */
  lemma {:induction false} SyncEntriesStopAtError(model: seq<EntityType>, entries: seq<Entry>, k: nat, n: nat, salt: Option<string>, prims: HashPrimitives)
    requires k <= n <= |entries|
    requires SyncEntriesUpTo(model, entries, k, salt, prims).1.Fail?
    ensures SyncEntriesUpTo(model, entries, n, salt, prims) == SyncEntriesUpTo(model, entries, k, salt, prims)
    decreases n - k
  {
    if k < n {
      SyncEntriesStopAtError(model, entries, k, n - 1, salt, prims);
    }
  }

  /** The entry is visited and some property of its entity type needs a hash. */
  predicate EntryNeedsHash(model: seq<EntityType>, e: Entry)
  {
    && Eligible(e)
    && FindEntityType(model, e.entityClrType).Some?
    && var et := FindEntityType(model, e.entityClrType).value;
       exists k :: 0 <= k < |HashedProperties(et)| && NeedsHash(et, HashedProperties(et)[k], e.currentValues)
  }

  /**
   * Without a salt the save changes no entry, and it is aborted exactly when
   * some added or modified entry has a queryable property with text and a
   * shadow column.
   */
  lemma {:induction false} MissingSaltChangesNothing(model: seq<EntityType>, entries: seq<Entry>, n: nat, prims: HashPrimitives)
    requires n <= |entries|
    ensures SyncEntriesUpTo(model, entries, n, None, prims) ==
      (entries, if exists j :: 0 <= j < n && EntryNeedsHash(model, entries[j]) then Fail(MissingSalt(EnvKey)) else Pass)
  {
    if n > 0 {
      MissingSaltChangesNothing(model, entries, n - 1, prims);
      SyncEntryWithoutSalt(model, entries[n - 1], prims);
      if exists j :: 0 <= j < n - 1 && EntryNeedsHash(model, entries[j]) {
        var j :| 0 <= j < n - 1 && EntryNeedsHash(model, entries[j]);
        assert 0 <= j < n;
      } else {
        assert entries[n - 1 := entries[n - 1]] == entries;
      }
    }
  }

  /** Without a salt, one entry is left as it is, and it fails exactly when it needs a hash. */
  lemma SyncEntryWithoutSalt(model: seq<EntityType>, e: Entry, prims: HashPrimitives)
    ensures SyncEntry(model, e, None, prims) == (e, if EntryNeedsHash(model, e) then Fail(MissingSalt(EnvKey)) else Pass)
  {
    if Eligible(e) && FindEntityType(model, e.entityClrType).Some? {
      var et := FindEntityType(model, e.entityClrType).value;
      SyncAllWithoutSalt(et, HashedProperties(et), e.currentValues, prims);
    }
  }


  /** With a salt the save is never aborted. */
  lemma {:induction false} SaltPresentSucceeds(model: seq<EntityType>, entries: seq<Entry>, n: nat, salt: string, prims: HashPrimitives)
    requires n <= |entries|
    ensures SyncEntriesUpTo(model, entries, n, Some(salt), prims).1 == Pass
  {
    if n > 0 {
      SaltPresentSucceeds(model, entries, n - 1, salt, prims);
      var prior := SyncEntriesUpTo(model, entries, n - 1, Some(salt), prims).0;
      if |prior| == |entries| {
        SyncEntryWithSalt(model, prior[n - 1], salt, prims);
      }
    }
  }

  /** With a salt, syncing one entry always succeeds. */
  lemma SyncEntryWithSalt(model: seq<EntityType>, e: Entry, salt: string, prims: HashPrimitives)
    ensures SyncEntry(model, e, Some(salt), prims).1 == Pass
  {
    if Eligible(e) && FindEntityType(model, e.entityClrType).Some? {
      var et := FindEntityType(model, e.entityClrType).value;
      SyncAllWithSalt(et, HashedProperties(et), e.currentValues, salt, prims);
    }
  }


  /**
   * The synchronizer touches nothing but shadow columns: states and entity
   * types stay, entries it does not visit stay whole, and a value that
   * changes is the shadow column of a queryable property of the entry's
   * entity type.
   */
  lemma WritesOnlyShadowColumns(model: seq<EntityType>, entries: seq<Entry>, salt: Option<string>, prims: HashPrimitives, j: nat, key: string)
    requires j < |entries|
    ensures var r := SyncEntries(model, entries, salt, prims).0;
      && |r| == |entries|
      && r[j].state == entries[j].state && r[j].entityClrType == entries[j].entityClrType
      && (!Eligible(entries[j]) ==> r[j] == entries[j])
      && (Lookup(r[j].currentValues, key) != Lookup(entries[j].currentValues, key) ==>
            && Eligible(entries[j])
            && FindEntityType(model, entries[j].entityClrType).Some?
            && key in ShadowNames(HashedProperties(FindEntityType(model, entries[j].entityClrType).value)))
  {
    SyncEntriesShape(model, entries, |entries|, salt, prims);
    var e := entries[j];
    if Eligible(e) && FindEntityType(model, e.entityClrType).Some? {
      var et := FindEntityType(model, e.entityClrType).value;
      SyncAllFrame(et, HashedProperties(et), e.currentValues, salt, prims);
    }
  }

  /**
   * The main guarantee: after a save with a salt, an added or modified
   * entry's shadow column for a queryable property holds the hash of the
   * property's text when that text is not blank (and the column exists),
   * and keeps its earlier value otherwise. Property names are unique within
   * the entity type, and no queryable property is itself named as another's
   * shadow column.
   */
  lemma SyncedShadowHash(model: seq<EntityType>, entries: seq<Entry>, salt: string, prims: HashPrimitives,
                         i: nat, et: EntityType, p: Property)
    requires i < |entries| && Eligible(entries[i])
    requires FindEntityType(model, entries[i].entityClrType) == Some(et)
    requires UniqueNames(et)
    requires p in et.properties && Hashed(p)
    requires forall q :: q in et.properties && Hashed(q) ==> ShadowName(q.name) != p.name
    ensures var r := SyncEntries(model, entries, Some(salt), prims).0;
      var before := entries[i].currentValues;
      && |r| == |entries|
      && (NeedsHash(et, p, before) ==>
            && HmacSha256Hash(prims, Some(salt), ReadOriginal(p, before)).Success?
            && Lookup(r[i].currentValues, ShadowName(p.name)) ==
                 Some(TextValue(HmacSha256Hash(prims, Some(salt), ReadOriginal(p, before)).value)))
      && (!NeedsHash(et, p, before) ==>
            Lookup(r[i].currentValues, ShadowName(p.name)) == Lookup(before, ShadowName(p.name)))
  {
    SaltPresentSucceeds(model, entries, |entries|, salt, prims);
    SyncEntriesShape(model, entries, |entries|, Some(salt), prims);
    var ps := HashedProperties(et);
    forall q | q in ps && q.name == p.name ensures q == p {
      var a :| 0 <= a < |et.properties| && et.properties[a] == q;
      var b :| 0 <= b < |et.properties| && et.properties[b] == p;
    }
    SyncAllShadow(et, ps, entries[i].currentValues, salt, prims, p);
  }

  /** The change tracker of a context, over a model fixed when the context was built. */
  class DbContext {
    const model: seq<EntityType>
    var entries: seq<Entry>

    constructor(model: seq<EntityType>, entries: seq<Entry>)
      ensures this.model == model && this.entries == entries
    {
      this.model := model;
      this.entries := entries;
    }
  }

  /**
   * `SynchronizeShadowHash` for the entry at `index`, whose entity type is
   * `et`: writes the shadow columns of that entry in place.
   */
  method SynchronizeShadowHash(context: DbContext, et: EntityType, index: nat, salt: Option<string>, prims: HashPrimitives)
    returns (r: Outcome<HashError>)
    requires index < |context.entries|
    modifies context
    ensures var (values, outcome) := SyncAll(et, HashedProperties(et), old(context.entries[index].currentValues), salt, prims);
      && context.entries == old(context.entries)[index := old(context.entries[index]).(currentValues := values)]
      && r == outcome
  {
    ghost var start := context.entries[index];
    var properties := HashedProperties(et);
    var values := context.entries[index].currentValues;
    var k := 0;
    while k < |properties|
      invariant 0 <= k <= |properties|
      invariant context.entries == old(context.entries)[index := start.(currentValues := values)]
      invariant SyncAll(et, properties[..k], start.currentValues, salt, prims) == (values, Pass)
    {
      var property := properties[k];
      SyncAllSnoc(et, properties, k, start.currentValues, salt, prims);
      var originalValue := ReadOriginal(property, values);
      var shadowPropertyName := ShadowName(property.name);
      if !IsNullOrWhiteSpace(originalValue) && HasProperty(et, shadowPropertyName) {
        var hash := HmacSha256Hash(prims, salt, originalValue);
        if hash.Failure? {
          SyncAllStopsAtError(et, properties, k + 1, start.currentValues, salt, prims);
          return Fail(hash.error);
        }
        values := values[shadowPropertyName := TextValue(hash.value)];
        context.entries := context.entries[index := context.entries[index].(currentValues := values)];
      }
      k := k + 1;
    }
    assert properties[..k] == properties;
    return Pass;
  }

  /** Unfolding the loop specification one property at a time. */
  lemma SyncAllSnoc(et: EntityType, ps: seq<Property>, k: nat, values: map<string, Value>, salt: Option<string>, prims: HashPrimitives)
    requires k < |ps|
    ensures var prior := SyncAll(et, ps[..k], values, salt, prims);
      SyncAll(et, ps[..k + 1], values, salt, prims) ==
        if prior.1.Fail? then prior else SyncProperty(et, ps[k], prior.0, salt, prims)
  {
    assert ps[..k + 1][..k] == ps[..k];
  }

  /** The loop of `SynchronizeShadowHash` stops at an error. */
  lemma {:induction false} SyncAllStopsAtError(et: EntityType, ps: seq<Property>, n: nat, values: map<string, Value>, salt: Option<string>, prims: HashPrimitives)
    requires n <= |ps|
    requires SyncAll(et, ps[..n], values, salt, prims).1.Fail?
    ensures SyncAll(et, ps, values, salt, prims) == SyncAll(et, ps[..n], values, salt, prims)
    decreases |ps| - n
  {
    if n < |ps| {
      assert ps[..|ps| - 1][..n] == ps[..n];
      SyncAllStopsAtError(et, ps[..|ps| - 1], n, values, salt, prims);
    } else {
      assert ps[..n] == ps;
    }
  }

  /**
   * `UpdateEntities`: nothing for a null context; otherwise every added or
   * modified entry whose entity type is in the model is synchronized, in
   * order, until a hash fails.
   */
  method UpdateEntities(context: DbContext?, salt: Option<string>, prims: HashPrimitives) returns (r: Outcome<HashError>)
    modifies context
    ensures context == null ==> r == Pass
    ensures context != null ==> (context.entries, r) == SyncEntries(context.model, old(context.entries), salt, prims)
  {
    if context == null {
      return Pass;
    }
    ghost var start := context.entries;
    var k := 0;
    while k < |context.entries|
      invariant 0 <= k <= |context.entries| == |start|
      invariant SyncEntriesUpTo(context.model, start, k, salt, prims) == (context.entries, Pass)
    {
      SyncEntriesStep(context.model, start, k, salt, prims);
      var entry := context.entries[k];
      if entry.state == Added || entry.state == Modified {
        var entityType := FindEntityType(context.model, entry.entityClrType);
        if entityType.Some? {
          var outcome := SynchronizeShadowHash(context, entityType.value, k, salt, prims);
          if outcome.Fail? {
            SyncEntriesStopAtError(context.model, start, k + 1, |start|, salt, prims);
            return outcome;
          }
        } else {
          assert context.entries[k := SyncEntry(context.model, entry, salt, prims).0] == context.entries;
        }
      } else {
        assert context.entries[k := SyncEntry(context.model, entry, salt, prims).0] == context.entries;
      }
      k := k + 1;
    }
    return Pass;
  }

  /**
   * `SavingChanges`: synchronize, then hand the interception result on
   * unchanged (the base interceptor returns it as is). A failing hash
   * aborts the save.
   */
  method SavingChanges<R>(context: DbContext?, result: R, salt: Option<string>, prims: HashPrimitives) returns (r: Result<R, HashError>)
    modifies context
    ensures context == null ==> r == Success(result)
    ensures context != null ==>
      var (entries, outcome) := SyncEntries(context.model, old(context.entries), salt, prims);
      && context.entries == entries
      && (outcome.Pass? ==> r == Success(result))
      && (outcome.Fail? ==> r == Failure(outcome.error))
  {
    var outcome := UpdateEntities(context, salt, prims);
    if outcome.Fail? {
      return Failure(outcome.error);
    }
    return Success(result);
  }
}
