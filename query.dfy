/**
 * `QueryableExt.WherePdEquals` (Klean tree): filter a query to the rows
 * whose shadow column equals the keyed hash of a value. The hash is
 * computed when the filter is built, so a missing salt fails at once.
 * A query is modelled as the sequence of rows it would return, a row as
 * its values by column name.
 */
module Query {
  import opened Wrappers
  import opened Crypto
  import opened EfModel
  import opened Hashing
  import opened ShadowSync

  type Row = map<string, Value>

  /** `EF.Property<string>(e, column) == hash`, as the database evaluates it: a null or absent column never matches. */
  predicate ColumnEquals(row: Row, column: string, hash: string)
  {
    Lookup(row, column) == Some(TextValue(hash))
  }

  /** `query.Where(e => EF.Property<string>(e, column) == hash)`. */
  function WhereColumnEquals(query: seq<Row>, column: string, hash: string): (r: seq<Row>)
    ensures forall row :: row in r <==> row in query && ColumnEquals(row, column, hash)
    ensures |r| <= |query|
  {
    if query == [] then []
    else (if ColumnEquals(query[0], column, hash) then [query[0]] else []) + WhereColumnEquals(query[1..], column, hash)
  }

  /** Filtering keeps the order of the rows: it distributes over concatenation. */
  lemma {:induction false} WhereDistributes(a: seq<Row>, b: seq<Row>, column: string, hash: string)
    ensures WhereColumnEquals(a + b, column, hash) == WhereColumnEquals(a, column, hash) + WhereColumnEquals(b, column, hash)
    decreases |a|
  {
    if a == [] {
      assert a + b == b;
    } else {
      assert (a + b)[0] == a[0];
      assert (a + b)[1..] == a[1..] + b;
      WhereDistributes(a[1..], b, column, hash);
    }
  }

  /** Filtering twice by the same condition is filtering once. */
  lemma {:induction false} WhereIdempotent(query: seq<Row>, column: string, hash: string)
    ensures WhereColumnEquals(WhereColumnEquals(query, column, hash), column, hash) == WhereColumnEquals(query, column, hash)
    decreases |query|
  {
    if query != [] {
      var head := if ColumnEquals(query[0], column, hash) then [query[0]] else [];
      WhereDistributes(head, WhereColumnEquals(query[1..], column, hash), column, hash);
      WhereIdempotent(query[1..], column, hash);
      if head != [] {
        assert head[1..] == [];
      }
    }
  }

  /**
   * `WherePdEquals`: fails when the salt is missing, whatever the query;
   * otherwise keeps exactly the rows whose `<propertyName>ShadowHash`
   * column holds the value's hash. Whether the property is marked
   * queryable is not checked.
   */
  function WherePdEquals(query: seq<Row>, propertyName: string, value: string, salt: Option<string>, prims: HashPrimitives)
    : (r: Result<seq<Row>, HashError>)
    ensures r.Failure? <==> salt.None?
    ensures r.Failure? ==> r.error == MissingSalt(EnvKey)
    ensures r.Success? ==> forall row :: row in r.value <==>
      row in query && ColumnEquals(row, ShadowName(propertyName), HmacSha256Hash(prims, salt, value).value)
  {
    var shadowPropertyName := ShadowName(propertyName);
    match HmacSha256Hash(prims, salt, value)
    case Failure(e) => Failure(e)
    case Success(h) => Success(WhereColumnEquals(query, shadowPropertyName, h))
  }

  /**
   * The round trip the feature exists for: after a save with a salt, the
   * row of an added or modified entity whose queryable property holds a
   * non-blank text (and has a shadow column) is found by `WherePdEquals`
   * on that property and that text.
   */
  lemma SavedRowIsFound(model: seq<EntityType>, entries: seq<Entry>, salt: string, prims: HashPrimitives,
                        i: nat, et: EntityType, p: Property, query: seq<Row>)
    requires i < |entries| && Eligible(entries[i])
    requires FindEntityType(model, entries[i].entityClrType) == Some(et)
    requires UniqueNames(et)
    requires p in et.properties && Hashed(p)
    requires forall q :: q in et.properties && Hashed(q) ==> ShadowName(q.name) != p.name
    requires NeedsHash(et, p, entries[i].currentValues)
    requires var r := SyncEntries(model, entries, Some(salt), prims).0; |r| == |entries| && r[i].currentValues in query
    ensures var r := SyncEntries(model, entries, Some(salt), prims).0;
      var found := WherePdEquals(query, p.name, ReadOriginal(p, entries[i].currentValues), Some(salt), prims);
      found.Success? && r[i].currentValues in found.value
  {
    SyncedShadowHash(model, entries, salt, prims, i, et, p);
  }

  /**
   * A row whose shadow column holds the hash of `stored` is found for
   * `value` exactly when the two texts have the same keyed digest: the hex
   * rendering neither adds nor hides a match.
   */
  lemma MatchIffSameDigest(row: Row, propertyName: string, stored: string, value: string, salt: string, prims: HashPrimitives)
    requires ColumnEquals(row, ShadowName(propertyName), HmacSha256Hash(prims, Some(salt), stored).value)
    ensures var found := WherePdEquals([row], propertyName, value, Some(salt), prims);
      (row in found.value) <==>
        prims.hmacSha256(prims.utf8(salt), prims.utf8(stored)) == prims.hmacSha256(prims.utf8(salt), prims.utf8(value))
  {
    SameHashIffSameDigest(prims, salt, stored, value);
  }
}
