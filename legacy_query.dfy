/**
 * `QueryableExt.WherePdEquals` of the earlier tree: the same filter over
 * the `<Name>ShadowHash` column, compared with the unkeyed SHA-256 hex of
 * the value. It needs no configuration and never fails.
 */
module LegacyQuery {
  import opened Crypto
  import opened EfModel
  import opened LegacyHashing
  import opened Query

  function LegacyWherePdEquals(query: seq<Row>, propertyName: string, value: string, prims: HashPrimitives): (r: seq<Row>)
    ensures forall row :: row in r <==> row in query && ColumnEquals(row, ShadowName(propertyName), Sha256Hash(prims, value))
  {
    var shadowPropertyName := ShadowName(propertyName);
    WhereColumnEquals(query, shadowPropertyName, Sha256Hash(prims, value))
  }

  /** A row holding the hash of `stored` is found for `value` exactly when the SHA-256 digests agree. */
  lemma LegacyMatchIffSameDigest(row: Row, propertyName: string, stored: string, value: string, prims: HashPrimitives)
    requires ColumnEquals(row, ShadowName(propertyName), Sha256Hash(prims, stored))
    ensures row in LegacyWherePdEquals([row], propertyName, value, prims) <==>
      prims.sha256(prims.utf8(stored)) == prims.sha256(prims.utf8(value))
  {
    LegacyHashing.SameHashIffSameDigest(prims, stored, value);
  }
}
