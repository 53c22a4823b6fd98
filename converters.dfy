/**
 * The protecting value converters of the Klean tree
 * (`StringDataProtectionValueConverter`, `ByteArrayDataProtectionValueConverter`).
 *
 * Two views of the same converters: as functions (what `ConvertToProvider`
 * and `ConvertFromProvider` compute, with the round-trip they complete), and
 * as tags installed in the model (what their constructors accept).
 */
module Converters {
  import opened Wrappers
  import opened Crypto
  import opened EfModel

  /** A read that fails: `Unprotect` rejected the ciphertext, or an intermediary could not convert back. */
  datatype ReadError = UnprotectFailed(cause: CryptoError) | ConversionFailed(message: string)

  /** A value converter between a model type `T` and a provider type `P`. */
  datatype ValueConverter<!T, !P> = ValueConverter(
    convertToProvider: T -> P,
    convertFromProvider: P -> Result<T, ReadError>)

  /** Reading back what was written for `x` gives `x`. */
  ghost predicate RoundTripsAt<T, P>(c: ValueConverter<T, P>, x: T)
  {
    c.convertFromProvider(c.convertToProvider(x)) == Success(x)
  }

  /** Passes an `Unprotect` failure on unchanged (it is not caught). */
  function Unprotected<T>(r: Result<T, CryptoError>): Result<T, ReadError>
  {
    match r
    case Success(v) => Success(v)
    case Failure(e) => Failure(UnprotectFailed(e))
  }

  /** The string converter as shown: string to string, `Protect` and `Unprotect` only. */
  function StringDataProtectionConverter(p: DataProtector): ValueConverter<string, string>
  {
    ValueConverter(s => p.protectText(s), c => Unprotected(p.unprotectText(c)))
  }

  /**
   * The generic string converter the model builder instantiates with an
   * intermediary: protect after the intermediary, unprotect before it.
   */
  function StringDataProtectionConverterVia<T>(p: DataProtector, inner: ValueConverter<T, string>): ValueConverter<T, string>
  {
    ValueConverter(
      x => p.protectText(inner.convertToProvider(x)),
      c => match p.unprotectText(c)
           case Failure(e) => Failure(UnprotectFailed(e))
           case Success(s) => inner.convertFromProvider(s))
  }

  /** The byte[] converter as shown: an optional intermediary from byte[] to byte[]. */
  function ByteArrayDataProtectionConverter(p: DataProtector, inner: Option<ValueConverter<Bytes, Bytes>>): ValueConverter<Bytes, Bytes>
  {
    match inner
    case None => ValueConverter(b => p.protect(b), c => Unprotected(p.unprotect(c)))
    case Some(i) => ByteArrayDataProtectionConverterVia(p, i)
  }

  /** The generic byte[] converter the model builder instantiates with an intermediary. */
  function ByteArrayDataProtectionConverterVia<T>(p: DataProtector, inner: ValueConverter<T, Bytes>): ValueConverter<T, Bytes>
  {
    ValueConverter(
      x => p.protect(inner.convertToProvider(x)),
      c => match p.unprotect(c)
           case Failure(e) => Failure(UnprotectFailed(e))
           case Success(b) => inner.convertFromProvider(b))
  }

  /** decode(encode(s)) == s for the string converter, given the protector law. */
  lemma StringRoundTrip(p: DataProtector, s: string)
    requires Sound(p)
    ensures RoundTripsAt(StringDataProtectionConverter(p), s)
  {
    assert p.unprotectText(p.protectText(s)) == Success(s);
  }

  /** With an intermediary, the string converter round-trips wherever the intermediary does. */
  lemma StringViaRoundTrip<T>(p: DataProtector, inner: ValueConverter<T, string>, x: T)
    requires Sound(p)
    requires RoundTripsAt(inner, x)
    ensures RoundTripsAt(StringDataProtectionConverterVia(p, inner), x)
  {
    assert p.unprotectText(p.protectText(inner.convertToProvider(x))) == Success(inner.convertToProvider(x));
  }

  /** The byte[] converter round-trips with no intermediary, and wherever its intermediary does. */
  lemma ByteArrayRoundTrip(p: DataProtector, inner: Option<ValueConverter<Bytes, Bytes>>, b: Bytes)
    requires Sound(p)
    requires inner.Some? ==> RoundTripsAt(inner.value, b)
    ensures RoundTripsAt(ByteArrayDataProtectionConverter(p, inner), b)
  {
    match inner
    case None =>
      assert p.unprotect(p.protect(b)) == Success(b);
    case Some(i) =>
      ByteArrayViaRoundTrip(p, i, b);
  }

  lemma ByteArrayViaRoundTrip<T>(p: DataProtector, inner: ValueConverter<T, Bytes>, x: T)
    requires Sound(p)
    requires RoundTripsAt(inner, x)
    ensures RoundTripsAt(ByteArrayDataProtectionConverterVia(p, inner), x)
  {
    assert p.unprotect(p.protect(inner.convertToProvider(x))) == Success(inner.convertToProvider(x));
  }

  /**
   * A rejected ciphertext is reported as such by every protecting converter,
   * never turned into a value or masked by the intermediary.
   */
  lemma UnprotectFailurePropagates<T>(p: DataProtector, innerText: ValueConverter<T, string>, innerBytes: ValueConverter<T, Bytes>, text: string, bytes: Bytes)
    ensures p.unprotectText(text).Failure? ==>
      && StringDataProtectionConverter(p).convertFromProvider(text) == Failure(UnprotectFailed(p.unprotectText(text).error))
      && StringDataProtectionConverterVia(p, innerText).convertFromProvider(text) == Failure(UnprotectFailed(p.unprotectText(text).error))
    ensures p.unprotect(bytes).Failure? ==>
      && ByteArrayDataProtectionConverter(p, None).convertFromProvider(bytes) == Failure(UnprotectFailed(p.unprotect(bytes).error))
      && ByteArrayDataProtectionConverterVia(p, innerBytes).convertFromProvider(bytes) == Failure(UnprotectFailed(p.unprotect(bytes).error))
  {
  }

  /**
   * Constructing `StringDataProtectionValueConverter<T>(protector, inner)`:
   * it keeps the inner converter and, like its byte[] sibling, refuses one
   * that does not convert to string. How it reads the inner converter's
   * provider type is not shown; the model takes the type the model builder
   * already read, so a converter class of either shape is accepted.
   */
  function NewStringConverter(purpose: string, inner: Option<ConverterTag>): (r: Result<ConverterTag, SchemaError>)
    ensures r.Success? <==> (inner.None? || ProviderType(inner.value) == StringType)
    ensures r.Success? ==> r.value == StringProtection(purpose, inner) && ProviderType(r.value) == StringType
    ensures r.Failure? ==> inner.Some? && r.error == IntermediaryTargetMismatch(StringType, ProviderType(inner.value))
  {
    if inner.Some? && ProviderType(inner.value) != StringType then
      Failure(IntermediaryTargetMismatch(StringType, ProviderType(inner.value)))
    else
      Success(StringProtection(purpose, inner))
  }

  /**
   * Constructing `ByteArrayDataProtectionValueConverter(protector, inner)`:
   * without an inner converter there is no check; with one, the second
   * generic argument of the inner converter's own class is read, which is
   * out of range unless that class is a closed `ValueConverter<TModel,
   * TProvider>`, and it must be byte[].
   */
  function NewByteArrayConverter(purpose: string, inner: Option<ConverterTag>): (r: Result<ConverterTag, SchemaError>)
    ensures r.Success? <==> (inner.None? || OwnGenericProvider(inner.value) == Some(ByteArrayType))
    ensures r.Success? ==> r.value == ByteArrayProtection(purpose, inner) && ProviderType(r.value) == ByteArrayType
    ensures r == Failure(GenericArgumentOutOfRange) <==> inner.Some? && OwnGenericProvider(inner.value).None?
    ensures r.Failure? && r.error != GenericArgumentOutOfRange ==>
      inner.Some? && r.error == IntermediaryTargetMismatch(ByteArrayType, ProviderType(inner.value))
  {
    if inner == None then Success(ByteArrayProtection(purpose, None))
    else match OwnGenericProvider(inner.value)
      case None => Failure(GenericArgumentOutOfRange)
      case Some(convertTo) =>
        if convertTo != ByteArrayType then Failure(IntermediaryTargetMismatch(ByteArrayType, convertTo))
        else Success(ByteArrayProtection(purpose, inner))
  }
}
