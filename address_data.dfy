/**
 * `AddressData`, the value the tests store through an intermediary
 * converter: rendered as `Country-ZipCode`, parsed back by splitting on
 * '-' and accepting exactly two parts.
 */
module AddressModel {
  import opened Wrappers
  import opened Crypto
  import opened Converters
  import opened EfModel
  import Schema

  datatype AddressData = AddressData(country: string, zipCode: string)

  /** The FormatException of `Parse`. */
  datatype FormatError = FormatError(message: string)

  function ToString(a: AddressData): (s: string)
    ensures |s| == |a.country| + 1 + |a.zipCode|
  {
    a.country + "-" + a.zipCode
  }

  /** Occurrences of `sep` in `s`. */
  function Count(s: string, sep: char): nat
  {
    if s == [] then 0 else (if s[0] == sep then 1 else 0) + Count(s[1..], sep)
  }

  /**
   * `string.Split(char)`: the pieces between separators, empty ones
   * included, so one more piece than separators and none containing one.
   */
  function Split(s: string, sep: char): (parts: seq<string>)
    ensures |parts| == Count(s, sep) + 1
    ensures forall k :: 0 <= k < |parts| ==> sep !in parts[k]
  {
    if s == [] then [""]
    else
      var rest := Split(s[1..], sep);
      if s[0] == sep then [""] + rest
      else [[s[0]] + rest[0]] + rest[1..]
  }

  /** The pieces put back together with `sep` between them. */
  function Join(parts: seq<string>, sep: char): string
    requires |parts| >= 1
  {
    if |parts| == 1 then parts[0] else parts[0] + [sep] + Join(parts[1..], sep)
  }

  /** Splitting loses nothing: joining the pieces gives the string back. */
  lemma {:induction false} JoinSplit(s: string, sep: char)
    ensures Join(Split(s, sep), sep) == s
    decreases |s|
  {
    if s != [] {
      var rest := Split(s[1..], sep);
      JoinSplit(s[1..], sep);
      if s[0] == sep {
        assert ([""] + rest)[1..] == rest;
        assert s == [sep] + s[1..];
      } else {
        var parts := [[s[0]] + rest[0]] + rest[1..];
        if |rest| == 1 {
          assert s == [s[0]] + s[1..];
        } else {
          assert parts[1..] == rest[1..];
          assert Join(rest, sep) == rest[0] + [sep] + Join(rest[1..], sep);
          assert s == [s[0]] + s[1..];
        }
      }
    }
  }

  lemma {:induction false} CountAppend(a: string, b: string, sep: char)
    ensures Count(a + b, sep) == Count(a, sep) + Count(b, sep)
    decreases |a|
  {
    if a == [] {
      assert a + b == b;
    } else {
      assert (a + b)[1..] == a[1..] + b;
      CountAppend(a[1..], b, sep);
    }
  }

  lemma {:induction false} CountZero(s: string, sep: char)
    ensures Count(s, sep) == 0 <==> sep !in s
    decreases |s|
  {
    if s != [] {
      CountZero(s[1..], sep);
      assert s == [s[0]] + s[1..];
    }
  }

  /** `AddressData.Parse`: exactly two pieces around '-', or a format error. */
  function Parse(s: string): (r: Result<AddressData, FormatError>)
    ensures r.Success? <==> Count(s, '-') == 1
    ensures r.Success? ==> '-' !in r.value.country && '-' !in r.value.zipCode
    ensures r.Failure? ==> r.error == FormatError("Invalid format")
  {
    var parts := Split(s, '-');
    if |parts| == 2 then Success(AddressData(parts[0], parts[1]))
    else Failure(FormatError("Invalid format"))
  }

  /** Parsing a rendered address gives it back when neither field contains '-'. */
  lemma ParseToString(a: AddressData)
    requires '-' !in a.country && '-' !in a.zipCode
    ensures Parse(ToString(a)) == Success(a)
  {
    var s := ToString(a);
    CountZero(a.country, '-');
    CountZero(a.zipCode, '-');
    CountAppend(a.country, "-", '-');
    CountAppend(a.country + "-", a.zipCode, '-');
    var parts := Split(s, '-');
    JoinSplit(s, '-');
    assert parts[0] + "-" + parts[1] == a.country + "-" + a.zipCode;
    PieceFromJoin(parts[0], parts[1], a.country, a.zipCode);
  }

  /** Position of the first `sep` in `s`, or `|s|` when there is none. */
  function FirstIndex(s: string, sep: char): nat
  {
    if s == [] || s[0] == sep then 0 else 1 + FirstIndex(s[1..], sep)
  }

  lemma {:induction false} FirstIndexAfterField(x: string, y: string)
    requires '-' !in x
    ensures FirstIndex(x + "-" + y, '-') == |x|
    decreases |x|
  {
    if x != [] {
      assert (x + "-" + y)[1..] == x[1..] + "-" + y;
      FirstIndexAfterField(x[1..], y);
    }
  }

  /** Two dash-free pairs rendered the same way are the same pair. */
  lemma PieceFromJoin(x1: string, y1: string, x2: string, y2: string)
    requires '-' !in x1 && '-' !in x2
    requires x1 + "-" + y1 == x2 + "-" + y2
    ensures x1 == x2 && y1 == y2
  {
    var s := x1 + "-" + y1;
    FirstIndexAfterField(x1, y1);
    FirstIndexAfterField(x2, y2);
    assert x1 == s[..|x1|] == x2;
    assert y1 == s[|x1| + 1..] == y2;
  }

  /** Rendering a parsed address gives the text back. */
  lemma ToStringParse(s: string)
    requires Parse(s).Success?
    ensures ToString(Parse(s).value) == s
  {
    JoinSplit(s, '-');
    var parts := Split(s, '-');
    assert parts[1..] == [parts[1]];
  }

  /** A dash inside a field breaks the round trip: the rendering has three pieces. */
  lemma DashInFieldIsRejected()
    ensures Parse(ToString(AddressData("A-B", "1"))).Failure?
  {
    assert ToString(AddressData("A-B", "1")) == "A-B-1";
    assert Count("A-B-1", '-') == 2 by {
      assert "A-B-1"[1..] == "-B-1";
      assert "-B-1"[1..] == "B-1";
      assert "B-1"[1..] == "-1";
      assert "-1"[1..] == "1";
      assert "1"[1..] == "";
    }
  }

  /** `AddressToStringIntermediaryConverter` of the test context. */
  function AddressToStringConverter(): ValueConverter<AddressData, string>
  {
    ValueConverter(
      a => ToString(a),
      s => match Parse(s)
           case Success(a) => Success(a)
           case Failure(e) => Failure(ConversionFailed(e.message)))
  }

  /**
   * An address stored through the string protection converter with this
   * intermediary reads back as itself, for dash-free fields and a protector
   * that round-trips.
   */
  lemma AddressRoundTrip(p: DataProtector, a: AddressData)
    requires Sound(p)
    requires '-' !in a.country && '-' !in a.zipCode
    ensures RoundTripsAt(StringDataProtectionConverterVia(p, AddressToStringConverter()), a)
  {
    ParseToString(a);
    StringViaRoundTrip(p, AddressToStringConverter(), a);
  }

  /**
   * How the model builder sees the test context's `Address` property: a CLR
   * property of type `AddressData`, marked encrypted, carrying the
   * intermediary converter `AddressToStringIntermediaryConverter`, a
   * non-generic subclass of `ValueConverter<AddressData, string>`.
   */
  function AddressProperty(converterShape: ConverterClass): (p: Property)
    ensures p.converter.Some? && ProviderType(p.converter.value) == StringType
    ensures Metadata(p).supportsEncryption && !Metadata(p).supportsQuerying
  {
    Property("Address", OtherType("AddressData"), true, None,
      map[Policy.IsEncryptedAnnotationName := Policy.BoolAnnotation(true)],
      Some(HostConverter("AddressToStringIntermediaryConverter", StringType, converterShape)),
      true, NoIndex)
  }

  /**
   * The test configuration is protected through its intermediary; the same
   * conversion written as `HasConversion(to, from)`, a closed
   * `ValueConverter<AddressData, string>` instance, stops the pass at the
   * base-type read.
   */
  lemma AddressIntermediaryShapes()
    ensures var p := AddressProperty(DerivedNonGeneric);
      Schema.SelectConverter(p) == Success(Some(StringProtection(Schema.ProtectorPurpose, p.converter)))
    ensures Schema.SelectConverter(AddressProperty(ClosedGeneric)) == Failure(GenericArgumentOutOfRange)
  {
  }
}
