/**
 One clipboard record: construction with its length limits, text conversion, and the record codec.

 A record never changes once it is built, so it is modelled as a value.
 */
module PasteDataRecords {
  import opened Wrappers
  import opened Parcels

  const MIMETYPE_TEXT_HTML := "text/html"
  const MIMETYPE_TEXT_PLAIN := "text/plain"
  const MIMETYPE_TEXT_URI := "text/uri"
  const MIMETYPE_TEXT_WANT := "text/want"

  const MAX_TEXT_LEN := 500 * 1024

  datatype Record = Record(
    mimeType: string,
    htmlText: Option<string>,
    want: Option<Want>,
    plainText: Option<string>,
    uri: Option<Uri>)
  {
    function ConvertToText(): string
    {
      if htmlText.Some? then htmlText.value
      else if plainText.Some? then plainText.value
      else if uri.Some? then uri.value.text
      else ""
    }

    predicate KnownMimeType()
    {
      mimeType == MIMETYPE_TEXT_PLAIN || mimeType == MIMETYPE_TEXT_HTML
      || mimeType == MIMETYPE_TEXT_URI || mimeType == MIMETYPE_TEXT_WANT
    }

    /** The MIME type is known and the payload it announces is there. */
    predicate Complete()
    {
      (mimeType == MIMETYPE_TEXT_PLAIN && plainText.Some?)
      || (mimeType == MIMETYPE_TEXT_HTML && htmlText.Some?)
      || (mimeType == MIMETYPE_TEXT_URI && uri.Some?)
      || (mimeType == MIMETYPE_TEXT_WANT && want.Some?)
    }

    /** The record stripped of every payload but the one its MIME type announces. */
    function Canonical(): Record
    {
      Record(mimeType,
             if mimeType == MIMETYPE_TEXT_HTML then htmlText else None,
             if mimeType == MIMETYPE_TEXT_WANT then want else None,
             if mimeType == MIMETYPE_TEXT_PLAIN then plainText else None,
             if mimeType == MIMETYPE_TEXT_URI then uri else None)
    }

    /** Exactly one payload, the one a known MIME type announces. */
    ghost predicate IsCanonical()
    {
      Complete() && this == Canonical()
    }

    /** Appends the record to the parcel; fails on an unknown MIME type, which is then already written. */
    method Marshalling(parcel: Parcel) returns (ok: bool)
      requires parcel.Valid()
      modifies parcel`tokens
      ensures parcel.Valid() && parcel.tokens == old(parcel.tokens) + RecordTokens(this)
      ensures ok == KnownMimeType()
    {
      parcel.WriteString16(mimeType);
      if mimeType == MIMETYPE_TEXT_PLAIN {
        if plainText.Some? {
          parcel.WriteString16(plainText.value);
        }
      } else if mimeType == MIMETYPE_TEXT_HTML {
        if htmlText.Some? {
          parcel.WriteString16(htmlText.value);
        }
      } else if mimeType == MIMETYPE_TEXT_URI {
        if uri.Some? {
          parcel.WriteUri(uri.value);
        }
      } else if mimeType == MIMETYPE_TEXT_WANT {
        if want.Some? {
          parcel.WriteWant(want.value);
        }
      } else {
        return false;
      }
      return true;
    }
  }

  const BLANK := Record("", None, None, None, None)

  function NewHtmlRecord(htmlText: string): Option<Record>
  {
    if |htmlText| >= MAX_TEXT_LEN then None
    else Some(Record(MIMETYPE_TEXT_HTML, Some(htmlText), None, None, None))
  }

  function NewWantRecord(want: Option<Want>): Option<Record>
  {
    Some(Record(MIMETYPE_TEXT_WANT, None, want, None, None))
  }

  function NewPlaintTextRecord(text: string): Option<Record>
  {
    if |text| >= MAX_TEXT_LEN then None
    else Some(Record(MIMETYPE_TEXT_PLAIN, None, None, Some(text), None))
  }

  function NewUriRecord(uri: Uri): Option<Record>
  {
    Some(Record(MIMETYPE_TEXT_URI, None, None, None, Some(uri)))
  }

  /** The wire form of a record: its MIME type, then the announced payload if it is not null. */
  function RecordTokens(r: Record): seq<Token>
  {
    [Str(r.mimeType)] +
    if r.mimeType == MIMETYPE_TEXT_PLAIN && r.plainText.Some? then [Str(r.plainText.value)]
    else if r.mimeType == MIMETYPE_TEXT_HTML && r.htmlText.Some? then [Str(r.htmlText.value)]
    else if r.mimeType == MIMETYPE_TEXT_URI && r.uri.Some? then [Word(1), UriBody(r.uri.value)]
    else if r.mimeType == MIMETYPE_TEXT_WANT && r.want.Some? then [Word(1), WantBody(r.want.value)]
    else []
  }

  /** What decoding a record from `ts` yields, null on failure, and the tokens it leaves. */
  function ReadRecord(g: Garble, ts: seq<Token>): Read<Option<Record>>
  {
    var mime := ReadText(g, ts);
    var r := BLANK.(mimeType := mime.value);
    if mime.value == MIMETYPE_TEXT_HTML then
      var text := ReadText(g, mime.rest);
      Read(Some(r.(htmlText := Some(text.value))), text.rest)
    else if mime.value == MIMETYPE_TEXT_PLAIN then
      var text := ReadText(g, mime.rest);
      Read(Some(r.(plainText := Some(text.value))), text.rest)
    else if mime.value == MIMETYPE_TEXT_URI then
      var uri := ReadUri(g, mime.rest);
      Read(if uri.value.None? then None else Some(r.(uri := uri.value)), uri.rest)
    else if mime.value == MIMETYPE_TEXT_WANT then
      var want := ReadWant(g, mime.rest);
      Read(if want.value.None? then None else Some(r.(want := want.value)), want.rest)
    else
      Read(None, mime.rest)
  }

  /** `Unmarshalling` with the `ReadFromParcel` it runs on a blank record. */
  method UnmarshalRecord(parcel: Parcel) returns (result: Option<Record>)
    requires parcel.Valid()
    modifies parcel`cursor
    ensures parcel.Valid()
    ensures Read(result, parcel.Unread()) == ReadRecord(parcel.garble, old(parcel.Unread()))
  {
    var record := BLANK;
    var mimeType := parcel.ReadString16();
    record := record.(mimeType := mimeType);
    if mimeType == MIMETYPE_TEXT_HTML {
      var htmlText := parcel.ReadString16();
      record := record.(htmlText := Some(htmlText));
    } else if mimeType == MIMETYPE_TEXT_PLAIN {
      var plainText := parcel.ReadString16();
      record := record.(plainText := Some(plainText));
    } else if mimeType == MIMETYPE_TEXT_URI {
      var uri := parcel.ReadUriParcelable();
      if uri.None? {
        return None;
      }
      record := record.(uri := uri);
    } else if mimeType == MIMETYPE_TEXT_WANT {
      var want := parcel.ReadWantParcelable();
      if want.None? {
        return None;
      }
      record := record.(want := want);
    } else {
      return None;
    }
    return Some(record);
  }

  /** Whatever tokens it is given, the decoder emits canonical records only. */
  lemma DecodedRecordIsCanonical(g: Garble, ts: seq<Token>)
    ensures var r := ReadRecord(g, ts).value; r.Some? ==> r.value.IsCanonical()
  {
    var mime := ReadText(g, ts);
    assert mime.value == MIMETYPE_TEXT_HTML ==> ReadRecord(g, ts).value.Some?;
  }

  /**
   The codec is self-delimiting on exactly the complete records: decoding the encoding followed by
   any tokens returns the record stripped to its payload and leaves exactly those tokens. A record
   of known MIME type whose payload is null, such as `NewWantRecord(null)`, never survives.
   */
  lemma RecordRoundTripIff(g: Garble, r: Record, rest: seq<Token>)
    ensures ReadRecord(g, RecordTokens(r) + rest) == Read(Some(r.Canonical()), rest) <==> r.Complete()
  {
    var ts := RecordTokens(r) + rest;
    assert ts[0] == Str(r.mimeType);
    var mime := ReadText(g, ts);
    assert mime == Read(r.mimeType, ts[1..]);
    if r.Complete() {
      if r.mimeType == MIMETYPE_TEXT_PLAIN || r.mimeType == MIMETYPE_TEXT_HTML {
        assert ts[1].Str? && ts[2..] == rest;
        assert ts[1..][1..] == ts[2..];
      } else {
        assert ts[1] == Word(1) && ts[3..] == rest;
        assert ts[1..][1..][1..] == ts[3..];
      }
    } else {
      DecodedRecordIsCanonical(g, ts);
    }
  }

  /** No encoding of a canonical record starts another one. */
  lemma RecordEncodingIsPrefixFree(a: Record, b: Record, restA: seq<Token>, restB: seq<Token>)
    requires a.IsCanonical() && b.IsCanonical()
    requires RecordTokens(a) + restA == RecordTokens(b) + restB
    ensures a == b && restA == restB
  {
    var g: Garble := _ => Misread(0, "", None, None, 0);
    RecordRoundTripIff(g, a, restA);
    RecordRoundTripIff(g, b, restB);
  }

  /** The encodings of the records, one after the other. */
  function Concatenated(rs: seq<Record>): seq<Token>
  {
    if rs == [] then [] else RecordTokens(rs[0]) + Concatenated(rs[1..])
  }

  /** Concatenated encodings decode uniquely. */
  lemma {:induction false} ConcatenationsDecodeUniquely(a: seq<Record>, b: seq<Record>)
    requires forall i :: 0 <= i < |a| ==> a[i].IsCanonical()
    requires forall i :: 0 <= i < |b| ==> b[i].IsCanonical()
    requires Concatenated(a) == Concatenated(b)
    ensures a == b
    decreases |a|
  {
    hide RecordTokens;
    if a != [] {
      RecordHasTokens(a[0]);
    }
    if b != [] {
      RecordHasTokens(b[0]);
    }
    if a != [] && b != [] {
      RecordEncodingIsPrefixFree(a[0], b[0], Concatenated(a[1..]), Concatenated(b[1..]));
      ConcatenationsDecodeUniquely(a[1..], b[1..]);
      assert a == [a[0]] + a[1..] && b == [b[0]] + b[1..];
    }
  }

  lemma RecordHasTokens(r: Record)
    ensures RecordTokens(r) != [] && RecordTokens(r)[0] == Str(r.mimeType)
  {
  }

  /** The MIME types the codec knows, by name, and what it takes for a record of each to be complete. */
  lemma KnownTypesByName(r: Record)
    ensures r.KnownMimeType()
            <==> r.mimeType == "text/html" || r.mimeType == "text/plain"
                 || r.mimeType == "text/uri" || r.mimeType == "text/want"
    ensures r.mimeType == "text/html" ==> (r.Complete() <==> r.htmlText.Some?)
    ensures r.mimeType == "text/plain" ==> (r.Complete() <==> r.plainText.Some?)
    ensures r.mimeType == "text/uri" ==> (r.Complete() <==> r.uri.Some?)
    ensures r.mimeType == "text/want" ==> (r.Complete() <==> r.want.Some?)
    ensures r.Complete() ==> r.KnownMimeType()
  {
  }

  /**
   The factories build the record of their kind: the MIME type by name, its argument as the payload of
   that type and no other payload; text of 512000 characters or more is refused.
   */
  lemma FactoriesBuildTheirKind(s: string, uri: Uri, want: Option<Want>)
    ensures NewHtmlRecord(s)
            == if |s| >= 512000 then None else Some(Record("text/html", Some(s), None, None, None))
    ensures NewPlaintTextRecord(s)
            == if |s| >= 512000 then None else Some(Record("text/plain", None, None, Some(s), None))
    ensures NewUriRecord(uri) == Some(Record("text/uri", None, None, None, Some(uri)))
    ensures NewWantRecord(want) == Some(Record("text/want", None, want, None, None))
  {
  }

  /** The text of a record is its HTML, else its plain text, else that of its Uri, else empty. */
  lemma TextOfRecord(r: Record)
    ensures r.htmlText.Some? ==> r.ConvertToText() == r.htmlText.value
    ensures r.htmlText.None? && r.plainText.Some? ==> r.ConvertToText() == r.plainText.value
    ensures r.htmlText.None? && r.plainText.None? && r.uri.Some? ==> r.ConvertToText() == r.uri.value.text
    ensures r.htmlText.None? && r.plainText.None? && r.uri.None? ==> r.ConvertToText() == ""
  {
  }

  /** The factories give null exactly for over-long text, and otherwise hand back their argument. */
  lemma FactoriesKeepPayload(s: string, uri: Uri, want: Want)
    ensures NewHtmlRecord(s).None? <==> |s| >= 512000
    ensures NewPlaintTextRecord(s).None? <==> |s| >= 512000
    ensures |s| < 512000 ==> NewHtmlRecord(s).value.IsCanonical() && NewHtmlRecord(s).value.ConvertToText() == s
    ensures |s| < 512000 ==>
              NewPlaintTextRecord(s).value.IsCanonical() && NewPlaintTextRecord(s).value.ConvertToText() == s
    ensures NewUriRecord(uri).value.IsCanonical() && NewUriRecord(uri).value.ConvertToText() == uri.text
    ensures NewWantRecord(Some(want)).value.IsCanonical() && NewWantRecord(Some(want)).value.ConvertToText() == ""
    ensures !NewWantRecord(None).value.Complete()
  {
  }
}
