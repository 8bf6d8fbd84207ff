/** The PasteData object: its record list and MIME cache updated in place, and its wire methods. */
module PasteDatas {
  import opened Wrappers
  import opened Parcels
  import opened PasteDataRecords
  import opened PasteDataModel
  import opened PasteDataCodec

  /** `WriteParcelable` on a record pointer. */
  method WriteItem(parcel: Parcel, item: Option<Record>) returns (ok: bool)
    requires parcel.Valid()
    modifies parcel`tokens
    ensures parcel.Valid() && parcel.tokens == old(parcel.tokens) + ItemTokens(item)
    ensures ok == EncodableItem(item)
  {
    hide RecordTokens;
    if item.None? {
      parcel.WriteUint32(0);
      return true;
    }
    parcel.WriteUint32(1);
    ok := item.value.Marshalling(parcel);
  }

  /** `ReadParcelable<PasteDataRecord>`. */
  method ReadItemFrom(parcel: Parcel) returns (item: Option<Record>)
    requires parcel.Valid()
    modifies parcel`cursor
    ensures parcel.Valid()
    ensures Read(item, parcel.Unread()) == ReadItem(parcel.garble, old(parcel.Unread()))
  {
    var marker := parcel.ReadUint32();
    if marker == 0 {
      return None;
    }
    item := UnmarshalRecord(parcel);
  }

  class PasteData {
    var records: seq<Option<Record>>
    var mimeTypes: seq<string>

    function Value(): Contents
      reads this
    {
      Contents(records, mimeTypes)
    }

    constructor ()
      ensures Value() == EMPTY
    {
      records, mimeTypes := [], [];
    }

    /** The vector constructor: takes the list as it is and leaves the cache empty. */
    constructor FromRecords(records: seq<Option<Record>>)
      ensures Value() == Contents(records, [])
    {
      this.records, mimeTypes := records, [];
    }

    /** The copy constructor, and assignment through `CopyFrom`. */
    constructor FromValue(c: Contents)
      ensures Value() == c
    {
      records, mimeTypes := c.records, c.mimeTypes;
    }

    method CopyFrom(c: Contents)
      modifies this
      ensures Value() == c
    {
      records, mimeTypes := c.records, c.mimeTypes;
    }

    method RefreshMimeProp()
      modifies this`mimeTypes
      ensures Value() == Refreshed(records)
    {
      var types := [];
      for i := 0 to |records|
        invariant types + MimesOf(records[i..]) == MimesOf(records)
      {
        if records[i].Some? {
          types := types + [records[i].value.mimeType];
        }
        assert records[i..][1..] == records[i + 1..];
      }
      mimeTypes := types;
    }

    method AddRecord(record: Option<Record>)
      modifies this
      ensures Value() == Mutator.AddRecord(record).Apply(old(Value()))
    {
      if record.None? {
        return;
      }
      records := [record] + records;
      if |records| > MAX_RECORD_NUM {
        records := records[..|records| - 1];
      }
      RefreshMimeProp();
    }

    method AddHtmlRecord(html: string)
      modifies this
      ensures Value() == AddHtml(html).Apply(old(Value()))
    {
      AddRecord(NewHtmlRecord(html));
    }

    method AddTextRecord(text: string)
      modifies this
      ensures Value() == AddText(text).Apply(old(Value()))
    {
      AddRecord(NewPlaintTextRecord(text));
    }

    method AddUriRecord(uri: Uri)
      modifies this
      ensures Value() == AddUri(uri).Apply(old(Value()))
    {
      AddRecord(NewUriRecord(uri));
    }

    method AddWantRecord(want: Option<Want>)
      modifies this
      ensures Value() == AddWant(want).Apply(old(Value()))
    {
      AddRecord(NewWantRecord(want));
    }

    /** The overload that copies a record which cannot be null. */
    method AddRecordCopy(record: Record)
      modifies this
      ensures Value() == Mutator.AddRecord(Some(record)).Apply(old(Value()))
    {
      AddRecord(Some(record));
      RefreshMimeProp();
    }

    method RemoveRecordAt(number: nat) returns (ok: bool)
      modifies this
      ensures Value() == Mutator.RemoveRecordAt(number).Apply(old(Value()))
      ensures ok == (number < |old(records)|)
    {
      if |records| > number {
        records := records[..number] + [None] + records[number..];
        RefreshMimeProp();
        return true;
      }
      return false;
    }

    method ReplaceRecordAt(number: nat, record: Option<Record>) returns (ok: bool)
      modifies this
      ensures Value() == Mutator.ReplaceRecordAt(number, record).Apply(old(Value()))
      ensures ok == (number < |old(records)|)
    {
      if |records| > number {
        records := records[number := record];
        RefreshMimeProp();
        return true;
      }
      return false;
    }

    method GetMimeTypes() returns (result: seq<string>)
      requires NoNulls(records)
      ensures result == MimesOf(records)
    {
      result := [];
      for i := 0 to |records|
        invariant result + MimesOf(records[i..]) == MimesOf(records)
      {
        result := result + [records[i].value.mimeType];
        assert records[i..][1..] == records[i + 1..];
      }
    }

    /** The scan the four primary getters and `HasMimeType` share. */
    method FindPrimary(mime: string) returns (found: Option<Record>)
      requires ScanSafe(records, mime)
      ensures found == FirstOfKind(records, mime)
    {
      for i := 0 to |records|
        invariant FirstOfKind(records[i..], mime) == FirstOfKind(records, mime)
        invariant ScanSafe(records[i..], mime)
      {
        if records[i].value.mimeType == mime {
          return records[i];
        }
        assert records[i..][1..] == records[i + 1..];
      }
      return None;
    }

    method GetPrimaryHtml() returns (html: Option<string>)
      requires ScanSafe(records, MIMETYPE_TEXT_HTML)
      ensures var found := FirstOfKind(records, MIMETYPE_TEXT_HTML);
              html == if found.Some? then found.value.htmlText else None
    {
      var found := FindPrimary(MIMETYPE_TEXT_HTML);
      html := if found.Some? then found.value.htmlText else None;
    }

    method GetPrimaryWant() returns (want: Option<Want>)
      requires ScanSafe(records, MIMETYPE_TEXT_WANT)
      ensures var found := FirstOfKind(records, MIMETYPE_TEXT_WANT);
              want == if found.Some? then found.value.want else None
    {
      var found := FindPrimary(MIMETYPE_TEXT_WANT);
      want := if found.Some? then found.value.want else None;
    }

    method GetPrimaryText() returns (text: Option<string>)
      requires ScanSafe(records, MIMETYPE_TEXT_PLAIN)
      ensures var found := FirstOfKind(records, MIMETYPE_TEXT_PLAIN);
              text == if found.Some? then found.value.plainText else None
    {
      var found := FindPrimary(MIMETYPE_TEXT_PLAIN);
      text := if found.Some? then found.value.plainText else None;
    }

    method GetPrimaryUri() returns (uri: Option<Uri>)
      requires ScanSafe(records, MIMETYPE_TEXT_URI)
      ensures var found := FirstOfKind(records, MIMETYPE_TEXT_URI);
              uri == if found.Some? then found.value.uri else None
    {
      var found := FindPrimary(MIMETYPE_TEXT_URI);
      uri := if found.Some? then found.value.uri else None;
    }

    method HasMimeType(mime: string) returns (has: bool)
      requires ScanSafe(records, mime)
      ensures has <==> mime in MimesOf(records)
    {
      var found := FindPrimary(mime);
      has := found.Some?;
      HasMimeTypeIffCached(records, mime);
    }

    method Marshalling(parcel: Parcel) returns (ok: bool)
      requires parcel.Valid()
      modifies parcel`tokens
      ensures parcel.Valid() && parcel.tokens == old(parcel.tokens) + Encode(records)
      ensures ok <==> Encodable(records)
    {
      hide ListTokens, ItemTokens, EncodableItem;
      parcel.WriteUint32(|records| % WORD_RANGE);
      assert records[0..] == records;
      for i := 0 to |records|
        invariant parcel.Valid()
        invariant parcel.tokens + ListTokens(records[i..]) == old(parcel.tokens) + Encode(records)
        invariant forall k :: 0 <= k < i ==> EncodableItem(records[k])
      {
        ListTokensFrom(records, i);
        var written := WriteItem(parcel, records[i]);
        if !written {
          return false;
        }
      }
      ListTokensFrom(records, |records|);
      return true;
    }

    method ReadFromParcel(parcel: Parcel) returns (ok: bool)
      requires parcel.Valid() && mimeTypes == []
      modifies this, parcel`cursor
      ensures parcel.Valid() && ok
      ensures Read(Value(), parcel.Unread()) == Decode(parcel.garble, old(parcel.Unread()))
    {
      hide DecodeLoop, ReadItem, Refreshed, Pushed;
      records := [];
      var length := parcel.ReadUint32();
      ghost var target := Decode(parcel.garble, old(parcel.Unread()));
      for i := 0 to length
        invariant parcel.Valid() && parcel.tokens == old(parcel.tokens)
        invariant DecodeLoop(parcel.garble, length - i, parcel.Unread(), Value()) == target
      {
        DecodeLoopRound(parcel.garble, length - i, parcel.Unread(), Value());
        var record := ReadItemFrom(parcel);
        if record.None? {
          continue;
        }
        AddRecordCopy(record.value);
      }
      DecodeLoopRound(parcel.garble, 0, parcel.Unread(), Value());
      return true;
    }

    static method Unmarshalling(parcel: Parcel) returns (pasteData: PasteData?)
      requires parcel.Valid()
      modifies parcel`cursor
      ensures parcel.Valid()
      ensures pasteData != null && fresh(pasteData)
      ensures Read(pasteData.Value(), parcel.Unread()) == Decode(parcel.garble, old(parcel.Unread()))
    {
      var created := new PasteData();
      var ok := created.ReadFromParcel(parcel);
      pasteData := created;
    }
  }
}
