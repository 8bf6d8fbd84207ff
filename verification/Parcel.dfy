/**
 The IPC parcel: a sequence of typed tokens with a read cursor.

 The parcel implementation is not part of this model. Two things about it are assumed: writing
 never runs out of space, and a parcelable object travels behind a marker that tells null from
 non-null. What a read returns when the next token is of another kind, or when there is none, is
 left entirely open: it is given by a function `Garble`, and every statement about decoding is made
 for all such functions.
 */
module Parcels {
  import opened Wrappers

  const WORD_RANGE := 0x1_0000_0000

  type uint32 = n: nat | n < 0x1_0000_0000

  /** `OHOS::Uri` and `OHOS::AAFwk::Want`, opaque but for the text of a Uri. */
  datatype Uri = Uri(text: string)

  datatype Want = Want(content: string)

  datatype Token =
    | Word(w: uint32)
    | Str(s: string)
    | UriBody(uri: Uri)
    | WantBody(want: Want)

  /** What one ill-typed read yields, and how many tokens it consumes. */
  datatype Misread = Misread(word: uint32, text: string, uri: Option<Uri>, want: Option<Want>, skip: nat)

  type Garble = seq<Token> -> Misread

  /** The value of a read together with the tokens it leaves. */
  datatype Read<+T> = Read(value: T, rest: seq<Token>)

  function Skip(ts: seq<Token>, n: nat): seq<Token>
  {
    if n <= |ts| then ts[n..] else []
  }

  function ReadWord(g: Garble, ts: seq<Token>): Read<uint32>
  {
    if ts != [] && ts[0].Word? then Read(ts[0].w, ts[1..]) else Read(g(ts).word, Skip(ts, g(ts).skip))
  }

  function ReadText(g: Garble, ts: seq<Token>): Read<string>
  {
    if ts != [] && ts[0].Str? then Read(ts[0].s, ts[1..]) else Read(g(ts).text, Skip(ts, g(ts).skip))
  }

  function ReadUriBody(g: Garble, ts: seq<Token>): Read<Option<Uri>>
  {
    if ts != [] && ts[0].UriBody? then Read(Some(ts[0].uri), ts[1..]) else Read(g(ts).uri, Skip(ts, g(ts).skip))
  }

  function ReadWantBody(g: Garble, ts: seq<Token>): Read<Option<Want>>
  {
    if ts != [] && ts[0].WantBody? then Read(Some(ts[0].want), ts[1..]) else Read(g(ts).want, Skip(ts, g(ts).skip))
  }

  /** `ReadParcelable<Uri>`: a zero marker means null, otherwise the object follows. */
  function ReadUri(g: Garble, ts: seq<Token>): Read<Option<Uri>>
  {
    var marker := ReadWord(g, ts);
    if marker.value == 0 then Read(None, marker.rest) else ReadUriBody(g, marker.rest)
  }

  /** `ReadParcelable<Want>`. */
  function ReadWant(g: Garble, ts: seq<Token>): Read<Option<Want>>
  {
    var marker := ReadWord(g, ts);
    if marker.value == 0 then Read(None, marker.rest) else ReadWantBody(g, marker.rest)
  }

  /** No read hands back more tokens than there were. */
  lemma ReadsNeverGrow(g: Garble, ts: seq<Token>)
    ensures |ReadWord(g, ts).rest| <= |ts| && |ReadText(g, ts).rest| <= |ts|
    ensures |ReadUri(g, ts).rest| <= |ts| && |ReadWant(g, ts).rest| <= |ts|
  {
    var after := ReadWord(g, ts).rest;
    assert |ReadUriBody(g, after).rest| <= |after| && |ReadWantBody(g, after).rest| <= |after|;
  }

  class Parcel {
    const garble: Garble
    var tokens: seq<Token>
    var cursor: nat

    ghost predicate Valid()
      reads this
    {
      cursor <= |tokens|
    }

    ghost function Unread(): seq<Token>
      requires Valid()
      reads this
    {
      tokens[cursor..]
    }

    constructor (garble: Garble)
      ensures Valid() && tokens == [] && cursor == 0 && this.garble == garble
    {
      this.garble := garble;
      tokens, cursor := [], 0;
    }

    method WriteUint32(w: uint32)
      requires Valid()
      modifies this`tokens
      ensures Valid() && tokens == old(tokens) + [Word(w)]
    {
      tokens := tokens + [Word(w)];
    }

    method WriteString16(s: string)
      requires Valid()
      modifies this`tokens
      ensures Valid() && tokens == old(tokens) + [Str(s)]
    {
      tokens := tokens + [Str(s)];
    }

    method WriteUri(uri: Uri)
      requires Valid()
      modifies this`tokens
      ensures Valid() && tokens == old(tokens) + [Word(1), UriBody(uri)]
    {
      tokens := tokens + [Word(1), UriBody(uri)];
    }

    method WriteWant(want: Want)
      requires Valid()
      modifies this`tokens
      ensures Valid() && tokens == old(tokens) + [Word(1), WantBody(want)]
    {
      tokens := tokens + [Word(1), WantBody(want)];
    }

    /** Consumes `n` tokens, or all that are left. */
    method Advance(n: nat)
      requires Valid()
      modifies this`cursor
      ensures Valid() && Unread() == Skip(old(Unread()), n)
    {
      cursor := if n <= |tokens| - cursor then cursor + n else |tokens|;
    }

    method ReadUint32() returns (w: uint32)
      requires Valid()
      modifies this`cursor
      ensures Valid() && Read(w, Unread()) == ReadWord(garble, old(Unread()))
    {
      if cursor < |tokens| && tokens[cursor].Word? {
        w, cursor := tokens[cursor].w, cursor + 1;
      } else {
        var misread := garble(tokens[cursor..]);
        w := misread.word;
        Advance(misread.skip);
      }
    }

    method ReadString16() returns (s: string)
      requires Valid()
      modifies this`cursor
      ensures Valid() && Read(s, Unread()) == ReadText(garble, old(Unread()))
    {
      if cursor < |tokens| && tokens[cursor].Str? {
        s, cursor := tokens[cursor].s, cursor + 1;
      } else {
        var misread := garble(tokens[cursor..]);
        s := misread.text;
        Advance(misread.skip);
      }
    }

    method ReadUriParcelable() returns (uri: Option<Uri>)
      requires Valid()
      modifies this`cursor
      ensures Valid() && Read(uri, Unread()) == ReadUri(garble, old(Unread()))
    {
      var marker := ReadUint32();
      if marker == 0 {
        return None;
      }
      if cursor < |tokens| && tokens[cursor].UriBody? {
        uri, cursor := Some(tokens[cursor].uri), cursor + 1;
      } else {
        var misread := garble(tokens[cursor..]);
        uri := misread.uri;
        Advance(misread.skip);
      }
    }

    method ReadWantParcelable() returns (want: Option<Want>)
      requires Valid()
      modifies this`cursor
      ensures Valid() && Read(want, Unread()) == ReadWant(garble, old(Unread()))
    {
      var marker := ReadUint32();
      if marker == 0 {
        return None;
      }
      if cursor < |tokens| && tokens[cursor].WantBody? {
        want, cursor := Some(tokens[cursor].want), cursor + 1;
      } else {
        var misread := garble(tokens[cursor..]);
        want := misread.want;
        Advance(misread.skip);
      }
    }
  }
}
