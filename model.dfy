/**
 * The gallery data model: the gallery and artwork records, the share-link codec
 * (`JSON.stringify`, UTF-8, Base64 and back) and the draft kept in the browser's local storage.
 */
module Model {
  import opened Wrappers
  import opened BinaryString
  import Utf8
  import Base64
  import opened Json

  /** One artwork; `room: None` is an absent `room` property. */
  datatype Artwork = Artwork(id: string, title: string, url: string, room: Option<string>)

  /** A gallery; `theme: None` is an absent `theme` property. */
  datatype Gallery = Gallery(name: string, theme: Option<string>, artworks: seq<Artwork>)

  /** The local-storage key of the draft. */
  const GalleryDraftKey: string := "gallery_draft_v1"

  // ---------------------------------------------------------------------------------------
  // The records as the JSON values `JSON.stringify` sees

  /** An artwork as a plain object, properties in declaration order; an absent room is no property. */
  function ArtworkToJson(a: Artwork): (v: Value)
    ensures Canonical(v) && v.JObject?
  {
    JObject([Member("id", JString(a.id)), Member("title", JString(a.title)), Member("url", JString(a.url))]
            + if a.room.Some? then [Member("room", JString(a.room.value))] else [])
  }

  /** The artworks as a JSON array's items, in order. */
  function ArtworksToJson(artworks: seq<Artwork>): (items: seq<Value>)
    ensures |items| == |artworks|
    ensures forall i :: 0 <= i < |artworks| ==> items[i] == ArtworkToJson(artworks[i])
  {
    seq(|artworks|, i requires 0 <= i < |artworks| => ArtworkToJson(artworks[i]))
  }

  /** A gallery as a plain object, properties in declaration order; an absent theme is no property. */
  function GalleryToJson(g: Gallery): (v: Value)
    ensures Canonical(v) && v.JObject?
  {
    var items := ArtworksToJson(g.artworks);
    JObject([Member("name", JString(g.name))]
            + (if g.theme.Some? then [Member("theme", JString(g.theme.value))] else [])
            + [Member("artworks", JArray(items))])
  }

  /** Reading the artwork's properties back gives its fields; an absent room reads as no property. */
  lemma ArtworkProperties(a: Artwork)
    ensures Lookup(ArtworkToJson(a), "id") == Some(JString(a.id))
    ensures Lookup(ArtworkToJson(a), "title") == Some(JString(a.title))
    ensures Lookup(ArtworkToJson(a), "url") == Some(JString(a.url))
    ensures Lookup(ArtworkToJson(a), "room") == if a.room.Some? then Some(JString(a.room.value)) else None
  {
    var ms := ArtworkToJson(a).members;
    var tail := if a.room.Some? then [Member("room", JString(a.room.value))] else [];
    assert ms[1..] == [Member("title", JString(a.title)), Member("url", JString(a.url))] + tail;
    assert ms[1..][1..] == [Member("url", JString(a.url))] + tail;
    assert ms[1..][1..][1..] == tail;
    assert LookupMember(tail, "room") == if a.room.Some? then Some(JString(a.room.value)) else None;
    LookupSkip(ms, "title");
    LookupSkip(ms, "url");
    LookupSkip(ms, "room");
    LookupSkip(ms[1..], "url");
    LookupSkip(ms[1..], "room");
    LookupSkip(ms[1..][1..], "room");
  }

  /** Reading the gallery's properties back gives its fields; an absent theme reads as no property. */
  lemma GalleryProperties(g: Gallery)
    ensures Lookup(GalleryToJson(g), "name") == Some(JString(g.name))
    ensures Lookup(GalleryToJson(g), "theme") == if g.theme.Some? then Some(JString(g.theme.value)) else None
    ensures Lookup(GalleryToJson(g), "artworks") == Some(JArray(ArtworksToJson(g.artworks)))
  {
    var ms := GalleryToJson(g).members;
    var items := ArtworksToJson(g.artworks);
    LookupSkip(ms, "theme");
    LookupSkip(ms, "artworks");
    if g.theme.Some? {
      assert ms[1..] == [Member("theme", JString(g.theme.value)), Member("artworks", JArray(items))];
      LookupSkip(ms[1..], "artworks");
      assert ms[1..][1..] == [Member("artworks", JArray(items))];
    } else {
      assert ms[1..] == [Member("artworks", JArray(items))];
      LookupSkip(ms[1..], "theme");
      assert ms[1..][1..] == [];
    }
  }

  // ---------------------------------------------------------------------------------------
  // Unicode-safe Base64

  /** What `encodeUtf8ToBase64` returns: the Base64 text of the UTF-8 encoding of `input`. */
  function Utf8ToBase64(input: string): string {
    Base64.Encode(Utf8.Encode(input))
  }

  /** What `decodeBase64ToUtf8` returns, `None` where `atob` throws. */
  function Base64ToUtf8(input: string): Option<string> {
    match Base64.Atob(input)
    case None => None
    case Some(binary) => Some(Utf8.TextDecode(CharCodes(binary)))
  }

  /** Encodes to UTF-8, spells the bytes as a binary string one character at a time, applies `btoa`. */
  method EncodeUtf8ToBase64(input: string) returns (output: string)
    ensures output == Utf8ToBase64(input)
  {
    var bytes := Utf8.Encode(input);
    var binary := "";
    for i := 0 to |bytes|
      invariant |binary| == i
      invariant forall k :: 0 <= k < i ==> binary[k] as int == bytes[k]
    {
      binary := binary + [bytes[i] as char];
    }
    assert binary == FromBytes(bytes);
    Base64.AtobBtoa(bytes);
    var encoded := Base64.Btoa(binary);
    output := encoded.value;
  }

  /** Applies `atob`, copies the char codes into a byte array one at a time, decodes it as UTF-8. */
  method DecodeBase64ToUtf8(input: string) returns (output: Option<string>)
    ensures output == Base64ToUtf8(input)
  {
    var decoded := Base64.Atob(input);
    if decoded.None? {
      return None;
    }
    var binary := decoded.value;
    var bytes := new Byte[|binary|];
    for i := 0 to |binary|
      invariant forall k :: 0 <= k < i ==> bytes[k] == binary[k] as int
    {
      bytes[i] := binary[i] as int;
    }
    assert bytes[..] == CharCodes(binary);
    output := Some(Utf8.TextDecode(bytes[..]));
  }

  /** Text that does not begin with a byte order mark survives the Base64 round trip unchanged. */
  lemma Base64RoundTrip(s: string)
    requires s == [] || s[0] != Utf8.ByteOrderMark
    ensures Base64ToUtf8(Utf8ToBase64(s)) == Some(s)
  {
    Base64.AtobBtoa(Utf8.Encode(s));
    CharCodesFromBytes(Utf8.Encode(s));
    Utf8.TextDecodeEncode(s);
  }

  /** A leading byte order mark is lost on the way back, since the decoder strips it. */
  lemma Base64RoundTripDropsBom(s: string)
    requires s != [] && s[0] == Utf8.ByteOrderMark
    ensures Base64ToUtf8(Utf8ToBase64(s)) == Some(s[1..])
  {
    Base64.AtobBtoa(Utf8.Encode(s));
    CharCodesFromBytes(Utf8.Encode(s));
    Utf8.TextDecodeDropsBom(s);
  }

  // ---------------------------------------------------------------------------------------
  // The share-link hash

  /** The Base64 token that `galleryToHash` makes of `gallery`. */
  function HashOf(gallery: Gallery): string {
    Utf8ToBase64(Stringify(GalleryToJson(gallery)))
  }

  /** `typeof v === 'object'`: `null`, arrays and objects. */
  predicate IsObjectType(v: Value) {
    v.JNull? || v.JArray? || v.JObject?
  }

  /** The token of a hash: exactly one leading `#`, if there is one, is dropped. */
  function HashToken(hash: string): (value: string)
    ensures hash != [] && hash[0] == '#' ==> "#" + value == hash
    ensures (hash == [] || hash[0] != '#') ==> value == hash
  {
    if hash != [] && hash[0] == '#' then hash[1..] else hash
  }

  /**
   * What `galleryFromHash` returns (`None` for `null`): one leading `#` is dropped, an empty
   * token, a failed decode or parse, and a parsed value that is falsy or not an object all
   * give `None`. Any object or array the token parses to comes back as it is, with no check
   * of its shape.
   */
  function DecodeHash(hash: string): (r: Option<Value>)
    ensures r.Some? ==> r.value.JObject? || r.value.JArray?
    ensures var value := HashToken(hash);
      r.Some? <==>
        value != [] && Base64ToUtf8(value).Some? && Parse(Base64ToUtf8(value).value).Some? &&
        (Parse(Base64ToUtf8(value).value).value.JObject? || Parse(Base64ToUtf8(value).value).value.JArray?)
    ensures var value := HashToken(hash);
      r.Some? ==> r == Parse(Base64ToUtf8(value).value)
  {
    var value := HashToken(hash);
    if value == [] then None
    else
      match Base64ToUtf8(value)
      case None => None
      case Some(json) =>
        match Parse(json)
        case None => None
        case Some(parsed) => if !Truthy(parsed) || !IsObjectType(parsed) then None else Some(parsed)
  }

  /** `galleryToHash`: the token decodes back to the gallery's JSON value. */
  method GalleryToHash(gallery: Gallery) returns (hash: string)
    ensures hash == HashOf(gallery)
    ensures DecodeHash(hash) == Some(GalleryToJson(gallery))
  {
    var json := Stringify(GalleryToJson(gallery));
    hash := EncodeUtf8ToBase64(json);
    HashRoundTrip(gallery);
  }

  /** `galleryFromHash`: every failure inside the `try` is a `None`, never an exception. */
  method GalleryFromHash(hash: string) returns (gallery: Option<Value>)
    ensures gallery == DecodeHash(hash)
  {
    var value := HashToken(hash);
    if value == [] {
      return None;
    }
    var json := DecodeBase64ToUtf8(value);
    if json.None? {
      return None;
    }
    var parsed := Parse(json.value);
    if parsed.None? || !Truthy(parsed.value) || !IsObjectType(parsed.value) {
      return None;
    }
    gallery := parsed;
  }

  /** The token is non-empty padded Base64: whole groups of four, `=` only in the last two places, no `#`. */
  lemma HashShape(gallery: Gallery)
    ensures var h := HashOf(gallery);
      h != [] && |h| % 4 == 0 && h[0] != '#' &&
      forall i :: 0 <= i < |h| ==> Base64.IsAlphabetChar(h[i]) || (h[i] == '=' && i >= |h| - 2)
  {
    var json := Stringify(GalleryToJson(gallery));
    StringifyStart(GalleryToJson(gallery));
    Base64.EncodeShape(Utf8.Encode(json));
  }

  /** The JSON text of every canonical value starts with an ASCII character, never a byte order mark. */
  lemma StringifyNoBom(v: Value)
    requires Canonical(v)
    ensures Stringify(v) != [] && Stringify(v)[0] != Utf8.ByteOrderMark
  {
    StringifyStart(v);
  }

  /**
   * Decoding the token of a value's JSON text gives the value back when it is an object or an
   * array, and `None` for `null`, booleans and strings.
   */
  lemma DecodeHashOfJson(v: Value)
    requires Canonical(v)
    ensures DecodeHash(Utf8ToBase64(Stringify(v))) == if v.JObject? || v.JArray? then Some(v) else None
  {
    var json := Stringify(v);
    StringifyNoBom(v);
    Base64RoundTrip(json);
    ParseStringify(v);
    var token := Utf8ToBase64(json);
    assert token != [] && token[0] != '#' by {
      Base64.EncodeShape(Utf8.Encode(json));
    }
  }

  /** The share-link round trip: the gallery comes back from its token, with or without the `#`. */
  lemma HashRoundTrip(gallery: Gallery)
    ensures DecodeHash(HashOf(gallery)) == Some(GalleryToJson(gallery))
    ensures DecodeHash("#" + HashOf(gallery)) == Some(GalleryToJson(gallery))
  {
    DecodeHashOfJson(GalleryToJson(gallery));
    HashShape(gallery);
    StripsOneHash(HashOf(gallery));
  }

  /** An empty hash, or a lone `#`, is no gallery. */
  lemma DecodeHashEmpty()
    ensures DecodeHash("") == None
    ensures DecodeHash("#") == None
  {
  }

  /** Exactly one leading `#` is dropped: a token that does not itself start with `#` reads the same with one. */
  lemma StripsOneHash(token: string)
    requires token == [] || token[0] != '#'
    ensures DecodeHash("#" + token) == DecodeHash(token)
  {
    assert ("#" + token)[1..] == token;
  }

  /** `atob` rejects text whose first character is `#`. */
  lemma AtobRejectsHash(token: string)
    requires token != [] && token[0] == '#'
    ensures Base64.Atob(token) == None
  {
    var s := Base64.StripWhitespace(token);
    assert s == ['#'] + Base64.StripWhitespace(token[1..]);
    var t := Base64.DropPadding(s);
    assert t != [] ==> t[0] == '#';
    assert !Base64.IsAlphabetChar('#');
    assert |t| % 4 == 1 || !Base64.AllAlphabet(t);
  }

  /** A second `#` is not dropped: the token `#...` is no gallery. */
  lemma DoubleHashIsNoGallery(token: string)
    requires token != [] && token[0] == '#'
    ensures DecodeHash("#" + token) == None
  {
    assert ("#" + token)[1..] == token;
    AtobRejectsHash(token);
  }

  // ---------------------------------------------------------------------------------------
  // The draft in local storage

  /**
   * `window.localStorage`: `storage` is `None` where there is no `window` (rendering on the
   * server), otherwise the stored key-value pairs.
   */
  class DraftStore {
    var storage: Option<map<string, string>>

    constructor (storage: Option<map<string, string>>)
      ensures this.storage == storage
    {
      this.storage := storage;
    }

    /**
     * `loadDraft` (`None` for `null`): no window, no entry, an empty entry, an entry that is
     * not JSON and the JSON text `null` give `None`; anything else that parses is returned.
     */
    function LoadDraft(): (r: Option<Value>)
      reads this
      ensures storage.None? ==> r.None?
      ensures storage.Some? && GalleryDraftKey !in storage.value ==> r.None?
      ensures r.Some? ==> storage.Some? && GalleryDraftKey in storage.value && Parse(storage.value[GalleryDraftKey]) == r
      ensures r.Some? ==> r.value != JNull
      ensures storage.Some? && GalleryDraftKey in storage.value
        && Parse(storage.value[GalleryDraftKey]).Some? && Parse(storage.value[GalleryDraftKey]).value != JNull
        ==> r == Parse(storage.value[GalleryDraftKey])
    {
      if storage.None? || GalleryDraftKey !in storage.value then None
      else
        var raw := storage.value[GalleryDraftKey];
        if raw == [] then None
        else
          match Parse(raw)
          case None => None
          case Some(parsed) => if parsed == JNull then None else Some(parsed)
    }

    /** `saveDraft`: the gallery's JSON text under the draft key, every other entry untouched. */
    method SaveDraft(gallery: Gallery)
      modifies this
      ensures old(storage).None? ==> storage.None?
      ensures old(storage).Some? ==> storage == Some(old(storage).value[GalleryDraftKey := Stringify(GalleryToJson(gallery))])
      ensures LoadDraft() == if storage.Some? then Some(GalleryToJson(gallery)) else None
    {
      if storage.Some? {
        var text := Stringify(GalleryToJson(gallery));
        storage := Some(storage.value[GalleryDraftKey := text]);
        ParseStringify(GalleryToJson(gallery));
        StringifyStart(GalleryToJson(gallery));
      }
    }

    /** `clearDraft`: the draft entry is gone, every other entry untouched. */
    method ClearDraft()
      modifies this
      ensures old(storage).None? ==> storage.None?
      ensures old(storage).Some? ==> storage == Some(old(storage).value - {GalleryDraftKey})
      ensures LoadDraft() == None
    {
      if storage.Some? {
        storage := Some(storage.value - {GalleryDraftKey});
      }
    }
  }

  /** A saved draft loads back as exactly what was saved: its text is non-empty and parses to it. */
  lemma DraftRoundTrip(gallery: Gallery)
    ensures var text := Stringify(GalleryToJson(gallery));
      text != [] && Parse(text) == Some(GalleryToJson(gallery))
  {
    ParseStringify(GalleryToJson(gallery));
    StringifyStart(GalleryToJson(gallery));
  }
}
