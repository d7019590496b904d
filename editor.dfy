/**
 * The gallery editor: the name, theme and artwork list being edited, the add-artwork form,
 * the share link, and the effects that restore the draft on mount and autosave it on change.
 */
module EditorComponent {
  import opened Wrappers
  import opened JsString
  import opened Json
  import opened Model
  import Grouping

  const DefaultName: string := "My Gallery"
  const DefaultTheme: string := "light"
  const Untitled: string := "Untitled"

  /** The path of the viewer page, to which the share link's fragment is appended. */
  const ViewerPath: string := "/gallery/viewer"

  /** The add-artwork form: the raw text of its three inputs. */
  datatype NewArtwork = NewArtwork(title: string, url: string, room: string)

  const EmptyForm: NewArtwork := NewArtwork("", "", "")

  // ---------------------------------------------------------------------------------------
  // Adding and removing artworks

  /**
   * The artwork `addArtwork` appends for the form `form` and the fresh id `id`: `None` when the
   * URL is blank; otherwise trimmed text, "Untitled" for a blank title, no room for a blank one.
   */
  function ArtworkFromForm(form: NewArtwork, id: string): (r: Option<Artwork>)
    ensures r.Some? ==> r.value.id == id && r.value.url != [] && r.value.title != []
  {
    var url := Trim(form.url);
    if url == [] then None
    else
      var title := Trim(form.title);
      var room := Trim(form.room);
      Some(Artwork(id, if title == [] then Untitled else title, url, if room == [] then None else Some(room)))
  }

  /** The form's fields as `addArtwork` reads them: blank means empty once trimmed. */
  lemma ArtworkFromFormFields(form: NewArtwork, id: string)
    ensures var r := ArtworkFromForm(form, id);
      && (r.None? <==> IsBlank(form.url))
      && (r.Some? ==> r.value.url == Trim(form.url))
      && (r.Some? && IsBlank(form.title) ==> r.value.title == Untitled)
      && (r.Some? && !IsBlank(form.title) ==> r.value.title == Trim(form.title))
      && (r.Some? ==> (r.value.room.None? <==> IsBlank(form.room)))
      && (r.Some? && r.value.room.Some? ==> r.value.room.value == Trim(form.room))
  {
    TrimEmptyIffBlank(form.url);
    TrimEmptyIffBlank(form.title);
    TrimEmptyIffBlank(form.room);
  }

  /** An added artwork's text needs no further trimming: URL and title are non-blank and trimmed, and so is the room if present. */
  lemma AddedArtworkIsTrimmed(form: NewArtwork, id: string)
    requires ArtworkFromForm(form, id).Some?
    ensures var a := ArtworkFromForm(form, id).value;
      !IsBlank(a.url) && Trim(a.url) == a.url &&
      !IsBlank(a.title) && Trim(a.title) == a.title &&
      (a.room.Some? ==> !IsBlank(a.room.value) && Trim(a.room.value) == a.room.value)
  {
    var a := ArtworkFromForm(form, id).value;
    TrimIdempotent(form.url);
    TrimEmptyIffBlank(a.url);
    TrimTitle(form.title);
    TrimEmptyIffBlank(a.title);
    if a.room.Some? {
      TrimIdempotent(form.room);
      TrimEmptyIffBlank(a.room.value);
    }
  }

  lemma TrimTitle(title: string)
    ensures var t := if Trim(title) == [] then Untitled else Trim(title); Trim(t) == t
  {
    if Trim(title) == [] {
      assert !IsJsWhitespace(Untitled[0]) && !IsJsWhitespace(Untitled[|Untitled| - 1]);
      TrimNoop(Untitled);
    } else {
      TrimIdempotent(title);
    }
  }

  /** An added artwork is grouped under its trimmed room, or under the main room when the room was left blank. */
  lemma AddedArtworkRoom(form: NewArtwork, id: string)
    requires ArtworkFromForm(form, id).Some?
    ensures Grouping.RoomKey(ArtworkFromForm(form, id).value.room)
      == if IsBlank(form.room) then Grouping.MainRoom else Trim(form.room)
  {
    ArtworkFromFormFields(form, id);
    var room := ArtworkFromForm(form, id).value.room;
    if room.Some? {
      TrimIdempotent(form.room);
      TrimEmptyIffBlank(room.value);
    }
  }

  /** What `removeArtwork(id)` leaves: the artworks whose id differs, in their order. */
  function WithoutArtwork(artworks: seq<Artwork>, id: string): (r: seq<Artwork>)
    ensures forall a :: a in r <==> a in artworks && a.id != id
    ensures |r| <= |artworks|
  {
    if artworks == [] then []
    else (if artworks[0].id != id then [artworks[0]] else []) + WithoutArtwork(artworks[1..], id)
  }

  /** Removal distributes over concatenation: the order of the artworks kept is unchanged. */
  lemma {:induction false} WithoutArtworkAppend(xs: seq<Artwork>, ys: seq<Artwork>, id: string)
    ensures WithoutArtwork(xs + ys, id) == WithoutArtwork(xs, id) + WithoutArtwork(ys, id)
  {
    if xs != [] {
      assert (xs + ys)[1..] == xs[1..] + ys;
      WithoutArtworkAppend(xs[1..], ys, id);
    } else {
      assert xs + ys == ys;
    }
  }

  /** Removing an id no artwork has changes nothing; removing twice is removing once. */
  lemma {:induction false} WithoutAbsentArtwork(artworks: seq<Artwork>, id: string)
    requires forall a :: a in artworks ==> a.id != id
    ensures WithoutArtwork(artworks, id) == artworks
  {
    if artworks != [] {
      assert artworks[0] in artworks;
      assert forall a :: a in artworks[1..] ==> a in artworks;
      WithoutAbsentArtwork(artworks[1..], id);
    }
  }

  lemma WithoutArtworkIdempotent(artworks: seq<Artwork>, id: string)
    ensures WithoutArtwork(WithoutArtwork(artworks, id), id) == WithoutArtwork(artworks, id)
  {
    WithoutAbsentArtwork(WithoutArtwork(artworks, id), id);
  }

  /** Appending an artwork and then removing its (fresh) id restores the list. */
  lemma RemoveUndoesAdd(artworks: seq<Artwork>, a: Artwork)
    requires forall b :: b in artworks ==> b.id != a.id
    ensures WithoutArtwork(artworks + [a], a.id) == artworks
  {
    WithoutArtworkAppend(artworks, [a], a.id);
    WithoutAbsentArtwork(artworks, a.id);
    assert WithoutArtwork([a], a.id) == [] + WithoutArtwork([], a.id);
  }

  // ---------------------------------------------------------------------------------------
  // Restoring the draft

  /** A string-valued property of an object; `""` when the property is absent or not a string. */
  function StringProperty(v: Value, key: string): string {
    match Lookup(v, key)
    case Some(JString(s)) => s
    case _ => ""
  }

  /** An artwork read back from a draft or a link: missing or non-string fields read as `""`, a non-string room as none. */
  function ArtworkOfJson(v: Value): Artwork {
    Artwork(StringProperty(v, "id"), StringProperty(v, "title"), StringProperty(v, "url"),
            match Lookup(v, "room") case Some(JString(s)) => Some(s) case _ => None)
  }

  /** The items of an `artworks` array read back as artworks, in order. */
  function ArtworksOfJson(items: seq<Value>): (artworks: seq<Artwork>)
    ensures |artworks| == |items|
    ensures forall i :: 0 <= i < |items| ==> artworks[i] == ArtworkOfJson(items[i])
  {
    seq(|items|, i requires 0 <= i < |items| => ArtworkOfJson(items[i]))
  }

  /** Reading back an artwork written as JSON gives the same artwork. */
  lemma ArtworkOfJsonToJson(a: Artwork)
    ensures ArtworkOfJson(ArtworkToJson(a)) == a
  {
    ArtworkProperties(a);
  }

  /** Reading back artworks written as a JSON array gives the same artworks, in order. */
  lemma ArtworksOfJsonToJson(artworks: seq<Artwork>)
    ensures ArtworksOfJson(ArtworksToJson(artworks)) == artworks
  {
    var items := ArtworksToJson(artworks);
    forall i | 0 <= i < |artworks| ensures ArtworkOfJson(items[i]) == artworks[i] {
      ArtworkOfJsonToJson(artworks[i]);
    }
  }

  /** The name, theme and artworks that restoring a draft sets. */
  datatype Restored = Restored(name: string, theme: string, artworks: seq<Artwork>)

  /**
   * What the mount effect restores from the loaded draft: nothing unless the draft is truthy;
   * otherwise its name or "My Gallery", its theme or "light", its artworks if they form an array.
   */
  function RestoreFrom(draft: Option<Value>): (r: Option<Restored>)
    ensures r.None? <==> draft.None? || !Truthy(draft.value)
    ensures r.Some? ==> r.value.name != [] && r.value.theme != []
    ensures r.Some? ==> var name := Lookup(draft.value, "name");
      if name.Some? && name.value.JString? && name.value.s != [] then r.value.name == name.value.s
      else r.value.name == DefaultName
    ensures r.Some? ==> var theme := Lookup(draft.value, "theme");
      if theme.Some? && theme.value.JString? && theme.value.s != [] then r.value.theme == theme.value.s
      else r.value.theme == DefaultTheme
    ensures r.Some? ==> var artworks := Lookup(draft.value, "artworks");
      if artworks.Some? && artworks.value.JArray? then r.value.artworks == ArtworksOfJson(artworks.value.items)
      else r.value.artworks == []
  {
    if draft.None? || !Truthy(draft.value) then None
    else
      var d := draft.value;
      var name := StringProperty(d, "name");
      var theme := StringProperty(d, "theme");
      var artworks := match Lookup(d, "artworks")
        case Some(JArray(items)) => ArtworksOfJson(items)
        case _ => [];
      Some(Restored(if name == [] then DefaultName else name, if theme == [] then DefaultTheme else theme, artworks))
  }

  /** What the autosave stores restores the same name, theme and artworks (an empty name or theme comes back as the default). */
  lemma RestoreSaved(name: string, theme: string, artworks: seq<Artwork>)
    ensures RestoreFrom(Some(GalleryToJson(Gallery(name, Some(theme), artworks))))
      == Some(Restored(if name == [] then DefaultName else name, if theme == [] then DefaultTheme else theme, artworks))
  {
    var g := Gallery(name, Some(theme), artworks);
    GalleryProperties(g);
    var items := ArtworksToJson(artworks);
    ArtworksOfJsonToJson(artworks);
    var d := GalleryToJson(g);
    assert Truthy(d);
    assert StringProperty(d, "name") == name;
    assert StringProperty(d, "theme") == theme;
    assert Lookup(d, "artworks") == Some(JArray(items));
  }

  /** A truthy draft that is not an object, such as an array, restores every default. */
  lemma RestoreNonObject(d: Value)
    requires Truthy(d) && !d.JObject?
    ensures RestoreFrom(Some(d)) == Some(Restored(DefaultName, DefaultTheme, []))
  {
  }

  /** A draft whose `artworks` is not an array restores no artworks. */
  lemma RestoreNonArrayArtworks(d: Value)
    requires Truthy(d)
    requires Lookup(d, "artworks").None? || !Lookup(d, "artworks").value.JArray?
    ensures RestoreFrom(Some(d)).Some? && RestoreFrom(Some(d)).value.artworks == []
  {
  }

  // ---------------------------------------------------------------------------------------
  // The share link

  /**
   * `location.hash` of a URL: from its first `#` on, or `""` when it has none. A URL ending in
   * a bare `#` gives `"#"` here where the browser gives `""`; the gallery decoder maps both to
   * no gallery.
   */
  function HashPart(url: string): (h: string)
    ensures h == [] || h[0] == '#'
    ensures |h| <= |url| && h == url[|url| - |h|..]
  {
    if url == [] then ""
    else if url[0] == '#' then url
    else HashPart(url[1..])
  }

  /** The hash part of a URL whose first `#` follows `prefix` is everything from that `#`. */
  lemma {:induction false} HashPartAfter(prefix: string, rest: string)
    requires '#' !in prefix
    ensures HashPart(prefix + "#" + rest) == "#" + rest
  {
    if prefix != [] {
      assert (prefix + "#" + rest)[1..] == prefix[1..] + "#" + rest;
      HashPartAfter(prefix[1..], rest);
    }
  }

  /** The viewer finds the gallery in the fragment of the link to it, whatever the (fragment-free) origin. */
  lemma ShareLinkOpens(origin: string, g: Gallery)
    ensures '#' !in origin ==> DecodeHash(HashPart(origin + ViewerPath + "#" + HashOf(g))) == Some(GalleryToJson(g))
  {
    if '#' !in origin {
      var base := origin + ViewerPath;
      assert '#' !in base;
      HashPartAfter(base, HashOf(g));
      HashRoundTrip(g);
    }
  }

  /** The editor's state and its two effects. */
  class Editor {
    var name: string
    var theme: string
    var artworks: seq<Artwork>
    var newArtwork: NewArtwork
    var shareLink: string
    /** The browser's local storage, where the draft is kept. */
    const store: DraftStore

    /** The initial state, before the mount effect runs. */
    constructor (store: DraftStore)
      ensures this.store == store
      ensures name == DefaultName && theme == DefaultTheme && artworks == []
      ensures newArtwork == EmptyForm && shareLink == ""
    {
      this.store := store;
      name := DefaultName;
      theme := DefaultTheme;
      artworks := [];
      newArtwork := EmptyForm;
      shareLink := "";
    }

    /** The gallery the autosave effect writes. */
    function Draft(): Gallery
      reads this
    {
      Gallery(name, Some(theme), artworks)
    }

    /** The mount effect: a truthy draft replaces name, theme and artworks. */
    method RestoreDraft()
      modifies this
      ensures RestoreFrom(old(store.LoadDraft())).None? ==> name == old(name) && theme == old(theme) && artworks == old(artworks)
      ensures RestoreFrom(old(store.LoadDraft())).Some? ==>
        Restored(name, theme, artworks) == RestoreFrom(old(store.LoadDraft())).value
      ensures newArtwork == old(newArtwork) && shareLink == old(shareLink)
    {
      var draft := store.LoadDraft();
      var restored := RestoreFrom(draft);
      if restored.Some? {
        name := restored.value.name;
        theme := restored.value.theme;
        artworks := restored.value.artworks;
      }
    }

    /** The autosave effect: a later restore brings back this state (an empty name as the default). */
    method Autosave()
      modifies store
      ensures old(store.storage).None? ==> store.storage.None?
      ensures old(store.storage).Some? ==>
        store.storage == Some(old(store.storage).value[GalleryDraftKey := Stringify(GalleryToJson(Draft()))])
      ensures store.storage.Some? ==>
        RestoreFrom(store.LoadDraft()) == Some(Restored(if name == [] then DefaultName else name,
                                                        if theme == [] then DefaultTheme else theme, artworks))
    {
      store.SaveDraft(Draft());
      RestoreSaved(name, theme, artworks);
      assert Truthy(GalleryToJson(Draft()));
    }

    /** The name input. */
    method SetName(value: string)
      modifies this
      ensures name == value
      ensures theme == old(theme) && artworks == old(artworks) && newArtwork == old(newArtwork) && shareLink == old(shareLink)
    {
      name := value;
    }

    /** The theme select. */
    method SetTheme(value: string)
      modifies this
      ensures theme == value
      ensures name == old(name) && artworks == old(artworks) && newArtwork == old(newArtwork) && shareLink == old(shareLink)
    {
      theme := value;
    }

    /** The three inputs of the add-artwork form. */
    method EditForm(form: NewArtwork)
      modifies this
      ensures newArtwork == form
      ensures name == old(name) && theme == old(theme) && artworks == old(artworks) && shareLink == old(shareLink)
    {
      newArtwork := form;
    }

    /**
     * `addArtwork`, `id` standing for `generateId()`: a blank URL changes nothing; otherwise the
     * new artwork is appended and the form is cleared.
     */
    method AddArtwork(id: string)
      modifies this
      ensures ArtworkFromForm(old(newArtwork), id).None? ==> artworks == old(artworks) && newArtwork == old(newArtwork)
      ensures ArtworkFromForm(old(newArtwork), id).Some? ==>
        artworks == old(artworks) + [ArtworkFromForm(old(newArtwork), id).value] && newArtwork == EmptyForm
      ensures name == old(name) && theme == old(theme) && shareLink == old(shareLink)
    {
      var added := ArtworkFromForm(newArtwork, id);
      if added.None? {
        return;
      }
      artworks := artworks + [added.value];
      newArtwork := EmptyForm;
    }

    /** `removeArtwork`. */
    method RemoveArtwork(id: string)
      modifies this
      ensures artworks == WithoutArtwork(old(artworks), id)
      ensures name == old(name) && theme == old(theme) && newArtwork == old(newArtwork) && shareLink == old(shareLink)
    {
      artworks := WithoutArtwork(artworks, id);
    }

    /** The gallery the share link carries: the trimmed name, or "My Gallery" when it is blank. */
    function Payload(): (g: Gallery)
      reads this
      ensures IsBlank(name) ==> g.name == DefaultName
      ensures !IsBlank(name) ==> g.name == Trim(name)
      ensures g.theme == Some(theme) && g.artworks == artworks
    {
      TrimEmptyIffBlank(name);
      Gallery(if Trim(name) == [] then DefaultName else Trim(name), Some(theme), artworks)
    }

    /**
     * `buildShareLink`, `origin` standing for `location.origin`: the viewer's URL with the
     * payload's token as its fragment, so that the viewer reading that fragment gets the payload.
     */
    method BuildShareLink(origin: string) returns (link: string)
      ensures link == origin + ViewerPath + "#" + HashOf(Payload())
      ensures '#' !in origin ==> DecodeHash(HashPart(link)) == Some(GalleryToJson(Payload()))
    {
      var hash := GalleryToHash(Payload());
      link := origin + ViewerPath + "#" + hash;
      ShareLinkOpens(origin, Payload());
    }

    /** `generateLink`. */
    method GenerateLink(origin: string)
      modifies this
      ensures shareLink == origin + ViewerPath + "#" + HashOf(Payload())
      ensures name == old(name) && theme == old(theme) && artworks == old(artworks) && newArtwork == old(newArtwork)
    {
      shareLink := BuildShareLink(origin);
    }

    /**
     * `openViewer`: the link already generated, or a new one; it is kept as the share link and
     * returned as the URL the new window opens.
     */
    method OpenViewer(origin: string) returns (url: string)
      modifies this
      ensures old(shareLink) != "" ==> url == old(shareLink)
      ensures old(shareLink) == "" ==> url == origin + ViewerPath + "#" + HashOf(Payload())
      ensures shareLink == url
      ensures name == old(name) && theme == old(theme) && artworks == old(artworks) && newArtwork == old(newArtwork)
    {
      if shareLink != "" {
        url := shareLink;
      } else {
        url := BuildShareLink(origin);
      }
      shareLink := url;
    }

    /** `resetDraft`: the stored draft is removed, so the reload that follows restores nothing. */
    method ResetDraft()
      modifies store
      ensures old(store.storage).None? ==> store.storage.None?
      ensures old(store.storage).Some? ==> store.storage == Some(old(store.storage).value - {GalleryDraftKey})
      ensures RestoreFrom(store.LoadDraft()).None?
    {
      store.ClearDraft();
    }

    /** The preview's grouping of the artworks by room. */
    method Grouped() returns (groups: seq<(string, seq<Artwork>)>)
      ensures groups == Grouping.Groups(artworks, ArtworkRoom)
    {
      groups := Grouping.Group(artworks, ArtworkRoom);
    }
  }

  /** The group key of a typed artwork. */
  function ArtworkRoom(a: Artwork): string {
    Grouping.RoomKey(a.room)
  }
}
