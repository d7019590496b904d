/**
 * The gallery viewer: the gallery decoded from the page's hash (again on every `hashchange`),
 * its artworks grouped by room, and the `dark` class that follows the gallery's theme.
 */
module ViewerComponent {
  import opened Wrappers
  import opened Json
  import opened Model
  import Grouping
  import JsString
  import EditorComponent

  /** The group key of an item of the decoded `artworks` array: its room when that is a non-blank string. */
  function ItemRoom(item: Value): (k: string)
    ensures k == Grouping.MainRoom || Lookup(item, "room") == Some(JString(k))
    ensures var room := Lookup(item, "room");
      if room.Some? && room.value.JString? && !JsString.IsBlank(room.value.s) then k == room.value.s
      else k == Grouping.MainRoom
  {
    match Lookup(item, "room")
    case Some(JString(room)) => Grouping.RoomKey(Some(room))
    case _ => Grouping.MainRoom
  }

  /** `gallery.artworks || []`: the items of the `artworks` array, or none. */
  function ArtworkItems(gallery: Value): (items: seq<Value>)
    ensures items != [] ==> Lookup(gallery, "artworks") == Some(JArray(items))
    ensures var artworks := Lookup(gallery, "artworks");
      if artworks.Some? && artworks.value.JArray? then items == artworks.value.items else items == []
  {
    match Lookup(gallery, "artworks")
    case Some(JArray(items)) => items
    case _ => []
  }

  /** `gallery.theme === 'dark'`. */
  predicate IsDark(gallery: Value) {
    Lookup(gallery, "theme") == Some(JString("dark"))
  }

  /** A typed artwork and its JSON form fall into the same room. */
  lemma ItemRoomOfArtwork(a: Artwork)
    ensures ItemRoom(ArtworkToJson(a)) == EditorComponent.ArtworkRoom(a)
  {
    ArtworkProperties(a);
  }

  /** The artworks of a gallery written as JSON are that gallery's artworks, each as JSON. */
  lemma ArtworkItemsOfGallery(g: Gallery)
    ensures ArtworkItems(GalleryToJson(g)) == ArtworksToJson(g.artworks)
  {
    GalleryProperties(g);
  }

  /** The gallery shown in dark mode is exactly the one whose theme is "dark". */
  lemma IsDarkGallery(g: Gallery)
    ensures IsDark(GalleryToJson(g)) <==> g.theme == Some("dark")
  {
    GalleryProperties(g);
  }

  /** A gallery without an `artworks` array has no rooms to show. */
  lemma NoArtworksNoGroups(gallery: Value)
    requires Lookup(gallery, "artworks").None? || !Lookup(gallery, "artworks").value.JArray?
    ensures Grouping.Groups(ArtworkItems(gallery), ItemRoom) == []
  {
  }

  /** The viewer's state. */
  class Viewer {
    /** The page's `location.hash`, which the viewer reads. */
    ghost var hash: string
    /** The decoded gallery, `None` for "No gallery data in URL". */
    var gallery: Option<Value>
    /** Whether the document root carries the `dark` class. */
    var dark: bool

    /** The gallery always reflects the hash last read. */
    ghost predicate Valid()
      reads this
    {
      gallery == DecodeHash(hash)
    }

    /** Mounting reads the hash once; the theme effect then sets the `dark` class if there is a gallery. */
    constructor (location: string, dark: bool)
      ensures Valid() && this.hash == location
      ensures gallery.Some? ==> (this.dark <==> IsDark(gallery.value))
      ensures gallery.None? ==> this.dark == dark
    {
      hash := location;
      var decoded := GalleryFromHash(location);
      gallery := decoded;
      this.dark := dark;
      new;
      ApplyTheme();
    }

    /** The theme effect: with a gallery, the `dark` class is present exactly when its theme is "dark". */
    method ApplyTheme()
      requires Valid()
      modifies this
      ensures Valid() && gallery == old(gallery) && hash == old(hash)
      ensures DecodeHash(hash).Some? ==> (dark <==> IsDark(DecodeHash(hash).value))
      ensures DecodeHash(hash).None? ==> dark == old(dark)
    {
      if gallery.None? {
        return;
      }
      dark := IsDark(gallery.value);
    }

    /** The `hashchange` listener, followed by the theme effect. */
    method OnHashChange(location: string)
      modifies this
      ensures Valid() && hash == location
      ensures gallery.Some? ==> (dark <==> IsDark(gallery.value))
      ensures gallery.None? ==> dark == old(dark)
    {
      hash := location;
      var decoded := GalleryFromHash(location);
      gallery := decoded;
      ApplyTheme();
    }

    /** The rooms to show: none without a gallery, otherwise its artworks grouped by room. */
    method Grouped() returns (groups: seq<(string, seq<Value>)>)
      requires Valid()
      ensures DecodeHash(hash).None? ==> groups == []
      ensures DecodeHash(hash).Some? ==> groups == Grouping.Groups(ArtworkItems(DecodeHash(hash).value), ItemRoom)
    {
      if gallery.None? {
        return [];
      }
      groups := Grouping.Group(ArtworkItems(gallery.value), ItemRoom);
    }
  }

  /**
   * End to end: the viewer opened on the editor's share link shows the editor's payload, in
   * the same rooms as the editor's preview.
   */
  lemma ShareLinkShowsPayload(origin: string, g: Gallery)
    requires '#' !in origin
    ensures var hash := EditorComponent.HashPart(origin + EditorComponent.ViewerPath + "#" + HashOf(g));
      DecodeHash(hash) == Some(GalleryToJson(g))
    ensures Grouping.Keys(ArtworkItems(GalleryToJson(g)), ItemRoom) == Grouping.Keys(g.artworks, EditorComponent.ArtworkRoom)
  {
    EditorComponent.ShareLinkOpens(origin, g);
    ArtworkItemsOfGallery(g);
    KeysOfJson(g.artworks);
  }

  /** Writing the artworks as JSON keeps their rooms, so the rooms come in the same order. */
  lemma {:induction false} KeysOfJson(artworks: seq<Artwork>)
    ensures Grouping.Keys(ArtworksToJson(artworks), ItemRoom) == Grouping.Keys(artworks, EditorComponent.ArtworkRoom)
    decreases |artworks|
  {
    if artworks != [] {
      var n := |artworks| - 1;
      assert ArtworksToJson(artworks)[..n] == ArtworksToJson(artworks[..n]);
      KeysOfJson(artworks[..n]);
      ItemRoomOfArtwork(artworks[n]);
    }
  }
}
