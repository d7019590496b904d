# Gallery share links, drafts and room grouping, in Dafny

This project models the logic of a small gallery editor and viewer.

- **The editor** (`Editor.tsx`) edits a gallery: its name, its theme and a list of artworks. Each artwork has an id, a title, an image URL and an optional room. The editor autosaves the gallery as a draft in the browser's local storage and restores that draft on mount. It also builds a share link: the viewer's URL with the gallery encoded in its fragment.
- **The viewer** (`Viewer.tsx`) decodes the gallery from `location.hash`, again on every `hashchange`. It shows the artworks grouped by room.
- **The data model** (`model.ts`) holds the codec behind the link. The codec runs `JSON.stringify`, then UTF-8, then Base64; the way back is `atob`, then a non-fatal UTF-8 decode, then `JSON.parse`. The model also holds the draft store.

Modules, one per concern:

| module | file | models |
|---|---|---|
| `Wrappers` | wrappers.dfy | `Option` |
| `BinaryString` | binary_string.dfy | bytes and the "binary strings" that `String.fromCharCode` / `charCodeAt` convert them to and from |
| `Utf8` | utf8.dfy | `TextEncoder`, and `TextDecoder` as the WHATWG Encoding Standard defines it: non-fatal decoding, where a malformed sequence becomes U+FFFD, and a leading byte order mark is stripped |
| `Base64` | base64.dfy | `btoa`, which uses the section 4 alphabet of RFC 4648 with padding, and `atob`, which uses the forgiving-base64 decoder of the WHATWG Infra Standard |
| `JsString` | js_string.dfy | `String.prototype.trim` of ECMA-262 |
| `Json` | json.dfy | JSON values; `JSON.stringify` with the string escapes of section 7 of RFC 8259; `JSON.parse`, including whitespace, numbers kept as their text, `\u` escapes and last-wins duplicate keys |
| `Model` | model.dfy | `model.ts`: the records, the two loop helpers, `galleryToHash` / `galleryFromHash`, and the draft store as a class |
| `Grouping` | grouping.dfy | the grouping by room that both components run: a loop that fills an insertion-ordered `Map` |
| `EditorComponent` | editor.dfy | the editor's state as a class, its handlers, its two effects, and the pure pieces of `addArtwork`, `removeArtwork`, draft restore and the share link |
| `ViewerComponent` | viewer.dfy | the viewer's state as a class, kept equal to the decoded hash; its grouping; its theme class |

Loops in the source are methods proved against a specification function:

- `Model.EncodeUtf8ToBase64` and `Model.DecodeBase64ToUtf8`;
- `Grouping.Group`: it builds a `map` and an insertion-order list, then reads them out.

Component state that the source updates through setters is a class:

- `EditorComponent.Editor`;
- `ViewerComponent.Viewer`;
- `Model.DraftStore`: local storage as `Option<map<string, string>>`, where `None` means there is no `window`.

The browser's inputs are parameters:

- `location.origin` and `location.hash`;
- the result of `generateId()`;
- the initial draft storage.

JavaScript's `null` returned by `galleryFromHash` / `loadDraft` is `None`. Their non-null results are JSON values, because the source returns whatever `JSON.parse` produced, without checking its shape.

## Model

| member | source | states |
|---|---|---|
| Model.ArtworkToJson | src/components/gallery/model.ts:1-6 | an artwork is a plain object whose JSON round-trips (no numbers, distinct keys); an absent room is no property |
| Model.GalleryToJson | src/components/gallery/model.ts:8-12 | a gallery is a plain object whose JSON round-trips; an absent theme is no property |
| Model.ArtworkProperties | src/components/gallery/model.ts:1-6 | reading `id`, `title`, `url`, `room` back from the object gives the artwork's fields; an absent room reads as absent |
| Model.GalleryProperties | src/components/gallery/model.ts:8-12 | reading `name`, `theme`, `artworks` back gives the gallery's fields, the artworks as their objects in order |
| Model.EncodeUtf8ToBase64 | src/components/gallery/model.ts:21-26 | the binary string built one byte at a time and passed to `btoa` gives the Base64 text of the UTF-8 bytes |
| Model.DecodeBase64ToUtf8 | src/components/gallery/model.ts:28-33 | `atob` failing gives `None`; otherwise the byte array filled in place decodes to the UTF-8 decoding of the char codes |
| Model.Base64RoundTrip | src/components/gallery/model.ts:21-33 | decoding the encoding of any text that does not begin with U+FEFF gives the text back |
| Model.Base64RoundTripDropsBom | src/components/gallery/model.ts:28-33 | a leading U+FEFF is lost on the way back, since the decoder strips a byte order mark |
| Model.GalleryToHash | src/components/gallery/model.ts:35-38 | the token is the Base64 of the UTF-8 of the gallery's JSON, and decoding it gives the gallery's JSON value back |
| Model.HashToken | src/components/gallery/model.ts:41 | exactly one leading `#`, if any, is dropped; a hash without one is its own token |
| Model.DecodeHash | src/components/gallery/model.ts:40-51 | a result is `Some` exactly when the token is non-empty, decodes, and parses to an object or an array, and it is then that parsed value unchanged, with no check of its shape |
| Model.GalleryFromHash | src/components/gallery/model.ts:40-51 | every failure (empty value, `atob`, `JSON.parse`, falsy or non-object result) is `None`, never an exception |
| Model.HashShape | src/components/gallery/model.ts:21-26 | the token is non-empty, a multiple of four long, alphabet characters with `=` only in the last two places, and never starts with `#` |
| Model.DecodeHashOfJson | src/components/gallery/model.ts:45-47 | a decoded object or array comes back unchanged; `null`, booleans and strings give `None` |
| Model.HashRoundTrip | src/components/gallery/model.ts:35-51 | `galleryFromHash(galleryToHash(g))` and `galleryFromHash("#" + galleryToHash(g))` both give `g`'s JSON value |
| Model.DecodeHashEmpty | src/components/gallery/model.ts:41-42 | `""` and `"#"` give `None` |
| Model.StripsOneHash | src/components/gallery/model.ts:41 | with a token that does not start with `#`, a leading `#` makes no difference |
| Model.AtobRejectsHash | src/components/gallery/model.ts:44 | `atob` fails on text that starts with `#` |
| Model.DoubleHashIsNoGallery | src/components/gallery/model.ts:41-44 | only one `#` is stripped: `"##…"` gives `None` |
| Model.DraftStore.LoadDraft | src/components/gallery/model.ts:53-63 | no window or no entry gives `None`; the result is exactly what the stored text parses to whenever that is not `null`, whatever its shape |
| Model.DraftStore.SaveDraft | src/components/gallery/model.ts:65-72 | without a window nothing changes; otherwise the key is overwritten with the gallery's JSON, no other key changes, and loading gives the gallery back |
| Model.DraftStore.ClearDraft | src/components/gallery/model.ts:74-81 | without a window nothing changes; otherwise only the draft key is removed, and loading gives `None` |
| Model.DraftRoundTrip | src/components/gallery/model.ts:56-68 | a saved draft's text is non-empty and parses to exactly the saved gallery |
| BinaryString.CharCodesFromBytes | src/components/gallery/model.ts:24-31 | reading back the char codes of the binary string of some bytes gives those bytes |
| Utf8.DecodeEncode | src/components/gallery/model.ts:22-32 | decoding the UTF-8 encoding of any string gives the string back |
| Utf8.TextDecodeEncode | src/components/gallery/model.ts:22-32 | the same through `TextDecoder` when the string does not begin with U+FEFF |
| Utf8.TextDecodeDropsBom | src/components/gallery/model.ts:32 | `TextDecoder` drops a leading U+FEFF |
| Utf8.EncodeStartsWithBom | src/components/gallery/model.ts:22 | the encoding starts with EF BB BF exactly when the string starts with U+FEFF |
| Utf8.DecodeInvalidLead | src/components/gallery/model.ts:32 | a byte that cannot start a sequence becomes one U+FFFD, and decoding goes on |
| Utf8.DecodeCutShort | src/components/gallery/model.ts:32 | a lead byte C2..F4 followed by fewer acceptable continuation bytes than it announces becomes one U+FFFD, and decoding resumes at the byte that did not fit |
| Utf8.DecodeTruncated | src/components/gallery/model.ts:32 | a lead byte C2..F4 whose acceptable continuation bytes run into the end of the input becomes one U+FFFD |
| Utf8.StepEncodeChar | src/components/gallery/model.ts:22-32 | the decoder reads back exactly one encoded character, consuming its whole encoding |
| Base64.EncodeShape | src/components/gallery/model.ts:25 | the output is four characters per three bytes, rounded up, with `=` only in the last two places |
| Base64.DecodeEncode | src/components/gallery/model.ts:25-29 | decoding the encoding of any bytes gives them back |
| Base64.AtobBtoa | src/components/gallery/model.ts:24-31 | `btoa` accepts every binary string, and `atob` of its output gives the binary string back |
| Base64.BtoaRejectsWideChar | src/components/gallery/model.ts:25 | `btoa` fails on a character above U+00FF |
| Base64.DecodeRejectsForeignChar | src/components/gallery/model.ts:29 | `atob` fails on any input holding, at any position, a character that is not in the alphabet and is neither whitespace nor `=` |
| Base64.WholeGroups | src/components/gallery/model.ts:25 | the unpadded characters and the `=` padding always make whole groups of four, and padding follows at least two characters |
| Base64.DecodeEncodeUnpadded | src/components/gallery/model.ts:25-29 | the unpadded encoding decodes back to the bytes |
| Json.ParseStringify | src/components/gallery/model.ts:36-45 | `JSON.parse(JSON.stringify(v))` is `v` for every value without numbers or repeated keys |
| Json.ParseRejectsTrailing | src/components/gallery/model.ts:45 | the JSON text of a canonical value, followed by anything, parses to that value exactly when what follows is whitespace, and fails otherwise |
| Json.DedupeDistinct | src/components/gallery/model.ts:45 | pairs whose keys are already distinct become the object's members unchanged, in order |
| Json.DedupeLastWins | src/components/gallery/model.ts:45 | for any parsed pairs, each key reads as the last value given for it, and the keys stand in the order in which each first appeared |
| Json.Lookup | src/components/gallery/model.ts:46-47 | a property read gives the value of a member with that key, and `None` exactly when the value is not an object or has no member with that key |
| JsString.TrimEmptyIffBlank | src/components/gallery/Editor.tsx:39-42 | `trim()` gives `""` exactly for whitespace-only strings |
| JsString.TrimStartSpec | src/components/gallery/Editor.tsx:39 | `trimStart` removes exactly the leading whitespace |
| JsString.TrimEndSpec | src/components/gallery/Editor.tsx:39 | `trimEnd` removes exactly the trailing whitespace |
| JsString.TrimEnds | src/components/gallery/Editor.tsx:39 | a trimmed string neither starts nor ends with whitespace |
| JsString.TrimIdempotent | src/components/gallery/Editor.tsx:39-42 | trimming twice is trimming once |
| Grouping.RoomKey | src/components/gallery/Editor.tsx:31 | the key is `Main`, or the room itself (untrimmed) when it is present and not blank; it is never blank |
| Grouping.ExplicitMainRoom | src/components/gallery/Viewer.tsx:19 | a room named `Main`, an absent room and a blank room share one group |
| Grouping.Group | src/components/gallery/Editor.tsx:28-36 | the `Map`-filling loop and `Array.from(map.entries())` give exactly the groups of the specification |
| Grouping.BucketsStep | src/components/gallery/Editor.tsx:30-34 | one turn of the loop (open a group for a new key, push the item) keeps the map and its insertion order equal to the keys and groups of the items seen so far |
| Grouping.KeysDistinct | src/components/gallery/Viewer.tsx:17-23 | no key opens two groups |
| Grouping.KeysComplete | src/components/gallery/Viewer.tsx:17-23 | every item's key has a group, and every group's key belongs to some item |
| Grouping.MembersExactly | src/components/gallery/Viewer.tsx:18-21 | a group holds exactly the items with its key |
| Grouping.MembersNone | src/components/gallery/Viewer.tsx:18-21 | a key that no item has has no members |
| Grouping.MembersSnoc | src/components/gallery/Viewer.tsx:21 | pushing an item extends exactly its key's group, at the end |
| Grouping.MembersAppend | src/components/gallery/Viewer.tsx:18-21 | items keep their relative order inside a group |
| Grouping.FirstAppearanceOrder | src/components/gallery/Viewer.tsx:17-23 | groups come in order of first appearance: the keys of every prefix of the items are a prefix of the keys |
| Grouping.NoEmptyGroup | src/components/gallery/Viewer.tsx:17-23 | no group is empty |
| Grouping.Partition | src/components/gallery/Viewer.tsx:18-23 | the groups together are a permutation of the items, so their total size is the number of items |
| EditorComponent.ArtworkFromForm | src/components/gallery/Editor.tsx:38-43 | an added artwork carries the generated id, a non-empty URL and a non-empty title |
| EditorComponent.ArtworkFromFormFields | src/components/gallery/Editor.tsx:39-43 | a blank URL adds nothing; otherwise the URL is trimmed, the title is the trimmed title or `Untitled`, and the room is the trimmed room, absent when blank |
| EditorComponent.AddedArtworkIsTrimmed | src/components/gallery/Editor.tsx:39-43 | URL, title and room of an added artwork are non-blank and already trimmed |
| EditorComponent.AddedArtworkRoom | src/components/gallery/Editor.tsx:31-43 | an added artwork is grouped under its trimmed room, or under `Main` when the room was blank |
| EditorComponent.WithoutArtwork | src/components/gallery/Editor.tsx:47-49 | what is kept is exactly the artworks whose id differs |
| EditorComponent.WithoutArtworkAppend | src/components/gallery/Editor.tsx:48 | removal keeps the relative order of the kept artworks |
| EditorComponent.WithoutAbsentArtwork | src/components/gallery/Editor.tsx:48 | removing an id that no artwork has changes nothing |
| EditorComponent.WithoutArtworkIdempotent | src/components/gallery/Editor.tsx:48 | removing twice is removing once |
| EditorComponent.RemoveUndoesAdd | src/components/gallery/Editor.tsx:43-48 | removing a freshly added artwork's id restores the list |
| EditorComponent.ArtworksOfJsonToJson | src/components/gallery/Editor.tsx:19 | artworks written as a JSON array read back as the same artworks, in order |
| EditorComponent.ArtworkOfJsonToJson | src/components/gallery/Editor.tsx:19-24 | an artwork written to the draft is read back unchanged |
| EditorComponent.RestoreFrom | src/components/gallery/Editor.tsx:14-20 | a missing or falsy draft restores nothing; otherwise a non-empty string name or theme is kept and anything else becomes `My Gallery` or `light`, and an `artworks` array is read item by item while anything else gives no artworks |
| EditorComponent.RestoreSaved | src/components/gallery/Editor.tsx:14-26 | what the autosave stored restores to the same name, theme and artworks; an empty name or theme comes back as `My Gallery` / `light` |
| EditorComponent.RestoreNonObject | src/components/gallery/Editor.tsx:17-19 | a truthy draft that is not an object restores every default |
| EditorComponent.RestoreNonArrayArtworks | src/components/gallery/Editor.tsx:19 | a non-array `artworks` restores as no artworks |
| EditorComponent.HashPart | src/components/gallery/Editor.tsx:55 | `location.hash` is a suffix of the URL that is empty or starts with `#` |
| EditorComponent.HashPartAfter | src/components/gallery/Editor.tsx:55 | the hash of `base + "#" + token` is `"#" + token` when `base` has no `#` |
| EditorComponent.ShareLinkOpens | src/components/gallery/Editor.tsx:51-56 | the viewer decodes the link's fragment to the payload's JSON value |
| EditorComponent.Editor.constructor | src/components/gallery/Editor.tsx:8-12 | the initial state: `My Gallery`, `light`, no artworks, an empty form, no link |
| EditorComponent.Editor.RestoreDraft | src/components/gallery/Editor.tsx:14-21 | no truthy draft keeps the state; otherwise name, theme and artworks come from the draft with the defaults; form and link are kept |
| EditorComponent.Editor.Autosave | src/components/gallery/Editor.tsx:23-26 | the draft key holds the current gallery's JSON, and restoring from the store gives the same name, theme and artworks back, with an empty name or theme coming back as `My Gallery` / `light` |
| EditorComponent.Editor.SetName | src/components/gallery/Editor.tsx:78 | the name input sets the name only |
| EditorComponent.Editor.SetTheme | src/components/gallery/Editor.tsx:82 | the theme select sets the theme only |
| EditorComponent.Editor.EditForm | src/components/gallery/Editor.tsx:91-93 | the form inputs set the form only |
| EditorComponent.Editor.AddArtwork | src/components/gallery/Editor.tsx:38-45 | a blank URL changes nothing; otherwise exactly one artwork is appended after the unchanged earlier ones, and the form is cleared |
| EditorComponent.Editor.RemoveArtwork | src/components/gallery/Editor.tsx:47-49 | the list becomes the filtered list; nothing else changes |
| EditorComponent.Editor.Payload | src/components/gallery/Editor.tsx:52 | the payload's name is the trimmed name, or `My Gallery` when blank; theme and artworks pass through |
| EditorComponent.Editor.BuildShareLink | src/components/gallery/Editor.tsx:51-56 | the link is `origin + "/gallery/viewer#" + token`, and its hash decodes to the payload |
| EditorComponent.Editor.GenerateLink | src/components/gallery/Editor.tsx:58-60 | the share link becomes the built link |
| EditorComponent.Editor.OpenViewer | src/components/gallery/Editor.tsx:62-66 | a non-empty share link is reused, otherwise one is built; the share link then equals the opened URL |
| EditorComponent.Editor.ResetDraft | src/components/gallery/Editor.tsx:68-71 | only the draft key is removed, so the reload restores nothing |
| EditorComponent.Editor.Grouped | src/components/gallery/Editor.tsx:28-36 | the preview groups the artworks by room key |
| ViewerComponent.ItemRoom | src/components/gallery/Viewer.tsx:19 | an item whose room is a non-blank string is keyed by that string, untrimmed; every other item is keyed `Main` |
| ViewerComponent.ArtworkItems | src/components/gallery/Viewer.tsx:18 | the items grouped are exactly those of the `artworks` array when there is one, and none otherwise |
| ViewerComponent.ItemRoomOfArtwork | src/components/gallery/Viewer.tsx:19 | an artwork and its JSON object fall in the same room |
| ViewerComponent.ArtworkItemsOfGallery | src/components/gallery/Viewer.tsx:18 | the items of a gallery written as JSON are its artworks' objects |
| ViewerComponent.IsDarkGallery | src/components/gallery/Viewer.tsx:30 | the `dark` class is applied exactly for the theme `dark` |
| ViewerComponent.NoArtworksNoGroups | src/components/gallery/Viewer.tsx:18 | a gallery without an `artworks` array shows no rooms |
| ViewerComponent.Viewer.constructor | src/components/gallery/Viewer.tsx:8-9 | the gallery is `galleryFromHash(location.hash)` from the start |
| ViewerComponent.Viewer.OnHashChange | src/components/gallery/Viewer.tsx:10 | after each hash change the gallery is `galleryFromHash` of the new hash |
| ViewerComponent.Viewer.ApplyTheme | src/components/gallery/Viewer.tsx:27-32 | keeps the gallery in step with the hash; when the hash decodes to a gallery, `dark` is set exactly when its theme is `dark`, otherwise nothing changes |
| ViewerComponent.Viewer.Grouped | src/components/gallery/Viewer.tsx:15-24 | a hash that decodes to no gallery shows no groups; otherwise the decoded gallery's artworks are grouped by room key |
| ViewerComponent.ShareLinkShowsPayload | src/components/gallery/Viewer.tsx:9 | the viewer opened on the editor's link shows the payload, in the rooms of the editor's preview, in the same order |
| ViewerComponent.KeysOfJson | src/components/gallery/Viewer.tsx:17-23 | writing artworks as JSON keeps their rooms in the same order |

## Left out

- `generateId` (`Math.random`) is a parameter of `AddArtwork`. No uniqueness is claimed. `RemoveUndoesAdd` assumes a fresh id as a precondition.
- Browser side effects are left out: `window.open` (the URL is returned instead), `location.reload`, and the `hashchange` listener registration and cleanup. `location.origin` and `location.hash` are parameters.
- Effect and memo scheduling is left out. The effects and handlers are methods that the caller invokes in the order the framework would.
- JSX rendering is left out, and `src/scripts/menu.js` is not part of this model.
- localStorage exceptions are not modelled: quota, and storage disabled while `window` exists. The `catch` branches are no-ops in the source as well.
- Model.Base64RoundTrip: holds only for text that does not start with U+FEFF, because `TextDecoder` strips a leading byte order mark. The JSON text of a gallery starts with `{`, so the gallery round trip is unaffected.
- Strings are sequences of Unicode scalar values. `TextEncoder`'s replacement of lone surrogates cannot arise. `JSON.parse` rejects a `\u` escape that would produce a lone surrogate, where JavaScript accepts it.
- JSON numbers are kept as their literal text. Number values, their normalisation by `JSON.stringify`, and IEEE underflow in truthiness are not modelled. Json.ParseStringify is stated for values without numbers, which is what galleries contain.
- Objects keep their members in insertion order. JavaScript lists integer-like keys first; gallery keys are never integer-like.
- EditorComponent.RestoreFrom: the editor's state is typed. A truthy non-string `name` or `theme` in a draft restores as the default, where the source would keep the raw value. Artworks are read field by field: a missing or non-string field becomes `""`, and a non-string room becomes absent.
- ViewerComponent.ArtworkItems: a truthy non-array `artworks` gives no items. The source throws for a non-iterable object and iterates the characters of a string.
- ViewerComponent.ItemRoom: a non-string room goes to `Main`. The source throws on `.trim()` for a truthy non-string room and on `a.room` for a `null` item.
- EditorComponent.HashPart: a URL that ends in a bare `#` gives `"#"` here, where `location.hash` gives `""`. `Model.DecodeHash` maps both to no gallery, so the share link is unaffected.
- The theme type `'light' | 'dark'` is a plain string. The select offers only those two values, and a draft can hold any string.
