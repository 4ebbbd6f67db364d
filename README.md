# Photo albums: data store, tag search and the album model

This project models the core of an Android photo-album app:

- the data store (`DataStore`) that owns the one in-memory album collection and creates, deletes and renames albums;
- the store's photo operations, by path or file name, by position and by id: add, remove, move and rename;
- the store's tag operations on photos;
- the tag search (`SearchManager`): prefix search on one tag criterion, AND/OR over two criteria, and the sorted tag-value suggestions behind autocomplete;
- the entities it works on: `Album`, `Photo`, `Tag` and `TagType`.

Modules, one per file:

| file | module | models |
|---|---|---|
| wrappers.dfy | `Wrappers` | `Option`, which stands for Java's nullable references |
| text.dfy | `Text` | the string library calls the app relies on: ASCII case folding, `trim`, `startsWith`, `File.getName`, `String.hashCode`, `String.CASE_INSENSITIVE_ORDER` |
| seqs.dfy | `Seqs` | `List.indexOf`, `remove`, `contains`-guarded `add`, `retainAll`, the `HashSet` union; no repeats; subsequences |
| tags.dfy | `Tags` | `TagType`, `Tag`, tag equality ignoring case, tag lists without equal tags |
| photo.dfy | `Photos` | class `Photo`; photos are compared by reference, as in the app |
| album.dfy | `Albums` | class `Album`; album equality ignoring the case of the name |
| names.dfy | `AlbumNames` | the store's rules on album names, on the list of names alone |
| lookup.dfy | `Lookup` | what the store's lookups answer: album by name, photo by path or file name, by id, and the fallback scan over all albums |
| store.dfy | `Store` | class `DataStore`; one method per store operation |
| search.dfy | `Search` | the search operations as methods with loops, proved against functions |

The store is a class. Its `albums` field is the collection the Java code keeps in a static list. A ghost counter `saves` records each `persist`. Every operation is specified in three ways:

- when it succeeds, as an "if and only if";
- the exact new state on success;
- "nothing changed, nothing saved" on refusal.

Where the source loops over albums or photos (`findAlbumByName`, `findPhotoInAlbum`, the fallback scan, the id loops), the loop is a method proved equal to a function of `Lookup`. The other operations reuse those functions. The duplicate-tag scans of `addTag` and `removeTag` are loops inside `AddTag` and `RemoveTag`; their invariants are stated over `Tags.TagEquals`. `AddTag` is tied to `Tags.HasEqualTag` and `RemoveTag` to `Tags.RemoveEqualTag`.

Album-name uniqueness ignoring case is shown to be preserved by create, rename and delete when the name is already trimmed. `createAlbum` and `renameAlbum` look the untrimmed name up but store the trimmed one. `AlbumNames.UntrimmedNameBreaksUniqueness` exhibits the input that breaks uniqueness: a name " trip" next to an album "Trip". The app's screens trim names before calling the store, so this model keeps the store's code as written.

## Model

| member | source | states |
|---|---|---|
| Text.Trim | app/src/main/java/com/example/myapplication/util/DataStore.java:44 | `trim` gives a contiguous piece of the string with no strippable character at either end; it is empty exactly when every character is strippable; `Text.TrimStripsOnlyEnds` shows only the two ends are cut |
| Text.TrimStripsOnlyEnds | app/src/main/java/com/example/myapplication/util/DataStore.java:44 | `trim` removes strippable characters only, and only from the two ends: what lies before and after the piece kept is all strippable |
| Text.TrimIdempotent | app/src/main/java/com/example/myapplication/util/DataStore.java:46 | trimming an already trimmed name changes nothing |
| Text.BaseName | app/src/main/java/com/example/myapplication/model/Photo.java:15 | the file name taken from a path is a suffix of the path without '/', preceded by '/' unless it is the whole path |
| Text.StringHash | app/src/main/java/com/example/myapplication/model/Album.java:77 | `String.hashCode` stays within 32 bits |
| Text.CiLeqTotal | app/src/main/java/com/example/myapplication/util/SearchManager.java:77 | the case-insensitive order compares any two strings |
| Text.CiLeqTransitive | app/src/main/java/com/example/myapplication/util/SearchManager.java:77 | the case-insensitive order is transitive |
| Seqs.IndexOf | app/src/main/java/com/example/myapplication/model/Album.java:51 | `indexOf` is the first position holding the element, and past the end exactly when it is absent |
| Seqs.RemoveFirst | app/src/main/java/com/example/myapplication/model/Album.java:36 | `remove` leaves the list alone when the element is absent, and otherwise shortens it by one |
| Seqs.RemoveFirstSlices | app/src/main/java/com/example/myapplication/model/Album.java:36 | `remove` takes out exactly the first occurrence: what comes before it, then what comes after it |
| Seqs.RemoveFirstNoDup | app/src/main/java/com/example/myapplication/model/Album.java:35-37 | removing from a list without repeats leaves every other element, no repeats and no trace of the removed one |
| Seqs.AppendIfAbsent | app/src/main/java/com/example/myapplication/model/Album.java:29-33 | the list unchanged when it holds the element, and the list with the element appended otherwise; `Seqs.AppendIfAbsentNoDup` states what that gives |
| Seqs.AppendIfAbsentNoDup | app/src/main/java/com/example/myapplication/model/Album.java:29-33 | adding unless present keeps a list free of repeats, holds the element, and adds nothing else |
| Seqs.Retain | app/src/main/java/com/example/myapplication/util/SearchManager.java:53 | `retainAll` keeps exactly the elements of the first list found in the second, in their order, without adding repeats; `Seqs.RetainCounts` counts the copies kept |
| Seqs.RetainCounts | app/src/main/java/com/example/myapplication/util/SearchManager.java:53 | `retainAll` keeps every copy of an element the second list holds and drops every copy of one it does not |
| Seqs.Union | app/src/main/java/com/example/myapplication/util/SearchManager.java:56-57 | the union starts with the first list, unchanged and in order |
| Seqs.UnionSpec | app/src/main/java/com/example/myapplication/util/SearchManager.java:56-57 | the union holds exactly the elements of either list, once each |
| Tags.FirstMatching | app/src/main/java/com/example/myapplication/model/TagType.java:20-24 | the scan over the constants returns one whose display name matches ignoring case, or none when no constant matches |
| Tags.FromString | app/src/main/java/com/example/myapplication/model/TagType.java:19-26 | `fromString` gives LOCATION exactly for "Location" in any case, and PERSON for everything else, null included |
| Tags.FromStringDisplayName | app/src/main/java/com/example/myapplication/model/TagType.java:19-26 | parsing a constant's display name gives the constant back |
| Tags.FromStringIgnoresCase | app/src/main/java/com/example/myapplication/model/TagType.java:21 | two strings equal ignoring case parse to the same constant |
| Tags.DisplayName | app/src/main/java/com/example/myapplication/model/TagType.java:6-17 | each constant's display name is its own name ignoring case, written in other letter case ("Person", "Location") |
| Tags.DisplayNameInjective | app/src/main/java/com/example/myapplication/model/TagType.java:6-7 | distinct constants have distinct display names |
| Tags.TagFromStrings | app/src/main/java/com/example/myapplication/model/Tag.java:15-18 | the string constructor keeps the value, and the type is LOCATION exactly when the type string is "Location" ignoring case |
| Tags.TagFromDisplayName | app/src/main/java/com/example/myapplication/model/Tag.java:15-18 | the string constructor, given a type's display name, builds the same tag as the typed constructor |
| Tags.TagEquals | app/src/main/java/com/example/myapplication/model/Tag.java:33-39 | two tags are equal exactly when they have the same type and values of the same length that agree character by character once lower-cased |
| Tags.TagEqualsIsEquivalence | app/src/main/java/com/example/myapplication/model/Tag.java:33-39 | tag equality (same type, value equal ignoring case) is reflexive, symmetric and transitive |
| Tags.TagHash | app/src/main/java/com/example/myapplication/model/Tag.java:41-44 | the tag hash stays within 32 bits |
| Tags.EqualTagsHashAlike | app/src/main/java/com/example/myapplication/model/Tag.java:41-44 | equal tags have equal hash codes |
| Tags.TagToString | app/src/main/java/com/example/myapplication/model/Tag.java:28-31 | the printed form is the display name, then ": ", then the value, and nothing else |
| Tags.TagToStringParses | app/src/main/java/com/example/myapplication/model/Tag.java:28-31 | the printed form is the display name, which parses back to the type, then ": ", then the value |
| Tags.IndexOfTag | app/src/main/java/com/example/myapplication/model/Photo.java:52 | the first tag equal to the given one, and past the end exactly when no tag is equal |
| Tags.RemoveEqualTag | app/src/main/java/com/example/myapplication/model/Photo.java:47-49 | removal leaves the list alone when no tag is equal, and otherwise takes out one tag |
| Tags.RemoveEqualTagSlices | app/src/main/java/com/example/myapplication/model/Photo.java:48 | removal takes out exactly the first equal tag |
| Tags.DistinctAfterAppend | app/src/main/java/com/example/myapplication/model/Photo.java:41-45 | appending a tag with no equal keeps the list free of equal tags |
| Tags.DistinctAfterRemove | app/src/main/java/com/example/myapplication/model/Photo.java:47-49 | removing keeps the list free of equal tags and leaves none equal to the removed one |
| Tags.RemoveEqualTagFolds | app/src/main/java/com/example/myapplication/util/DataStore.java:226-233 | removing the stored tag found by the scan, or the argument equal to it, removes the same element |
| Photos.Photo.FromPath | app/src/main/java/com/example/myapplication/model/Photo.java:13-17 | the one-argument constructor names the photo after the last path component and starts with no tags |
| Photos.Photo.constructor | app/src/main/java/com/example/myapplication/model/Photo.java:19-23 | the two-argument constructor keeps path and name as given and starts with no tags |
| Photos.Photo.SetFilename | app/src/main/java/com/example/myapplication/model/Photo.java:33-35 | only the file name changes; the image path is a constant |
| Photos.Photo.HasTag | app/src/main/java/com/example/myapplication/model/Photo.java:51-53 | true exactly when some stored tag has the type and a value equal ignoring case |
| Photos.Photo.AddTag | app/src/main/java/com/example/myapplication/model/Photo.java:41-45 | appends the tag only when no equal tag is present; afterwards an equal tag is present and the list stays free of equal tags |
| Photos.Photo.RemoveTag | app/src/main/java/com/example/myapplication/model/Photo.java:47-49 | removes the first equal tag, nothing when there is none; afterwards no equal tag remains in a list without equal tags |
| Photos.Photo.GetTagsByType | app/src/main/java/com/example/myapplication/model/Photo.java:55-63 | the loop returns exactly the tags of the type, as an order-keeping subsequence |
| Photos.TagsOfType | app/src/main/java/com/example/myapplication/model/Photo.java:55-63 | the tags of a type: all of them, only them, in list order; `Photos.TagsOfTypeKeepsCopies` counts the copies kept |
| Photos.TagsOfTypeKeepsCopies | app/src/main/java/com/example/myapplication/model/Photo.java:55-63 | every copy of a tag of the type is kept, and no copy of any other tag |
| Albums.Album.constructor | app/src/main/java/com/example/myapplication/model/Album.java:12-15 | a new album has the name and no photos |
| Albums.Album.SetName | app/src/main/java/com/example/myapplication/model/Album.java:21-23 | only the name changes |
| Albums.Album.AddPhoto | app/src/main/java/com/example/myapplication/model/Album.java:29-33 | appends the photo unless that very photo is present; the list stays free of repeats |
| Albums.Album.RemovePhoto | app/src/main/java/com/example/myapplication/model/Album.java:35-37 | removes the first occurrence only; in a list without repeats the photo is then gone |
| Albums.Album.GetPhotoAt | app/src/main/java/com/example/myapplication/model/Album.java:39-44 | the photo at the index inside the list, null exactly outside it |
| Albums.Album.GetPhotoCount | app/src/main/java/com/example/myapplication/model/Album.java:46-48 | the number of photos |
| Albums.Album.GetPhotoIndex | app/src/main/java/com/example/myapplication/model/Album.java:50-52 | the first position of the photo, -1 exactly when it is absent |
| Albums.Album.MovePhotoToAlbum | app/src/main/java/com/example/myapplication/model/Album.java:54-61 | true exactly when the photo is here; then it leaves this album and joins the target unless already there; otherwise neither album changes |
| Albums.MoveKeepsPhotoOnce | app/src/main/java/com/example/myapplication/model/Album.java:54-61 | a moved photo leaves the source, is in the destination once, and a move within one album puts it last |
| Albums.Album.Equals | app/src/main/java/com/example/myapplication/model/Album.java:68-73 | another album, not null, whose name is this one's ignoring case; `Albums.AlbumEqualsConsistent` proves it an equivalence |
| Albums.Album.HashCode | app/src/main/java/com/example/myapplication/model/Album.java:75-78 | the hash of the lower-cased name, within 32 bits; `Albums.AlbumEqualsConsistent` proves equal albums hash alike |
| Albums.AlbumEqualsConsistent | app/src/main/java/com/example/myapplication/model/Album.java:68-78 | album equality is an equivalence, and equal albums hash alike |
| Albums.IndexOfEqualAlbum | app/src/main/java/com/example/myapplication/util/DataStore.java:56 | `remove(a)` on the collection acts on the first album that `a` equals |
| AlbumNames.FirstCi | app/src/main/java/com/example/myapplication/util/DataStore.java:238-246 | the first name equal to the key ignoring case, none before it |
| AlbumNames.FirstCiFolds | app/src/main/java/com/example/myapplication/util/DataStore.java:241 | lookup depends only on the lower-cased key |
| AlbumNames.FirstCiOnlyMatch | app/src/main/java/com/example/myapplication/util/DataStore.java:242-243 | among unique names, the name found is the only one that matches |
| AlbumNames.CreateKeepsNamesUnique | app/src/main/java/com/example/myapplication/util/DataStore.java:42-50 | creating under an accepted, already trimmed name keeps the names unique ignoring case |
| AlbumNames.UntrimmedNameBreaksUniqueness | app/src/main/java/com/example/myapplication/util/DataStore.java:44-46 | with an album "Trip", create accepts " trip" and the stored name "trip" duplicates it |
| AlbumNames.CaseOnlyRenameAccepted | app/src/main/java/com/example/myapplication/util/DataStore.java:66-67 | renaming an album to its own name in other letter case is accepted |
| AlbumNames.RenameOntoOtherRefused | app/src/main/java/com/example/myapplication/util/DataStore.java:66-67 | renaming onto the name of a different album is refused |
| AlbumNames.RenameKeepsNamesUnique | app/src/main/java/com/example/myapplication/util/DataStore.java:61-71 | an accepted rename to an already trimmed name keeps the names unique |
| AlbumNames.DeleteKeepsNamesUnique | app/src/main/java/com/example/myapplication/util/DataStore.java:52-59 | deleting keeps the remaining names unique |
| Lookup.AlbumNamed | app/src/main/java/com/example/myapplication/util/DataStore.java:238-246 | the album found has a matching name, and none is found exactly when no album matches; `Lookup.AlbumNamedIsFirst` shows it is the first match |
| Lookup.AlbumNamedIsFirst | app/src/main/java/com/example/myapplication/util/DataStore.java:242-243 | the album found is the first of the list whose name matches: every album before it has another name |
| Lookup.PathIndex | app/src/main/java/com/example/myapplication/util/DataStore.java:250-254 | the first photo with the image path |
| Lookup.NameIndex | app/src/main/java/com/example/myapplication/util/DataStore.java:255-259 | the first photo with the file name |
| Lookup.IdIndex | app/src/main/java/com/example/myapplication/util/DataStore.java:147-153 | the first photo with the id; none for a null id |
| Lookup.IdIndexFirstOccurrence | app/src/main/java/com/example/myapplication/util/DataStore.java:161-164 | the photo found by id is at its first occurrence, so `removePhoto` takes out that very position |
| Lookup.PhotoLookup | app/src/main/java/com/example/myapplication/util/DataStore.java:248-261 | the first path match wins over any file-name match; the photo found is in the album and has the path or the name; null exactly when neither matches; `Lookup.PhotoLookupFirstName` shows a file-name match is the first one |
| Lookup.PhotoLookupFirstName | app/src/main/java/com/example/myapplication/util/DataStore.java:250-259 | when no photo has the image path, the photo found is the first with the file name |
| Lookup.ScanIndex | app/src/main/java/com/example/myapplication/util/DataStore.java:195-200 | the fallback scan stops at the first album holding a match |
| Lookup.Locate | app/src/main/java/com/example/myapplication/util/DataStore.java:191-200 | the photo found in the named album, else, given a path, in the first album of the fallback scan that has a match; `Lookup.LocateSound` and the lemmas below state what that photo is |
| Lookup.LocateSound | app/src/main/java/com/example/myapplication/util/DataStore.java:188-201 | the photo the tag operations act on is in the collection and has the path or the file name asked for |
| Lookup.LocatePrefersNamedAlbum | app/src/main/java/com/example/myapplication/util/DataStore.java:191-193 | a match in the named album is the one used |
| Lookup.LocateWithoutPathStaysInAlbum | app/src/main/java/com/example/myapplication/util/DataStore.java:195 | without an image path the fallback scan does not run |
| Lookup.LocateFindsKnownPath | app/src/main/java/com/example/myapplication/util/DataStore.java:195-200 | a path held by some photo of the collection is always found |
| Lookup.SameAlbumNamedIff | app/src/main/java/com/example/myapplication/util/DataStore.java:63-67 | the rename check's reference comparison agrees with comparing positions in the name list |
| Lookup.UniqueNamesDistinctAlbums | app/src/main/java/com/example/myapplication/util/DataStore.java:56 | with unique names, different positions hold different albums |
| Store.DataStore.constructor | app/src/main/java/com/example/myapplication/util/DataStore.java:25-30 | the store starts from the loaded collection, with nothing saved |
| Store.DataStore.Persist | app/src/main/java/com/example/myapplication/util/DataStore.java:32-35 | one more save |
| Store.DataStore.GetAlbums | app/src/main/java/com/example/myapplication/util/DataStore.java:37-40 | the live collection itself |
| Store.DataStore.FindAlbumByName | app/src/main/java/com/example/myapplication/util/DataStore.java:238-246 | the loop returns null for a null name, otherwise the first album named so ignoring case |
| Store.DataStore.FindPhotoInAlbum | app/src/main/java/com/example/myapplication/util/DataStore.java:248-261 | the two loops return null for a null album, otherwise the path-first, then name lookup |
| Store.DataStore.FindTarget | app/src/main/java/com/example/myapplication/util/DataStore.java:191-201 | the named album first, then, given a path, the first album with a match |
| Store.DataStore.ScanAlbums | app/src/main/java/com/example/myapplication/util/DataStore.java:195-200 | the fallback loop returns the match in the first album that has one |
| Store.DataStore.CreateAlbum | app/src/main/java/com/example/myapplication/util/DataStore.java:42-50 | succeeds exactly for a non-blank name no album has; then one new empty album under the trimmed name is appended and saved; otherwise nothing changes |
| Store.DataStore.DeleteAlbum | app/src/main/java/com/example/myapplication/util/DataStore.java:52-59 | succeeds exactly when an album has the name; then exactly that album leaves, the others keep their order, and the store saves |
| Store.DataStore.Retitle | app/src/main/java/com/example/myapplication/util/DataStore.java:68-69 | the chosen album takes the name; no other album, no photo list changes; one save |
| Store.DataStore.RenameAlbum | app/src/main/java/com/example/myapplication/util/DataStore.java:61-71 | succeeds exactly when the old name is found, the new one is not blank and names no other album; then only that album's name changes, to the trimmed one |
| Store.DataStore.AddPhoto | app/src/main/java/com/example/myapplication/util/DataStore.java:73-81 | null exactly when no album has the name; otherwise a new photo with the fresh id, the path and the given or derived name ends that album |
| Store.DataStore.RemovePhoto | app/src/main/java/com/example/myapplication/util/DataStore.java:83-92 | succeeds exactly when the album holds a match; then that photo's first occurrence leaves the album; otherwise nothing changes |
| Store.DataStore.MovePhoto | app/src/main/java/com/example/myapplication/util/DataStore.java:94-105 | succeeds exactly when both albums exist and the source holds a match; then the photo leaves the source and joins the destination unless already there |
| Store.DataStore.RenamePhoto | app/src/main/java/com/example/myapplication/util/DataStore.java:107-123 | succeeds exactly for a non-blank name and a photo the lookup finds; then only that photo's name changes, to the trimmed one |
| Store.DataStore.RenamePhotoByIndex | app/src/main/java/com/example/myapplication/util/DataStore.java:128-139 | succeeds exactly for a non-blank name, a known album and an index inside it; then only the photo there is renamed |
| Store.DataStore.RenamePhotoById | app/src/main/java/com/example/myapplication/util/DataStore.java:142-155 | succeeds exactly for a non-blank name and an id some photo of the album has; then only the first such photo is renamed |
| Store.DataStore.RemovePhotoById | app/src/main/java/com/example/myapplication/util/DataStore.java:157-170 | succeeds exactly when some photo of the album has the id; then only the first such photo leaves the album |
| Store.DataStore.MovePhotoById | app/src/main/java/com/example/myapplication/util/DataStore.java:172-186 | succeeds exactly when both albums exist and the source has the id; then that very photo, id and tags untouched, leaves the source and joins the destination, last when the two are one album |
| Store.DataStore.AddTag | app/src/main/java/com/example/myapplication/util/DataStore.java:188-211 | succeeds exactly for a tag, a photo the lookup finds, and no equal tag on it; then only that tag is appended, and a photo without equal tags keeps none |
| Store.DataStore.RemoveTag | app/src/main/java/com/example/myapplication/util/DataStore.java:213-236 | succeeds exactly for a tag some tag of the found photo equals; then only the first such tag is removed |
| Search.AllPhotosMembers | app/src/main/java/com/example/myapplication/util/SearchManager.java:26-27 | the album-by-album walk visits exactly the photos of the collection |
| Search.Collect | app/src/main/java/com/example/myapplication/util/SearchManager.java:26-38 | the photos of a photo sequence with a matching tag, each added unless already present; `Search.CollectSpec` states what that gives |
| Search.CollectSpec | app/src/main/java/com/example/myapplication/util/SearchManager.java:26-38 | the collected photos are exactly those with a matching tag, once each, in first-seen order |
| Search.SearchByTag | app/src/main/java/com/example/myapplication/util/SearchManager.java:22-40 | every photo returned has a matching tag, every photo of the collection with one is returned, once, in album-then-photo order |
| Search.SearchByTags | app/src/main/java/com/example/myapplication/util/SearchManager.java:45-60 | AND keeps the first search's results that the second found, in order; OR gives exactly the photos of either; no repeats |
| Search.AndWithinSingleWithinOr | app/src/main/java/com/example/myapplication/util/SearchManager.java:49-59 | an AND result lies within each single search, which lies within the OR result |
| Search.AddValues | app/src/main/java/com/example/myapplication/util/SearchManager.java:69-73 | one photo's tags add each value of the type not yet present; `Search.AddValuesSpec` states what that gives |
| Search.AddValuesSpec | app/src/main/java/com/example/myapplication/util/SearchManager.java:69-73 | one photo's pass adds exactly the values of its tags of the type, keeping no repeats |
| Search.ValuesIn | app/src/main/java/com/example/myapplication/util/SearchManager.java:66-75 | the values of the type gathered photo after photo; `Search.ValuesInSpec` states what that gives |
| Search.ValuesInSpec | app/src/main/java/com/example/myapplication/util/SearchManager.java:66-75 | the set holds exactly the values some photo holds under the type, once each |
| Search.ValuesOfCollection | app/src/main/java/com/example/myapplication/util/SearchManager.java:65-75 | those are exactly the tag values of the type found anywhere in the collection |
| Search.CollectTagValues | app/src/main/java/com/example/myapplication/util/SearchManager.java:66-75 | the three loops build exactly that set of values |
| Search.GetTagValueSuggestions | app/src/main/java/com/example/myapplication/util/SearchManager.java:65-79 | every tag value of the type, each exact string once, sorted ignoring case |
| Search.SortCaseInsensitive | app/src/main/java/com/example/myapplication/util/SearchManager.java:77 | the sort permutes its input into case-insensitive order and keeps a list without repeats so |
| Search.InsertCi | app/src/main/java/com/example/myapplication/util/SearchManager.java:77 | inserting into a sorted list keeps it sorted and adds exactly the one value |
| Search.InsertSorted | app/src/main/java/com/example/myapplication/util/SearchManager.java:77 | a value placed after everything not above it and before the next keeps the list sorted |
| Search.InsertContents | app/src/main/java/com/example/myapplication/util/SearchManager.java:77 | insertion adds exactly one copy of the value |
| Search.GetAutocompleteSuggestions | app/src/main/java/com/example/myapplication/util/SearchManager.java:84-96 | exactly the tag values of the type whose lower-cased form starts with the lower-cased prefix, once each, sorted ignoring case |

## Left out

- Loading and the lazy cache: the store is built from the loaded collection, so `ensureLoaded` runs once, at construction. The branches for a cache that is still null (in `findAlbumByName` and `persist`) are not modelled.
- Storage: reading and writing the album file is I/O; `persist` is a ghost save counter, not a copy of what was written.
- `synchronized`, `Context` and logging: operations run one at a time; there is no context and no log.
- Case folding is ASCII only; `Locale`-dependent and Unicode case rules are not modelled.
- Strings are sequences of code points. `String.hashCode` and `String.CASE_INSENSITIVE_ORDER` work on UTF-16 code units, so `Text.StringHash` and the case-insensitive order differ from Java's for characters outside the Basic Multilingual Plane.
- `new File(path).getName()` is modelled as the text after the last '/'.
- Photo ids: the `Photo` class shown has no id field, although the store reads one. The model gives each photo a constant `id`. `AddPhoto` takes the new id as a parameter instead of generating it.
- Nulls are modelled only where the source checks for them: names, paths, file names, tags and ids are `Option`s. An album's name, a photo's image path and a tag's value are never null here. List elements are never null, so the `p == null` checks in `renamePhotoByIndex` and `removePhotoById` are always false. `searchByTag` with a null value (a `NullPointerException` in Java) is not modelled.
- Getters are field reads and have no members of their own.
- Hash codes are kept as their unsigned 32-bit pattern rather than as signed `int` values.
- The store operations act on the photo or album that the lookup functions describe. The loop methods `FindAlbumByName`, `FindPhotoInAlbum`, `FindTarget` and `ScanAlbums` are proved to compute those functions, but the operations do not call them.
- `Album.toString` returns the name field and has no member here.
- Search.SearchByTag: the scan over a photo's tags, which stops at the first match, is modelled as "some tag matches".
- Search.SearchByTags: for OR, the model returns the first result list followed by the new photos of the second. Its contract states only the members and the absence of repeats, since the source's order is a `HashSet`'s.
- Search.GetTagValueSuggestions: `Collections.sort` is modelled as an insertion sort. The contract states a sorted permutation; the order among values equal ignoring case is left open.
- Search.GetAutocompleteSuggestions: states the members, the absence of repeats and the case-insensitive order. It does not state that the result is a subsequence of the suggestion list, because that list's order among values equal ignoring case is left open.
- Store.DataStore.AddTag: the invariant that no photo holds two equal tags is stated for the photo the operation changes, not for the whole collection.
- Store.DataStore.CreateAlbum: name uniqueness is shown preserved only for an already trimmed name; `AlbumNames.UntrimmedNameBreaksUniqueness` shows why.
- Store.DataStore.RenameAlbum: name uniqueness is shown preserved only for an already trimmed new name, for the same reason.
- `TagManager` is not part of this model, nor are the screens and adapters that call the store.
