/**
 * How the data store finds things: an album by name ignoring case, a photo
 * in an album by image path and then by file name, a photo by id, and the
 * album-then-everywhere search that tag edits and renames use.
 */
module Lookup {
  import opened Wrappers
  import opened Text
  import opened Seqs
  import opened Photos
  import opened Albums
  import opened AlbumNames

  /** The albums' names, in list order. */
  function Names(albs: seq<Album>): seq<string>
    reads albs
  {
    seq(|albs|, i requires 0 <= i < |albs| reads albs => albs[i].name)
  }

  /** The album `findAlbumByName(key)` returns from `albs`: the first whose name equals `key` ignoring case. */
  function AlbumNamed(albs: seq<Album>, key: string): (a: Album?)
    reads albs
    ensures a != null ==> a in albs && EqualsIgnoreCase(a.name, key)
    ensures a == null <==> forall j :: 0 <= j < |albs| ==> !EqualsIgnoreCase(albs[j].name, key)
  {
    var names := Names(albs);
    assert forall j :: 0 <= j < |albs| ==> names[j] == albs[j].name;
    var i := FirstCi(names, key);
    if i < |albs| then albs[i] else null
  }

  /** The album found is the first of the list whose name matches: every album before it has another name. */
  lemma AlbumNamedIsFirst(albs: seq<Album>, key: string)
    ensures var a := AlbumNamed(albs, key);
      a != null ==> exists i :: 0 <= i < |albs| && albs[i] == a
                                && forall j :: 0 <= j < i ==> !EqualsIgnoreCase(albs[j].name, key)
  {
    var names := Names(albs);
    var i := FirstCi(names, key);
    if i < |albs| {
      assert forall j :: 0 <= j < i ==> names[j] == albs[j].name;
    }
  }

  /** The photos of all the albums. */
  ghost function PhotoSet(albs: seq<Album>): set<Photo>
    reads albs
  {
    set a, p | a in albs && p in a.photos :: p
  }

  /** The first photo whose image path is `path`; `|ps|` when there is none. */
  function PathIndex(ps: seq<Photo>, path: string): (i: nat)
    ensures i <= |ps|
    ensures i < |ps| ==> ps[i].imagePath == path
    ensures forall j :: 0 <= j < i ==> ps[j].imagePath != path
  {
    if ps == [] then 0
    else if ps[0].imagePath == path then 0
    else
      var i := 1 + PathIndex(ps[1..], path);
      assert forall j :: 0 < j < |ps| ==> ps[j] == ps[1..][j - 1];
      i
  }

  /** The first photo whose file name is `name`; `|ps|` when there is none. */
  function NameIndex(ps: seq<Photo>, name: string): (i: nat)
    reads ps
    ensures i <= |ps|
    ensures i < |ps| ==> ps[i].filename == name
    ensures forall j :: 0 <= j < i ==> ps[j].filename != name
  {
    if ps == [] then 0
    else if ps[0].filename == name then 0
    else
      var i := 1 + NameIndex(ps[1..], name);
      assert forall j :: 0 < j < |ps| ==> ps[j] == ps[1..][j - 1];
      i
  }

  /** The first photo whose id is `photoId`; `|ps|` when there is none or the id is null. */
  function IdIndex(ps: seq<Photo>, photoId: Option<string>): (i: nat)
    ensures i <= |ps|
    ensures i < |ps| ==> photoId.Some? && ps[i].id == photoId.value
    ensures forall j :: 0 <= j < i ==> photoId.None? || ps[j].id != photoId.value
  {
    if ps == [] then 0
    else if photoId.Some? && ps[0].id == photoId.value then 0
    else
      var i := 1 + IdIndex(ps[1..], photoId);
      assert forall j :: 0 < j < |ps| ==> ps[j] == ps[1..][j - 1];
      i
  }

  /** The photo at the first position with a given id is that position's first occurrence. */
  lemma IdIndexFirstOccurrence(ps: seq<Photo>, photoId: Option<string>)
    requires IdIndex(ps, photoId) < |ps|
    ensures IndexOf(ps, ps[IdIndex(ps, photoId)]) == IdIndex(ps, photoId)
  {
  }

  /**
   * `findPhotoInAlbum` on an album's photos: the first photo with the image
   * path, and only when none has it, the first with the file name.
   */
  function PhotoLookup(ps: seq<Photo>, imagePath: Option<string>, filename: Option<string>): (p: Photo?)
    reads ps
    ensures p != null ==> p in ps
    ensures p != null ==> (imagePath.Some? && p.imagePath == imagePath.value)
                          || (filename.Some? && p.filename == filename.value)
    ensures imagePath.Some? && PathIndex(ps, imagePath.value) < |ps| ==> p == ps[PathIndex(ps, imagePath.value)]
    ensures p == null <==> forall j :: 0 <= j < |ps| ==>
                             (imagePath.None? || ps[j].imagePath != imagePath.value)
                             && (filename.None? || ps[j].filename != filename.value)
  {
    var i := if imagePath.Some? then PathIndex(ps, imagePath.value) else |ps|;
    if i < |ps| then ps[i]
    else
      var j := if filename.Some? then NameIndex(ps, filename.value) else |ps|;
      if j < |ps| then ps[j] else null
  }

  /** When no photo has the image path, the photo found is the first one with the file name. */
  lemma PhotoLookupFirstName(ps: seq<Photo>, imagePath: Option<string>, filename: Option<string>)
    requires imagePath.None? || PathIndex(ps, imagePath.value) == |ps|
    requires filename.Some? && NameIndex(ps, filename.value) < |ps|
    ensures PhotoLookup(ps, imagePath, filename) == ps[NameIndex(ps, filename.value)]
  {
  }

  /** The first album in which `PhotoLookup` finds something; `|albs|` when it finds nothing anywhere. */
  function ScanIndex(albs: seq<Album>, imagePath: Option<string>, filename: Option<string>): (i: nat)
    reads albs, PhotoSet(albs)
    ensures i <= |albs|
    ensures i < |albs| ==> PhotoLookup(albs[i].photos, imagePath, filename) != null
    ensures forall j :: 0 <= j < i ==> PhotoLookup(albs[j].photos, imagePath, filename) == null
  {
    if albs == [] then 0
    else
      assert forall p :: p in albs[0].photos ==> p in PhotoSet(albs);
      if PhotoLookup(albs[0].photos, imagePath, filename) != null then 0
      else
        assert PhotoSet(albs[1..]) <= PhotoSet(albs) by {
          forall p | p in PhotoSet(albs[1..]) ensures p in PhotoSet(albs) {
            var a :| a in albs[1..] && p in a.photos;
            assert a in albs;
          }
        }
        var i := 1 + ScanIndex(albs[1..], imagePath, filename);
        assert forall j :: 0 < j < |albs| ==> albs[j] == albs[1..][j - 1];
        i
  }

  /**
   * The photo that `addTag`, `removeTag` and `renamePhoto` act on: looked up
   * in the named album first; when that finds nothing and an image path is
   * given, in each album in turn.
   */
  function Locate(albs: seq<Album>, albumName: Option<string>, imagePath: Option<string>, filename: Option<string>): (p: Photo?)
    reads albs, PhotoSet(albs)
  {
    var a := if albumName.Some? then AlbumNamed(albs, albumName.value) else null;
    assert a != null ==> forall q :: q in a.photos ==> q in PhotoSet(albs);
    var p := if a != null then PhotoLookup(a.photos, imagePath, filename) else null;
    if p == null && imagePath.Some? then
      var i := ScanIndex(albs, imagePath, filename);
      if i < |albs| then
        assert forall q :: q in albs[i].photos ==> q in PhotoSet(albs);
        PhotoLookup(albs[i].photos, imagePath, filename)
      else null
    else p
  }

  /** What `Locate` finds is a photo of the collection that has the path or the file name asked for. */
  lemma LocateSound(albs: seq<Album>, albumName: Option<string>, imagePath: Option<string>, filename: Option<string>)
    ensures var p := Locate(albs, albumName, imagePath, filename);
      p != null ==> p in PhotoSet(albs)
                    && ((imagePath.Some? && p.imagePath == imagePath.value) || (filename.Some? && p.filename == filename.value))
  {
    var p := Locate(albs, albumName, imagePath, filename);
    if p != null {
      var a := if albumName.Some? then AlbumNamed(albs, albumName.value) else null;
      var q := if a != null then PhotoLookup(a.photos, imagePath, filename) else null;
      if q != null {
        assert p == q && p in a.photos;
      } else {
        var i := ScanIndex(albs, imagePath, filename);
        assert p in albs[i].photos && albs[i] in albs;
      }
    }
  }

  /** When the named album holds a matching photo, the search never leaves that album. */
  lemma LocatePrefersNamedAlbum(albs: seq<Album>, albumName: string, imagePath: Option<string>, filename: Option<string>)
    requires AlbumNamed(albs, albumName) != null
    requires PhotoLookup(AlbumNamed(albs, albumName).photos, imagePath, filename) != null
    ensures Locate(albs, Some(albumName), imagePath, filename) in AlbumNamed(albs, albumName).photos
  {
  }

  /** Without an image path there is no search beyond the named album. */
  lemma LocateWithoutPathStaysInAlbum(albs: seq<Album>, albumName: Option<string>, filename: Option<string>)
    ensures var p := Locate(albs, albumName, None, filename);
      p != null ==> albumName.Some? && AlbumNamed(albs, albumName.value) != null
                    && p in AlbumNamed(albs, albumName.value).photos
  {
  }

  /** With an image path that some photo of the collection has, the search always finds a photo. */
  lemma LocateFindsKnownPath(albs: seq<Album>, albumName: Option<string>, imagePath: string, filename: Option<string>, k: nat, q: Photo)
    requires k < |albs| && q in albs[k].photos && q.imagePath == imagePath
    ensures Locate(albs, albumName, Some(imagePath), filename) != null
  {
    var j :| 0 <= j < |albs[k].photos| && albs[k].photos[j] == q;
    assert PhotoLookup(albs[k].photos, Some(imagePath), filename) != null;
    assert ScanIndex(albs, Some(imagePath), filename) <= k;
  }

  /**
   * `renameAlbum` tests `existing != album` on objects; that is the same as
   * asking whether the new name first matches a different position than the
   * old one.
   */
  lemma {:induction false} SameAlbumNamedIff(albs: seq<Album>, oldName: string, newName: string)
    requires AlbumNamed(albs, oldName) != null
    ensures var names := Names(albs);
      var i := FirstCi(names, oldName);
      var k := FirstCi(names, newName);
      && i < |albs|
      && (AlbumNamed(albs, newName) != null && AlbumNamed(albs, newName) != AlbumNamed(albs, oldName)
          <==> k < |albs| && k != i)
  {
    var names := Names(albs);
    var i := FirstCi(names, oldName);
    var k := FirstCi(names, newName);
    if k < |albs| && albs[k] == albs[i] {
      assert names[k] == names[i];
      FirstCiFolds(names, oldName, newName);
    }
  }

  /** Names unique ignoring case make the albums distinct objects. */
  lemma UniqueNamesDistinctAlbums(albs: seq<Album>, i: nat, j: nat)
    requires UniqueCi(Names(albs)) && i < |albs| && j < |albs| && i != j
    ensures albs[i] != albs[j]
  {
    assert Names(albs)[i] == albs[i].name && Names(albs)[j] == albs[j].name;
  }
}
