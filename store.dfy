/**
 * The data store: the one in-memory album collection and every operation
 * that changes it. Each change that succeeds ends by saving the
 * collection; each refusal returns false (or null) before changing or
 * saving anything.
 */
module Store {
  import opened Wrappers
  import opened Text
  import opened Seqs
  import opened Tags
  import opened Photos
  import opened Albums
  import opened AlbumNames
  import opened Lookup

  class DataStore {
    /** The album collection, in the order the albums were created. */
    var albums: seq<Album>
    /** How many times the collection has been saved. */
    ghost var saves: nat

    /**
     * The store as `ensureLoaded` leaves it: `stored` is what loading
     * returned (the saved collection, or an empty one when there is none or
     * it cannot be read); nothing has been saved yet.
     */
    constructor (stored: seq<Album>)
      ensures albums == stored
      ensures saves == 0
    {
      albums := stored;
      saves := 0;
    }

    /** The album `findAlbumByName` answers for a name. */
    function Named(name: Option<string>): Album?
      reads this`albums, albums
    {
      if name.Some? then AlbumNamed(albums, name.value) else null
    }

    ghost function NamedFrame(name: Option<string>): set<object>
      reads this`albums, albums
    {
      var a := Named(name);
      if a == null then {} else {a}
    }

    /** The photo `findPhotoInAlbum` answers in a named album. */
    function InAlbum(albumName: Option<string>, imagePath: Option<string>, filename: Option<string>): Photo?
      reads this`albums, albums, PhotoSet(albums)
    {
      var a := Named(albumName);
      if a == null then null
      else
        assert forall p :: p in a.photos ==> p in PhotoSet(albums);
        PhotoLookup(a.photos, imagePath, filename)
    }

    /** The photo the tag operations and `renamePhoto` act on. */
    function Target(albumName: Option<string>, imagePath: Option<string>, filename: Option<string>): Photo?
      reads this`albums, albums, PhotoSet(albums)
    {
      Locate(albums, albumName, imagePath, filename)
    }

    ghost function TargetFrame(albumName: Option<string>, imagePath: Option<string>, filename: Option<string>): set<object>
      reads this`albums, albums, PhotoSet(albums)
    {
      var p := Target(albumName, imagePath, filename);
      if p == null then {} else {p}
    }

    /** The photo at `index` in a named album. */
    ghost function AtIndex(albumName: Option<string>, index: int): Photo?
      reads this`albums, albums
    {
      var a := Named(albumName);
      if a == null || !(0 <= index < |a.photos|) then null else a.photos[index]
    }

    ghost function AtIndexFrame(albumName: Option<string>, index: int): set<object>
      reads this`albums, albums
    {
      var p := AtIndex(albumName, index);
      if p == null then {} else {p}
    }

    /** The first photo of a named album with a given id. */
    ghost function WithId(albumName: Option<string>, photoId: Option<string>): Photo?
      reads this`albums, albums
    {
      var a := Named(albumName);
      if a == null then null
      else
        var i := IdIndex(a.photos, photoId);
        if i < |a.photos| then a.photos[i] else null
    }

    ghost function WithIdFrame(albumName: Option<string>, photoId: Option<string>): set<object>
      reads this`albums, albums
    {
      var p := WithId(albumName, photoId);
      if p == null then {} else {p}
    }

    /** `persist`: writes the whole collection to storage. */
    method Persist()
      modifies this`saves
      ensures saves == old(saves) + 1
    {
      saves := saves + 1;
    }

    /** `getAlbums`: the live collection itself, the very album objects the operations change. */
    method GetAlbums() returns (r: seq<Album>)
      ensures r == albums
    {
      r := albums;
    }

    /**
     * `findAlbumByName`: null for a null name, otherwise the first album
     * whose name equals `name` ignoring case, null when there is none.
     */
    method FindAlbumByName(name: Option<string>) returns (a: Album?)
      ensures a == if name.Some? then AlbumNamed(albums, name.value) else null
    {
      if name.None? {
        return null;
      }
      var lower := LowerStr(name.value);
      ghost var names := Names(albums);
      for i := 0 to |albums|
        invariant forall j :: 0 <= j < i ==> LowerStr(albums[j].name) != lower
      {
        if LowerStr(albums[i].name) == lower {
          assert names[i] == albums[i].name;
          assert FirstCi(names, name.value) == i;
          return albums[i];
        }
      }
      assert FirstCi(names, name.value) == |albums|;
      return null;
    }

    /**
     * `findPhotoInAlbum`: in a non-null album, the first photo with the
     * image path; failing that, the first with the file name; else null.
     */
    static method FindPhotoInAlbum(album: Album?, imagePath: Option<string>, filename: Option<string>) returns (p: Photo?)
      ensures p == (if album == null then null else PhotoLookup(album.photos, imagePath, filename))
    {
      if album == null {
        return null;
      }
      var photos := album.photos;
      if imagePath.Some? {
        for i := 0 to |photos|
          invariant forall j :: 0 <= j < i ==> photos[j].imagePath != imagePath.value
        {
          if imagePath.value == photos[i].imagePath {
            return photos[i];
          }
        }
      }
      if filename.Some? {
        for i := 0 to |photos|
          invariant forall j :: 0 <= j < i ==> photos[j].filename != filename.value
        {
          if filename.value == photos[i].filename {
            return photos[i];
          }
        }
      }
      return null;
    }

    /**
     * The photo lookup shared by `renamePhoto`, `addTag` and `removeTag`:
     * the named album first, then, when an image path is given, the first
     * album of the collection that has a match.
     */
    method FindTarget(albumName: Option<string>, imagePath: Option<string>, filename: Option<string>) returns (p: Photo?)
      ensures p == Locate(albums, albumName, imagePath, filename)
    {
      var a := FindAlbumByName(albumName);
      p := null;
      if a != null {
        p := FindPhotoInAlbum(a, imagePath, filename);
      }
      if p == null && imagePath.Some? {
        p := ScanAlbums(albums, imagePath, filename);
      }
    }

    /** The fallback loop: the match in the first album of `albs` that has one. */
    static method ScanAlbums(albs: seq<Album>, imagePath: Option<string>, filename: Option<string>) returns (p: Photo?)
      ensures var i := ScanIndex(albs, imagePath, filename);
        p == if i < |albs| then PhotoLookup(albs[i].photos, imagePath, filename) else null
    {
      for i := 0 to |albs|
        invariant forall j :: 0 <= j < i ==> PhotoLookup(albs[j].photos, imagePath, filename) == null
      {
        var q := FindPhotoInAlbum(albs[i], imagePath, filename);
        if q != null {
          assert ScanIndex(albs, imagePath, filename) == i;
          return q;
        }
      }
      assert ScanIndex(albs, imagePath, filename) == |albs|;
      return null;
    }

    /**
     * `createAlbum`: refuses a null or blank name and a name some album has
     * ignoring case; otherwise appends a new, empty album under the trimmed
     * name and saves.
     */
    method CreateAlbum(name: Option<string>) returns (ok: bool)
      modifies this`albums, this`saves
      ensures ok <==> CreateAccepts(old(Names(albums)), name)
      ensures !ok ==> albums == old(albums) && saves == old(saves)
      ensures ok ==> var n := |old(albums)|;
        && |albums| == n + 1 && albums[..n] == old(albums)
        && fresh(albums[n]) && albums[n].name == Trim(name.value) && albums[n].photos == []
        && saves == old(saves) + 1
      ensures ok ==> Names(albums) == old(Names(albums)) + [Trim(name.value)]
      ensures old(UniqueCi(Names(albums))) && name.Some? && Trim(name.value) == name.value ==> UniqueCi(Names(albums))
    {
      ghost var names := Names(albums);
      if name.None? || IsBlank(name.value) {
        return false;
      }
      if Named(name) != null {
        return false;
      }
      var a := new Album(Trim(name.value));
      albums := albums + [a];
      Persist();
      assert Names(albums) == names + [Trim(name.value)];
      if UniqueCi(names) && Trim(name.value) == name.value {
        CreateKeepsNamesUnique(names, name.value);
      }
      return true;
    }

    /**
     * `deleteAlbum`: refuses a name no album has; otherwise removes the
     * first album with that name ignoring case, keeps the others in order,
     * and saves.
     */
    method DeleteAlbum(name: Option<string>) returns (ok: bool)
      modifies this`albums, this`saves
      ensures ok <==> old(Named(name)) != null
      ensures !ok ==> albums == old(albums) && saves == old(saves)
      ensures ok ==> var i := FirstCi(old(Names(albums)), name.value);
        && albums == old(albums)[..i] + old(albums)[i + 1..]
        && saves == old(saves) + 1
      ensures old(UniqueCi(Names(albums))) ==> UniqueCi(Names(albums))
    {
      ghost var names := Names(albums);
      var a := Named(name);
      if a == null {
        return false;
      }
      ghost var i := FirstCi(names, name.value);
      // `List.remove(Object)` takes out the first album that `a` equals.
      var j := IndexOfEqualAlbum(albums, a);
      assert names[i] == a.name && albums[i] == a;
      assert a.Equals(albums[i]);
      assert forall k :: 0 <= k < i ==> !a.Equals(albums[k]) by {
        forall k | 0 <= k < i
          ensures !a.Equals(albums[k])
        {
          assert names[k] == albums[k].name;
          assert !EqualsIgnoreCase(names[k], name.value);
        }
      }
      assert j == i;
      albums := albums[..j] + albums[j + 1..];
      Persist();
      assert Names(albums) == names[..i] + names[i + 1..];
      if UniqueCi(names) {
        DeleteKeepsNamesUnique(names, i);
      }
      return true;
    }

    /** The change `renameAlbum` makes once it has accepted: the album at `i` takes the name, then the store saves. */
    method Retitle(a: Album, ghost i: nat, name: string)
      requires i < |albums| && albums[i] == a
      modifies this`saves, a
      ensures albums == old(albums) && a.name == name && a.photos == old(a.photos)
      ensures forall b :: b in albums && b != a ==> b.name == old(b.name)
      ensures (forall j :: 0 <= j < |albums| && j != i ==> albums[j] != a) ==> Names(albums) == old(Names(albums))[i := name]
      ensures saves == old(saves) + 1
    {
      a.SetName(name);
      saves := saves + 1;
    }

    /**
     * `renameAlbum`: refuses an old name no album has, a null or blank new
     * name, and a new name that a different album has ignoring case;
     * otherwise gives the album the trimmed new name, in place, and saves.
     */
    method RenameAlbum(oldName: Option<string>, newName: Option<string>) returns (ok: bool)
      modifies this`saves, NamedFrame(oldName)
      ensures ok <==> RenameAccepts(old(Names(albums)), oldName, newName)
      ensures ok ==> old(Named(oldName)).name == Trim(newName.value)
      ensures forall b :: b in albums && (!ok || b != old(Named(oldName))) ==> b.name == old(b.name)
      ensures forall b :: b in albums ==> b.photos == old(b.photos)
      ensures !ok ==> saves == old(saves)
      ensures ok ==> saves == old(saves) + 1
      ensures ok && old(UniqueCi(Names(albums))) ==>
        Names(albums) == old(Names(albums))[FirstCi(old(Names(albums)), oldName.value) := Trim(newName.value)]
      ensures old(UniqueCi(Names(albums))) && newName.Some? && Trim(newName.value) == newName.value ==> UniqueCi(Names(albums))
    {
      ghost var names := Names(albums);
      var a := Named(oldName);
      if a == null || newName.None? || IsBlank(newName.value) {
        return false;
      }
      ghost var i := FirstCi(names, oldName.value);
      var existing := Named(newName);
      SameAlbumNamedIff(albums, oldName.value, newName.value);
      if existing != null && existing != a {
        return false;
      }
      if UniqueCi(names) {
        forall j | 0 <= j < |albums| && j != i
          ensures albums[j] != a
        {
          UniqueNamesDistinctAlbums(albums, i, j);
        }
      }
      Retitle(a, i, Trim(newName.value));
      if UniqueCi(names) && Trim(newName.value) == newName.value {
        RenameKeepsNamesUnique(names, oldName.value, newName.value);
      }
      return true;
    }

    /**
     * `addPhoto`: null when no album has the name; otherwise a new photo
     * with a fresh id, the path, and the given file name (the path's last
     * segment when none is given) joins the end of that album, and the store
     * saves.
     */
    method AddPhoto(albumName: Option<string>, imagePath: string, filename: Option<string>, freshId: string) returns (p: Photo?)
      modifies this`saves, NamedFrame(albumName)
      ensures forall b :: b in albums ==> b.name == old(b.name)
      ensures p == null <==> old(Named(albumName)) == null
      ensures p == null ==> saves == old(saves)
      ensures p != null ==>
        && fresh(p) && p.id == freshId && p.imagePath == imagePath && p.tags == []
        && p.filename == (if filename.Some? then filename.value else BaseName(imagePath))
        && old(Named(albumName)).photos == old(Named(albumName).photos) + [p]
        && saves == old(saves) + 1
    {
      var a := Named(albumName);
      if a == null {
        return null;
      }
      if filename.Some? {
        p := new Photo(freshId, imagePath, filename.value);
      } else {
        p := new Photo.FromPath(freshId, imagePath);
      }
      ghost var ps := a.photos;
      assert p !in ps;
      a.AddPhoto(p);
      assert a.photos == ps + [p];
      Persist();
    }

    /**
     * `removePhoto`: refuses when no album has the name or the album holds
     * no photo with the path or file name; otherwise the photo found leaves
     * that album and the store saves.
     */
    method RemovePhoto(albumName: Option<string>, imagePath: Option<string>, filename: Option<string>) returns (ok: bool)
      modifies this`saves, NamedFrame(albumName)
      ensures forall b :: b in albums ==> b.name == old(b.name)
      ensures ok <==> old(InAlbum(albumName, imagePath, filename)) != null
      ensures !ok ==> unchanged(old(NamedFrame(albumName))) && saves == old(saves)
      ensures ok ==>
        && old(Named(albumName)).photos == RemoveFirst<Photo>(old(Named(albumName).photos), old(InAlbum(albumName, imagePath, filename)))
        && saves == old(saves) + 1
    {
      var a := Named(albumName);
      if a == null {
        return false;
      }
      var p := PhotoLookup(a.photos, imagePath, filename);
      if p == null {
        return false;
      }
      a.RemovePhoto(p);
      Persist();
      return true;
    }

    /**
     * `movePhoto`: refuses unless both albums exist and the source holds a
     * photo with the path or file name; otherwise that photo leaves the
     * source, joins the destination unless already there, and the store
     * saves.
     */
    method MovePhoto(fromAlbum: Option<string>, toAlbum: Option<string>, imagePath: Option<string>, filename: Option<string>) returns (ok: bool)
      modifies this`saves, NamedFrame(fromAlbum), NamedFrame(toAlbum)
      ensures ok <==> old(Named(toAlbum)) != null && old(InAlbum(fromAlbum, imagePath, filename)) != null
      ensures !ok ==> unchanged(old(NamedFrame(fromAlbum)), old(NamedFrame(toAlbum))) && saves == old(saves)
      ensures ok ==>
        && Moved(old(Named(fromAlbum)), old(Named(toAlbum)), old(InAlbum(fromAlbum, imagePath, filename)))
        && saves == old(saves) + 1
    {
      var src := Named(fromAlbum);
      var dst := Named(toAlbum);
      if src == null || dst == null {
        return false;
      }
      var p := PhotoLookup(src.photos, imagePath, filename);
      if p == null {
        return false;
      }
      ghost var srcPhotos, dstPhotos := src.photos, dst.photos;
      src.RemovePhoto(p);
      dst.AddPhoto(p);
      assert src != dst ==> src.photos == RemoveFirst<Photo>(srcPhotos, p) && dst.photos == AppendIfAbsent<Photo>(dstPhotos, p);
      assert src == dst ==> src.photos == AppendIfAbsent<Photo>(RemoveFirst<Photo>(srcPhotos, p), p);
      Persist();
      return true;
    }

    /**
     * `renamePhoto`: refuses a null or blank new name and a photo the
     * lookup does not find; otherwise the photo takes the trimmed name and
     * the store saves.
     */
    method RenamePhoto(albumName: Option<string>, imagePath: Option<string>, filename: Option<string>, newFilename: Option<string>) returns (ok: bool)
      modifies this`saves, TargetFrame(albumName, imagePath, filename)
      ensures ok <==> newFilename.Some? && !IsBlank(newFilename.value) && old(Target(albumName, imagePath, filename)) != null
      ensures !ok ==> unchanged(old(TargetFrame(albumName, imagePath, filename))) && saves == old(saves)
      ensures ok ==> var p := old(Target(albumName, imagePath, filename));
        && p.filename == Trim(newFilename.value) && p.tags == old(p.tags)
        && saves == old(saves) + 1
    {
      if newFilename.None? || IsBlank(newFilename.value) {
        return false;
      }
      var p := Target(albumName, imagePath, filename);
      if p == null {
        return false;
      }
      p.SetFilename(Trim(newFilename.value));
      Persist();
      return true;
    }

    /**
     * `renamePhotoByIndex`: refuses a null or blank new name, an unknown
     * album and an index outside the album; otherwise the photo at that
     * position takes the trimmed name and the store saves.
     */
    method RenamePhotoByIndex(albumName: Option<string>, index: int, newFilename: Option<string>) returns (ok: bool)
      modifies this`saves, AtIndexFrame(albumName, index)
      ensures ok <==> newFilename.Some? && !IsBlank(newFilename.value) && old(AtIndex(albumName, index)) != null
      ensures !ok ==> unchanged(old(AtIndexFrame(albumName, index))) && saves == old(saves)
      ensures ok ==> var p := old(AtIndex(albumName, index));
        && p.filename == Trim(newFilename.value) && p.tags == old(p.tags)
        && saves == old(saves) + 1
    {
      if newFilename.None? || IsBlank(newFilename.value) {
        return false;
      }
      var a := Named(albumName);
      if a == null {
        return false;
      }
      if index < 0 || index >= a.GetPhotoCount() {
        return false;
      }
      var p := a.GetPhotoAt(index);
      p.SetFilename(Trim(newFilename.value));
      Persist();
      return true;
    }

    /**
     * `renamePhotoById`: refuses a null or blank new name, an unknown album
     * and an id no photo of the album has; otherwise the first photo with
     * that id takes the trimmed name and the store saves.
     */
    method RenamePhotoById(albumName: Option<string>, photoId: Option<string>, newFilename: Option<string>) returns (ok: bool)
      modifies this`saves, WithIdFrame(albumName, photoId)
      ensures ok <==> newFilename.Some? && !IsBlank(newFilename.value) && old(WithId(albumName, photoId)) != null
      ensures !ok ==> unchanged(old(WithIdFrame(albumName, photoId))) && saves == old(saves)
      ensures ok ==> var p := old(WithId(albumName, photoId));
        && p.filename == Trim(newFilename.value) && p.tags == old(p.tags)
        && saves == old(saves) + 1
    {
      if newFilename.None? || IsBlank(newFilename.value) {
        return false;
      }
      var a := Named(albumName);
      if a == null {
        return false;
      }
      var photos := a.photos;
      for i := 0 to |photos|
        invariant forall j :: 0 <= j < i ==> photoId.None? || photos[j].id != photoId.value
      {
        if photoId.Some? && photoId.value == photos[i].id {
          assert IdIndex(photos, photoId) == i;
          photos[i].SetFilename(Trim(newFilename.value));
          Persist();
          return true;
        }
      }
      assert IdIndex(photos, photoId) == |photos|;
      return false;
    }

    /**
     * `removePhotoById`: refuses an unknown album and an id no photo of the
     * album has; otherwise the first photo with that id leaves the album
     * and the store saves.
     */
    method RemovePhotoById(albumName: Option<string>, photoId: Option<string>) returns (ok: bool)
      modifies this`saves, NamedFrame(albumName)
      ensures forall b :: b in albums ==> b.name == old(b.name)
      ensures ok <==> old(WithId(albumName, photoId)) != null
      ensures !ok ==> unchanged(old(NamedFrame(albumName))) && saves == old(saves)
      ensures ok ==> var ps := old(Named(albumName).photos); var i := IdIndex(ps, photoId);
        && old(Named(albumName)).photos == ps[..i] + ps[i + 1..]
        && saves == old(saves) + 1
    {
      var a := Named(albumName);
      if a == null {
        return false;
      }
      var i := 0;
      while i < a.GetPhotoCount()
        invariant 0 <= i <= |a.photos|
        invariant forall j :: 0 <= j < i ==> photoId.None? || a.photos[j].id != photoId.value
      {
        var p := a.GetPhotoAt(i);
        if p != null && photoId.Some? && photoId.value == p.id {
          assert IdIndex(a.photos, photoId) == i;
          IdIndexFirstOccurrence(a.photos, photoId);
          RemoveFirstSlices<Photo>(a.photos, p);
          a.RemovePhoto(p);
          Persist();
          return true;
        }
        i := i + 1;
      }
      assert IdIndex(a.photos, photoId) == |a.photos|;
      return false;
    }

    /**
     * `movePhotoById`: refuses unless both albums exist and the source holds
     * a photo with the id; otherwise the first such photo leaves the source,
     * joins the destination unless already there, and the store saves.
     */
    method MovePhotoById(fromAlbum: Option<string>, toAlbum: Option<string>, photoId: Option<string>) returns (ok: bool)
      modifies this`saves, NamedFrame(fromAlbum), NamedFrame(toAlbum)
      ensures ok <==> old(Named(toAlbum)) != null && old(WithId(fromAlbum, photoId)) != null
      ensures !ok ==> unchanged(old(NamedFrame(fromAlbum)), old(NamedFrame(toAlbum))) && saves == old(saves)
      ensures ok ==>
        && Moved(old(Named(fromAlbum)), old(Named(toAlbum)), old(WithId(fromAlbum, photoId)))
        && saves == old(saves) + 1
    {
      var src := Named(fromAlbum);
      var dst := Named(toAlbum);
      if src == null || dst == null {
        return false;
      }
      var target: Photo? := null;
      var photos := src.photos;
      for i := 0 to |photos|
        invariant forall j :: 0 <= j < i ==> photoId.None? || photos[j].id != photoId.value
      {
        if photoId.Some? && photoId.value == photos[i].id {
          assert IdIndex(photos, photoId) == i;
          target := photos[i];
          break;
        }
      }
      if target == null {
        assert IdIndex(photos, photoId) == |photos|;
        return false;
      }
      src.RemovePhoto(target);
      dst.AddPhoto(target);
      Persist();
      return true;
    }

    /**
     * `addTag`: refuses a null tag, a photo the lookup does not find, and a
     * tag of the same type whose value the photo already has ignoring case;
     * otherwise appends the tag to the photo and saves.
     */
    method AddTag(albumName: Option<string>, imagePath: Option<string>, filename: Option<string>, tag: Option<Tag>) returns (ok: bool)
      modifies this`saves, TargetFrame(albumName, imagePath, filename)
      ensures ok <==> tag.Some? && old(Target(albumName, imagePath, filename)) != null
                      && !HasEqualTag(old(Target(albumName, imagePath, filename).tags), tag.value)
      ensures !ok ==> unchanged(old(TargetFrame(albumName, imagePath, filename))) && saves == old(saves)
      ensures ok ==> var p := old(Target(albumName, imagePath, filename));
        && p.tags == old(p.tags) + [tag.value] && p.filename == old(p.filename)
        && saves == old(saves) + 1
      ensures ok ==> var p := old(Target(albumName, imagePath, filename));
        old(DistinctTags(p.tags)) ==> DistinctTags(p.tags)
    {
      if tag.None? {
        return false;
      }
      var p := Target(albumName, imagePath, filename);
      if p == null {
        return false;
      }
      var t := tag.value;
      var tags := p.tags;
      for i := 0 to |tags|
        invariant forall j :: 0 <= j < i ==> !TagEquals(tags[j], t)
      {
        if tags[i].tagType == t.tagType && LowerStr(tags[i].tagValue) == LowerStr(t.tagValue) {
          assert TagEquals(tags[i], t);
          return false;
        }
      }
      p.AddTag(t);
      Persist();
      return true;
    }

    /**
     * `removeTag`: refuses a null tag, a photo the lookup does not find, and
     * a tag no tag of the photo equals (same type, value equal ignoring
     * case); otherwise removes the first such tag and saves.
     */
    method RemoveTag(albumName: Option<string>, imagePath: Option<string>, filename: Option<string>, tag: Option<Tag>) returns (ok: bool)
      modifies this`saves, TargetFrame(albumName, imagePath, filename)
      ensures ok <==> tag.Some? && old(Target(albumName, imagePath, filename)) != null
                      && HasEqualTag(old(Target(albumName, imagePath, filename).tags), tag.value)
      ensures !ok ==> unchanged(old(TargetFrame(albumName, imagePath, filename))) && saves == old(saves)
      ensures ok ==> var p := old(Target(albumName, imagePath, filename));
        && p.tags == RemoveEqualTag(old(p.tags), tag.value) && p.filename == old(p.filename)
        && saves == old(saves) + 1
      ensures ok ==> var p := old(Target(albumName, imagePath, filename));
        old(DistinctTags(p.tags)) ==> DistinctTags(p.tags)
    {
      if tag.None? {
        return false;
      }
      var p := Target(albumName, imagePath, filename);
      if p == null {
        return false;
      }
      var t := tag.value;
      var tags := p.tags;
      var toRemove: Option<Tag> := None;
      for i := 0 to |tags|
        invariant forall j :: 0 <= j < i ==> !TagEquals(tags[j], t)
      {
        if tags[i].tagType == t.tagType && LowerStr(tags[i].tagValue) == LowerStr(t.tagValue) {
          assert TagEquals(tags[i], t);
          toRemove := Some(tags[i]);
          break;
        }
      }
      if toRemove.None? {
        return false;
      }
      RemoveEqualTagFolds(tags, toRemove.value, t);
      p.RemoveTag(toRemove.value);
      Persist();
      return true;
    }
  }
}
