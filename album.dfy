/**
 * An album: a name and an ordered list of photos without repeats.
 * Two albums are equal when their names are, ignoring case.
 */
module Albums {
  import opened Text
  import opened Seqs
  import opened Photos

  class Album {
    var name: string
    var photos: seq<Photo>

    /** `new Album(name)`: the given name and no photos. */
    constructor (name: string)
      ensures this.name == name
      ensures photos == []
    {
      this.name := name;
      photos := [];
    }

    /** `setName`: only the name changes. */
    method SetName(name: string)
      modifies this
      ensures this.name == name
      ensures photos == old(photos)
    {
      this.name := name;
    }

    /**
     * `addPhoto`: appends the photo unless this very photo is already in the
     * album, so adding twice is adding once and the list stays free of repeats.
     */
    method AddPhoto(photo: Photo)
      modifies this
      ensures name == old(name)
      ensures photos == AppendIfAbsent(old(photos), photo)
      ensures photo in photos
      ensures NoDup(old(photos)) ==> NoDup(photos)
    {
      if NoDup(photos) {
        AppendIfAbsentNoDup(photos, photo);
      }
      if photo !in photos {
        photos := photos + [photo];
      }
    }

    /** `removePhoto`: drops the first occurrence of the photo; the others keep their order. */
    method RemovePhoto(photo: Photo)
      modifies this
      ensures name == old(name)
      ensures photos == RemoveFirst(old(photos), photo)
      ensures NoDup(old(photos)) ==> NoDup(photos) && photo !in photos
    {
      if NoDup(photos) {
        RemoveFirstNoDup(photos, photo);
      }
      photos := RemoveFirst(photos, photo);
    }

    /** `getPhotoAt`: the photo at `index`, null outside the list. */
    function GetPhotoAt(index: int): (p: Photo?)
      reads this
      ensures p != null <==> 0 <= index < |photos|
      ensures p != null ==> p == photos[index]
    {
      if 0 <= index < |photos| then photos[index] else null
    }

    /** `getPhotoCount`: the number of photos. */
    function GetPhotoCount(): (n: nat)
      reads this
      ensures n == |photos|
    {
      |photos|
    }

    /** `getPhotoIndex`: where the photo first occurs, -1 when it does not. */
    function GetPhotoIndex(photo: Photo): (i: int)
      reads this
      ensures -1 <= i < |photos|
      ensures i == -1 <==> photo !in photos
      ensures 0 <= i ==> photos[i] == photo && photo !in photos[..i]
    {
      var k := IndexOf(photos, photo);
      if k == |photos| then -1 else k
    }

    /**
     * `movePhotoToAlbum`: when the photo is here, take it out and add it to
     * `target` (unless already there) and answer true; otherwise change nothing.
     */
    method MovePhotoToAlbum(photo: Photo, target: Album) returns (moved: bool)
      modifies this, target
      ensures moved <==> photo in old(photos)
      ensures moved ==> Moved(this, target, photo)
      ensures !moved ==> unchanged(this, target)
    {
      if photo in photos {
        RemovePhoto(photo);
        target.AddPhoto(photo);
        return true;
      }
      return false;
    }

    /** `equals`: another album whose name is the same ignoring case. */
    function Equals(other: Album?): (b: bool)
      reads this, other
    {
      other != null && EqualsIgnoreCase(name, other.name)
    }

    /** `hashCode`: the hash of the lower-cased name. */
    function HashCode(): (h: nat)
      reads this
      ensures h < HashModulus
    {
      StringHash(LowerStr(name))
    }
  }

  /**
   * What taking `p` out of `src` and adding it to `dst` does: the first
   * occurrence leaves `src`, then `p` is appended to `dst` unless already
   * there; when the two are one album, `p` goes to the end. Names stay.
   */
  twostate predicate Moved(src: Album, dst: Album, p: Photo)
    reads src, dst
  {
    && src.name == old(src.name) && dst.name == old(dst.name)
    && (src != dst ==> src.photos == RemoveFirst(old(src.photos), p)
                       && dst.photos == AppendIfAbsent(old(dst.photos), p))
    && (src == dst ==> src.photos == AppendIfAbsent(RemoveFirst(old(src.photos), p), p))
  }

  /**
   * A move keeps the photo exactly once: it leaves a duplicate-free source,
   * is in the destination, the destination stays duplicate-free, and a move
   * within one album puts it last.
   */
  lemma MoveKeepsPhotoOnce(src: seq<Photo>, dst: seq<Photo>, p: Photo)
    requires NoDup(src) && NoDup(dst) && p in src
    ensures p !in RemoveFirst(src, p)
    ensures p in AppendIfAbsent(dst, p) && NoDup(AppendIfAbsent(dst, p))
    ensures AppendIfAbsent(RemoveFirst(src, p), p) == RemoveFirst(src, p) + [p]
    ensures NoDup(RemoveFirst(src, p) + [p])
  {
    RemoveFirstNoDup(src, p);
    AppendIfAbsentNoDup(dst, p);
    AppendIfAbsentNoDup(RemoveFirst(src, p), p);
  }

  /** Album equality is reflexive, symmetric and transitive, and equal albums hash alike. */
  lemma AlbumEqualsConsistent(a: Album, b: Album, c: Album)
    ensures a.Equals(a)
    ensures a.Equals(b) <==> b.Equals(a)
    ensures a.Equals(b) && b.Equals(c) ==> a.Equals(c)
    ensures a.Equals(b) ==> a.HashCode() == b.HashCode()
  {
  }

  /** Where `List.remove(a)` acts on a list of albums: the first album that `a` equals. */
  function IndexOfEqualAlbum(albs: seq<Album>, a: Album): (i: nat)
    reads albs, a
    ensures i <= |albs|
    ensures i < |albs| ==> a.Equals(albs[i])
    ensures forall j :: 0 <= j < i ==> !a.Equals(albs[j])
  {
    if albs == [] then 0
    else if a.Equals(albs[0]) then 0
    else
      var i := 1 + IndexOfEqualAlbum(albs[1..], a);
      assert forall j :: 0 < j < |albs| ==> albs[j] == albs[1..][j - 1];
      i
  }
}
