/**
 * A photo: where its image lives, the name shown for it and its tags.
 * It is a class because the app compares photos by reference (the source
 * does not override `equals`) and updates them in place.
 */
module Photos {
  import opened Text
  import opened Seqs
  import opened Tags

  class Photo {
    /** Stable identifier the data store addresses photos by; chosen by whoever creates the photo. */
    const id: string
    /** Location of the image; there is no setter, so it never changes. */
    const imagePath: string
    var filename: string
    var tags: seq<Tag>

    /** `new Photo(imagePath)`: the display name is the last component of the path. */
    constructor FromPath(id: string, imagePath: string)
      ensures this.id == id && this.imagePath == imagePath
      ensures filename == BaseName(imagePath)
      ensures tags == []
    {
      this.id := id;
      this.imagePath := imagePath;
      var name := BaseName(imagePath);
      filename := name;
      tags := [];
    }

    /** `new Photo(imagePath, filename)`: both kept exactly as given. */
    constructor (id: string, imagePath: string, filename: string)
      ensures this.id == id && this.imagePath == imagePath
      ensures this.filename == filename
      ensures tags == []
    {
      this.id := id;
      this.imagePath := imagePath;
      this.filename := filename;
      tags := [];
    }

    /** `setFilename`: only the display name changes. */
    method SetFilename(filename: string)
      modifies this
      ensures this.filename == filename
      ensures tags == old(tags)
    {
      this.filename := filename;
    }

    /** `hasTag`: some stored tag equals `tag`, ignoring the case of the value. */
    function HasTag(tag: Tag): (b: bool)
      reads this
      ensures b <==> HasEqualTag(tags, tag)
      ensures b <==> exists i :: 0 <= i < |tags| && tags[i].tagType == tag.tagType
                                                  && LowerStr(tags[i].tagValue) == LowerStr(tag.tagValue)
    {
      IndexOfTag(tags, tag) < |tags|
    }

    /**
     * `addTag`: appends the tag unless an equal one is present, so adding
     * twice is adding once and the list never holds two equal tags.
     */
    method AddTag(tag: Tag)
      modifies this
      ensures filename == old(filename)
      ensures tags == if HasEqualTag(old(tags), tag) then old(tags) else old(tags) + [tag]
      ensures HasEqualTag(tags, tag)
      ensures DistinctTags(old(tags)) ==> DistinctTags(tags)
    {
      if !HasTag(tag) {
        if DistinctTags(tags) {
          DistinctAfterAppend(tags, tag);
        }
        tags := tags + [tag];
        assert TagEquals(tags[|tags| - 1], tag);
      }
    }

    /** `removeTag`: drops the first tag equal to `tag`; nothing happens when there is none. */
    method RemoveTag(tag: Tag)
      modifies this
      ensures filename == old(filename)
      ensures tags == RemoveEqualTag(old(tags), tag)
      ensures !HasEqualTag(old(tags), tag) ==> tags == old(tags)
      ensures DistinctTags(old(tags)) ==> DistinctTags(tags) && !HasEqualTag(tags, tag)
    {
      if DistinctTags(tags) {
        DistinctAfterRemove(tags, tag);
      }
      tags := RemoveEqualTag(tags, tag);
    }

    /** `getTagsByType`: the tags of the given type, in their order. */
    method GetTagsByType(tagType: TagType) returns (result: seq<Tag>)
      ensures result == TagsOfType(tags, tagType)
      ensures forall i :: 0 <= i < |result| ==> result[i].tagType == tagType
      ensures forall i :: 0 <= i < |tags| && tags[i].tagType == tagType ==> tags[i] in result
      ensures IsSubsequence(result, tags)
    {
      result := [];
      for i := 0 to |tags|
        invariant result == TagsOfType(tags[..i], tagType)
      {
        assert tags[..i + 1][..i] == tags[..i];
        if tags[i].tagType == tagType {
          result := result + [tags[i]];
        }
      }
      assert tags[..|tags|] == tags;
    }
  }

  /** The tags of the given type, in list order. */
  function TagsOfType(tags: seq<Tag>, tagType: TagType): (r: seq<Tag>)
    ensures forall i :: 0 <= i < |r| ==> r[i].tagType == tagType
    ensures forall i :: 0 <= i < |tags| && tags[i].tagType == tagType ==> tags[i] in r
    ensures IsSubsequence(r, tags)
  {
    if tags == [] then []
    else
      var init := tags[..|tags| - 1];
      var last := tags[|tags| - 1];
      var r0 := TagsOfType(init, tagType);
      SubsequenceExtend(r0, init, last);
      assert tags == init + [last];
      assert forall i :: 0 <= i < |init| ==> tags[i] == init[i];
      if last.tagType == tagType then r0 + [last] else r0
  }

  /** Every copy of a tag of the type is kept, and no copy of any other tag. */
  lemma {:induction false} TagsOfTypeKeepsCopies(tags: seq<Tag>, tagType: TagType)
    ensures forall t :: multiset(TagsOfType(tags, tagType))[t] == if t.tagType == tagType then multiset(tags)[t] else 0
  {
    if tags != [] {
      var init := tags[..|tags| - 1];
      var last := tags[|tags| - 1];
      TagsOfTypeKeepsCopies(init, tagType);
      assert tags == init + [last];
      assert multiset(tags) == multiset(init) + multiset{last};
    }
  }
}
