/**
 * Tag types and tags: a tag is a (type, value) pair whose equality ignores
 * the case of the value; tag lists are kept free of equal tags.
 */
module Tags {
  import opened Wrappers
  import opened Text

  /** The two kinds of tag. */
  datatype TagType = Person | Location

  /** The constants in declaration order, as `TagType.values()` lists them. */
  const AllTypes: seq<TagType> := [Person, Location]

  /** `getDisplayName`: the constant's name, capitalised as a word. */
  function DisplayName(t: TagType): (r: string)
    ensures EqualsIgnoreCase(r, EnumName(t)) && r != EnumName(t)
  {
    match t
    case Person => "Person"
    case Location => "Location"
  }

  /** The constant's own name, which the enum's `toString` returns. */
  function EnumName(t: TagType): string
  {
    match t
    case Person => "PERSON"
    case Location => "LOCATION"
  }

  /** The first of `types` whose display name equals `value` ignoring case. */
  function FirstMatching(types: seq<TagType>, value: string): (r: Option<TagType>)
    ensures r.Some? ==> r.value in types && EqualsIgnoreCase(DisplayName(r.value), value)
    ensures r.None? ==> forall i :: 0 <= i < |types| ==> !EqualsIgnoreCase(DisplayName(types[i]), value)
  {
    if types == [] then None
    else if EqualsIgnoreCase(DisplayName(types[0]), value) then Some(types[0])
    else
      var r := FirstMatching(types[1..], value);
      assert forall i :: 0 < i < |types| ==> types[i] == types[1..][i - 1];
      r
  }

  /**
   * `TagType.fromString`: the constant whose display name matches ignoring case;
   * `PERSON` for anything else, null included.
   */
  function FromString(value: Option<string>): (t: TagType)
    ensures t == Location <==> value.Some? && EqualsIgnoreCase(DisplayName(Location), value.value)
    ensures t == Person <==> value.None? || !EqualsIgnoreCase(DisplayName(Location), value.value)
  {
    if value.None? then Person
    else
      match FirstMatching(AllTypes, value.value)
      case Some(t) => t
      case None =>
        assert AllTypes[1] == Location;
        Person
  }

  /** Parsing a display name gives back its constant. */
  lemma FromStringDisplayName(t: TagType)
    ensures FromString(Some(DisplayName(t))) == t
  {
    if t == Person {
      assert LowerStr(DisplayName(Person)) != LowerStr(DisplayName(Location)) by {
        assert |LowerStr(DisplayName(Person))| != |LowerStr(DisplayName(Location))|;
      }
    }
  }

  /** Parsing ignores case: strings equal ignoring case parse alike. */
  lemma FromStringIgnoresCase(a: string, b: string)
    requires EqualsIgnoreCase(a, b)
    ensures FromString(Some(a)) == FromString(Some(b))
  {
  }

  /** Distinct constants have distinct display names. */
  lemma DisplayNameInjective(a: TagType, b: TagType)
    ensures DisplayName(a) == DisplayName(b) ==> a == b
  {
    if a != b {
      assert |DisplayName(a)| != |DisplayName(b)|;
    }
  }

  /** A tag: its type and its value, both fixed at construction. */
  datatype Tag = Tag(tagType: TagType, tagValue: string)

  /** `new Tag(String tagTypeStr, String tagValue)`: the type name goes through `fromString`. */
  function TagFromStrings(typeName: Option<string>, value: string): (r: Tag)
    ensures r.tagValue == value
    ensures r.tagType == Location <==> typeName.Some? && EqualsIgnoreCase(DisplayName(Location), typeName.value)
  {
    Tag(FromString(typeName), value)
  }

  /** Building a tag from its type's display name gives the same tag as building it from the type. */
  lemma TagFromDisplayName(t: Tag)
    ensures TagFromStrings(Some(DisplayName(t.tagType)), t.tagValue) == t
  {
    FromStringDisplayName(t.tagType);
  }

  /** `Tag.equals`: same type and the same value ignoring case. */
  predicate TagEquals(a: Tag, b: Tag)
    ensures TagEquals(a, b) <==> a.tagType == b.tagType && |a.tagValue| == |b.tagValue|
                                 && forall k :: 0 <= k < |a.tagValue| ==> Lower(a.tagValue[k]) == Lower(b.tagValue[k])
  {
    var x := LowerStr(a.tagValue);
    var y := LowerStr(b.tagValue);
    assert |x| == |a.tagValue| && |y| == |b.tagValue|;
    assert forall k :: 0 <= k < |x| ==> x[k] == Lower(a.tagValue[k]);
    assert forall k :: 0 <= k < |y| ==> y[k] == Lower(b.tagValue[k]);
    assert (|x| == |y| && forall k :: 0 <= k < |x| ==> x[k] == y[k]) ==> x == y;
    a.tagType == b.tagType && EqualsIgnoreCase(a.tagValue, b.tagValue)
  }

  /** Tag equality is an equivalence relation. */
  lemma TagEqualsIsEquivalence(a: Tag, b: Tag, c: Tag)
    ensures TagEquals(a, a)
    ensures TagEquals(a, b) <==> TagEquals(b, a)
    ensures TagEquals(a, b) && TagEquals(b, c) ==> TagEquals(a, c)
  {
  }

  /** `Tag.hashCode`: the hash of the constant's name followed by the folded value. */
  function TagHash(t: Tag): (h: nat)
    ensures h < HashModulus
  {
    StringHash(EnumName(t.tagType) + LowerStr(t.tagValue))
  }

  /** Equal tags hash alike, so tags behave in hashed collections. */
  lemma EqualTagsHashAlike(a: Tag, b: Tag)
    requires TagEquals(a, b)
    ensures TagHash(a) == TagHash(b)
  {
  }

  /** `Tag.toString`: "Person: Alice". */
  function TagToString(t: Tag): (r: string)
    ensures var n := |DisplayName(t.tagType)|;
      && |r| == n + 2 + |t.tagValue|
      && r[..n] == DisplayName(t.tagType) && r[n..n + 2] == ": " && r[n + 2..] == t.tagValue
  {
    DisplayName(t.tagType) + ": " + t.tagValue
  }

  /** The printed form can be read back: its display-name prefix parses to the type, the rest is the value. */
  lemma TagToStringParses(t: Tag)
    ensures var s := TagToString(t); var n := |DisplayName(t.tagType)|;
      && n + 2 <= |s|
      && FromString(Some(s[..n])) == t.tagType
      && s[n..n + 2] == ": "
      && s[n + 2..] == t.tagValue
  {
    var s := TagToString(t);
    var n := |DisplayName(t.tagType)|;
    assert s[..n] == DisplayName(t.tagType);
    FromStringDisplayName(t.tagType);
  }

  /** Some tag of the list equals `t`: `List.contains` under `Tag.equals`. */
  predicate HasEqualTag(tags: seq<Tag>, t: Tag)
  {
    exists i :: 0 <= i < |tags| && TagEquals(tags[i], t)
  }

  /** The position of the first tag equal to `t`, `|tags|` when there is none. */
  function IndexOfTag(tags: seq<Tag>, t: Tag): (i: nat)
    ensures i <= |tags|
    ensures i < |tags| ==> TagEquals(tags[i], t)
    ensures forall j :: 0 <= j < i ==> !TagEquals(tags[j], t)
    ensures i == |tags| <==> !HasEqualTag(tags, t)
  {
    if tags == [] then 0
    else if TagEquals(tags[0], t) then 0
    else
      var i := 1 + IndexOfTag(tags[1..], t);
      assert forall j :: 0 < j < |tags| ==> tags[j] == tags[1..][j - 1];
      i
  }

  /** `List.remove(Object)` under `Tag.equals`: drops the first tag equal to `t`. */
  function RemoveEqualTag(tags: seq<Tag>, t: Tag): (r: seq<Tag>)
    ensures !HasEqualTag(tags, t) ==> r == tags
    ensures HasEqualTag(tags, t) ==> |r| == |tags| - 1
  {
    if tags == [] then []
    else if TagEquals(tags[0], t) then tags[1..]
    else
      assert forall j :: 0 < j < |tags| ==> tags[j] == tags[1..][j - 1];
      [tags[0]] + RemoveEqualTag(tags[1..], t)
  }

  /** What removing leaves when an equal tag is present: the tags before the first one, then those after it. */
  lemma {:induction false} RemoveEqualTagSlices(tags: seq<Tag>, t: Tag)
    requires HasEqualTag(tags, t)
    ensures var i := IndexOfTag(tags, t); RemoveEqualTag(tags, t) == tags[..i] + tags[i + 1..]
  {
    if !TagEquals(tags[0], t) {
      var rest := tags[1..];
      assert tags == [tags[0]] + rest;
      assert HasEqualTag(rest, t) by {
        var k := IndexOfTag(tags, t);
        assert rest[k - 1] == tags[k];
      }
      RemoveEqualTagSlices(rest, t);
      var k := IndexOfTag(rest, t);
      assert IndexOfTag(tags, t) == 1 + k;
      assert tags[..1 + k] == [tags[0]] + rest[..k];
      assert tags[1 + k + 1..] == rest[k + 1..];
    }
  }

  /** No two tags of the list are equal. */
  predicate DistinctTags(tags: seq<Tag>)
  {
    forall i, j :: 0 <= i < j < |tags| ==> !TagEquals(tags[i], tags[j])
  }

  /** Appending a tag that has no equal keeps the list free of equal tags. */
  lemma DistinctAfterAppend(tags: seq<Tag>, t: Tag)
    requires DistinctTags(tags) && !HasEqualTag(tags, t)
    ensures DistinctTags(tags + [t])
  {
    var r := tags + [t];
    forall i, j | 0 <= i < j < |r| ensures !TagEquals(r[i], r[j]) {
      if j == |tags| {
        assert !TagEquals(tags[i], t);
      }
    }
  }

  /**
   * Removing from a list free of equal tags keeps it so, and leaves no tag
   * equal to the one removed.
   */
  lemma DistinctAfterRemove(tags: seq<Tag>, t: Tag)
    requires DistinctTags(tags)
    ensures DistinctTags(RemoveEqualTag(tags, t))
    ensures !HasEqualTag(RemoveEqualTag(tags, t), t)
  {
    var i := IndexOfTag(tags, t);
    if i < |tags| {
      RemoveEqualTagSlices(tags, t);
      var r := tags[..i] + tags[i + 1..];
      SliceOut(tags, i);
      forall a, b | 0 <= a < b < |r|
        ensures !TagEquals(r[a], r[b])
      {
        assert Skip(a, i) < Skip(b, i);
      }
      forall k | 0 <= k < |r|
        ensures !TagEquals(r[k], t)
      {
        if i < Skip(k, i) {
          assert !TagEquals(tags[i], tags[Skip(k, i)]);
        }
      }
    }
  }

  /** Element `k` of a list with position `i` taken out is element `Skip(k, i)` of the list. */
  lemma SliceOut<T>(s: seq<T>, i: nat)
    requires i < |s|
    ensures forall k :: 0 <= k < |s| - 1 ==> (s[..i] + s[i + 1..])[k] == s[Skip(k, i)]
  {
    var r := s[..i] + s[i + 1..];
    forall k | 0 <= k < |s| - 1
      ensures r[k] == s[Skip(k, i)]
    {
      if k < i {
        assert r[k] == s[..i][k];
      } else {
        assert r[k] == s[i + 1..][k - i];
      }
    }
  }

  /** The position in the original list of element `k` of the list with position `i` taken out. */
  function Skip(k: nat, i: nat): nat
  {
    if k < i then k else k + 1
  }

  /** Removing by one tag or by any tag equal to it takes out the same element. */
  lemma RemoveEqualTagFolds(tags: seq<Tag>, a: Tag, b: Tag)
    requires TagEquals(a, b)
    ensures IndexOfTag(tags, a) == IndexOfTag(tags, b)
    ensures RemoveEqualTag(tags, a) == RemoveEqualTag(tags, b)
  {
    forall j | 0 <= j < |tags|
      ensures TagEquals(tags[j], a) <==> TagEquals(tags[j], b)
    {
      TagEqualsIsEquivalence(tags[j], a, b);
      TagEqualsIsEquivalence(tags[j], b, a);
    }
    if HasEqualTag(tags, a) {
      RemoveEqualTagSlices(tags, a);
      RemoveEqualTagSlices(tags, b);
    }
  }
}
