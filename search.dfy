/**
 * Tag search over an album collection: single-criterion prefix search,
 * AND/OR combination of two searches, and the sorted tag-value
 * suggestions behind autocomplete. Nothing here changes an album, a photo
 * or a tag.
 */
module Search {
  import opened Text
  import opened Seqs
  import opened Tags
  import opened Photos
  import opened Albums
  import opened Lookup

  /** `SearchOperator`: how the results of two single-tag searches combine. */
  datatype SearchOperator = And | Or

  /** A tag meets a criterion: same type, and its lower-cased value starts with the lower-cased search value. */
  predicate TagMatches(t: Tag, tagType: TagType, value: string)
  {
    t.tagType == tagType && StartsWith(LowerStr(t.tagValue), LowerStr(value))
  }

  /** Some tag of the list meets the criterion. */
  predicate HasMatchingTag(tags: seq<Tag>, tagType: TagType, value: string)
  {
    exists k :: 0 <= k < |tags| && TagMatches(tags[k], tagType, value)
  }

  /** Some photo of the collection has a tag of the type with exactly this value. */
  ghost predicate IsTagValue(albums: seq<Album>, tagType: TagType, v: string)
    reads albums, PhotoSet(albums)
  {
    exists p, t :: p in PhotoSet(albums) && t in p.tags && t.tagType == tagType && t.tagValue == v
  }

  /** The values of type `tagType` a photo's tags hold. */
  predicate HasTagValue(tags: seq<Tag>, tagType: TagType, v: string)
  {
    exists t :: t in tags && t.tagType == tagType && t.tagValue == v
  }

  /** Non-decreasing in `String.CASE_INSENSITIVE_ORDER`. */
  predicate SortedCi(s: seq<string>)
  {
    forall i, j :: 0 <= i < j < |s| ==> CiLeq(s[i], s[j])
  }

  /** Every photo of every album in iteration order: album by album, each album's photos in order. */
  function AllPhotos(albs: seq<Album>): seq<Photo>
    reads albs
  {
    if albs == [] then [] else AllPhotos(albs[..|albs| - 1]) + albs[|albs| - 1].photos
  }

  lemma {:induction false} AllPhotosMembers(albs: seq<Album>)
    ensures forall p :: p in AllPhotos(albs) <==> p in PhotoSet(albs)
  {
    if albs != [] {
      var init := albs[..|albs| - 1];
      var last := albs[|albs| - 1];
      AllPhotosMembers(init);
      assert albs == init + [last];
      forall p
        ensures p in PhotoSet(albs) <==> p in PhotoSet(init) || p in last.photos
      {
        if p in PhotoSet(albs) {
          var a :| a in albs && p in a.photos;
          if a != last {
            assert a in init;
          }
        }
      }
    }
  }

  /**
   * What `searchByTag` accumulates over the photo sequence `ps`: each
   * photo with a matching tag, added unless already present.
   */
  function Collect(ps: seq<Photo>, tagType: TagType, value: string): (r: seq<Photo>)
    reads ps
  {
    if ps == [] then []
    else
      var p := ps[|ps| - 1];
      var r := Collect(ps[..|ps| - 1], tagType, value);
      if HasMatchingTag(p.tags, tagType, value) then AppendIfAbsent(r, p) else r
  }

  /**
   * The collected photos are exactly the photos of `ps` with a matching
   * tag, each once, in the order of their first appearance in `ps`.
   */
  lemma {:induction false} CollectSpec(ps: seq<Photo>, tagType: TagType, value: string)
    ensures var r := Collect(ps, tagType, value);
      && (forall p :: p in r <==> p in ps && HasMatchingTag(p.tags, tagType, value))
      && NoDup(r)
      && forall i, j :: 0 <= i < j < |r| ==> IndexOf(ps, r[i]) < IndexOf(ps, r[j])
  {
    if ps != [] {
      var init := ps[..|ps| - 1];
      var x := ps[|ps| - 1];
      assert ps == init + [x];
      CollectSpec(init, tagType, value);
      var r0 := Collect(init, tagType, value);
      var r := Collect(ps, tagType, value);
      assert forall p :: p in r0 <==> p in init && HasMatchingTag(p.tags, tagType, value);
      assert NoDup(r0);
      forall i | 0 <= i < |r0|
        ensures r0[i] in init && IndexOf(ps, r0[i]) == IndexOf(init, r0[i])
      {
        assert r0[i] in r0;
        assert r0[i] in init;
        IndexOfAppend(init, x, r0[i]);
        assert IndexOf(init + [x], r0[i]) == IndexOf(init, r0[i]);
      }
      if HasMatchingTag(x.tags, tagType, value) && x !in r0 {
        assert x !in init;
        IndexOfAppend(init, x, x);
        assert r == r0 + [x];
        forall i, j | 0 <= i < j < |r|
          ensures IndexOf(ps, r[i]) < IndexOf(ps, r[j])
        {
          assert r[i] == r0[i];
          if j < |r0| {
            assert r[j] == r0[j];
          }
        }
      }
    }
  }

  /** `searchByTag`: the photos with a tag of the type whose value starts with `tagValue`, ignoring case. */
  method SearchByTag(albums: seq<Album>, tagType: TagType, tagValue: string) returns (results: seq<Photo>)
    ensures results == Collect(AllPhotos(albums), tagType, tagValue)
    ensures forall p :: p in results <==> p in PhotoSet(albums) && HasMatchingTag(p.tags, tagType, tagValue)
    ensures NoDup(results)
    ensures forall i, j :: 0 <= i < j < |results| ==> IndexOf(AllPhotos(albums), results[i]) < IndexOf(AllPhotos(albums), results[j])
  {
    results := [];
    ghost var seen: seq<Photo> := [];
    for i := 0 to |albums|
      invariant seen == AllPhotos(albums[..i])
      invariant results == Collect(seen, tagType, tagValue)
    {
      var photos := albums[i].photos;
      assert albums[..i + 1][..i] == albums[..i];
      ghost var base := seen;
      for j := 0 to |photos|
        invariant seen == base + photos[..j]
        invariant results == Collect(seen, tagType, tagValue)
      {
        var photo := photos[j];
        // The scan over the photo's tags, which stops at the first tag that matches.
        var matched := HasMatchingTag(photo.tags, tagType, tagValue);
        assert (seen + [photo])[..|seen|] == seen;
        if matched && photo !in results {
          results := results + [photo];
        }
        assert photos[..j + 1] == photos[..j] + [photo];
        seen := seen + [photo];
      }
      assert photos[..|photos|] == photos;
    }
    assert albums[..|albums|] == albums;
    assert && NoDup(results)
           && (forall p :: p in results <==> p in PhotoSet(albums) && HasMatchingTag(p.tags, tagType, tagValue))
           && (forall i, j :: 0 <= i < j < |results| ==> IndexOf(AllPhotos(albums), results[i]) < IndexOf(AllPhotos(albums), results[j])) by {
      CollectSpec(AllPhotos(albums), tagType, tagValue);
      AllPhotosMembers(albums);
    }
  }

  /**
   * `searchByTags`: AND keeps the first search's results, in their order,
   * that the second search also found; OR gives every photo either search
   * found, once each, in an order the source leaves to a `HashSet`.
   */
  method SearchByTags(albums: seq<Album>, tagType1: TagType, tagValue1: string,
                      tagType2: TagType, tagValue2: string, operator: SearchOperator)
    returns (results: seq<Photo>)
    ensures var first := Collect(AllPhotos(albums), tagType1, tagValue1);
            var second := Collect(AllPhotos(albums), tagType2, tagValue2);
      && (operator == And ==> results == Retain(first, second))
      && (operator == Or ==> forall p :: p in results <==> p in first || p in second)
    ensures NoDup(results)
  {
    var results1 := SearchByTag(albums, tagType1, tagValue1);
    ghost var all := AllPhotos(albums);
    assert allocated(all);
    var results2 := SearchByTag(albums, tagType2, tagValue2);
    assert AllPhotos(albums) == all;
    assert results1 == Collect(all, tagType1, tagValue1);
    if operator == And {
      results := Retain(results1, results2);
    } else {
      results := Union(results1, results2);
      UnionSpec(results1, results2);
    }
  }

  /** An AND result lies within each single search, and each single search within the OR result. */
  lemma AndWithinSingleWithinOr(first: seq<Photo>, second: seq<Photo>)
    requires NoDup(first)
    ensures forall p :: p in Retain(first, second) ==> p in first && p in second
    ensures forall p :: p in first || p in second ==> p in Union(first, second)
  {
    UnionSpec(first, second);
  }

  /** What the suggestion loop adds to `acc` from one photo's tags: each value of the type not yet present. */
  function AddValues(acc: seq<string>, tags: seq<Tag>, tagType: TagType): (r: seq<string>)
  {
    if tags == [] then acc
    else
      var t := tags[|tags| - 1];
      var r := AddValues(acc, tags[..|tags| - 1], tagType);
      if t.tagType == tagType then AppendIfAbsent(r, t.tagValue) else r
  }

  /** The distinct values of type `tagType` in the tags of `ps`, in first-seen order. */
  function ValuesIn(ps: seq<Photo>, tagType: TagType): seq<string>
    reads ps
  {
    if ps == [] then [] else AddValues(ValuesIn(ps[..|ps| - 1], tagType), ps[|ps| - 1].tags, tagType)
  }

  lemma {:induction false} AddValuesSpec(acc: seq<string>, tags: seq<Tag>, tagType: TagType)
    requires NoDup(acc)
    ensures forall v :: v in AddValues(acc, tags, tagType) <==> v in acc || HasTagValue(tags, tagType, v)
    ensures NoDup(AddValues(acc, tags, tagType))
  {
    if tags != [] {
      var init := tags[..|tags| - 1];
      var t := tags[|tags| - 1];
      assert tags == init + [t];
      AddValuesSpec(acc, init, tagType);
      AppendIfAbsentNoDup(AddValues(acc, init, tagType), t.tagValue);
      forall v
        ensures HasTagValue(tags, tagType, v) <==> HasTagValue(init, tagType, v) || (t.tagType == tagType && t.tagValue == v)
      {
        if HasTagValue(tags, tagType, v) {
          var u :| u in tags && u.tagType == tagType && u.tagValue == v;
          if u != t {
            assert u in init;
          }
        }
      }
    }
  }

  /** Exactly the values some photo of `ps` holds under the type, each once. */
  lemma {:induction false} ValuesInSpec(ps: seq<Photo>, tagType: TagType)
    ensures forall v :: v in ValuesIn(ps, tagType) <==> exists p :: p in ps && HasTagValue(p.tags, tagType, v)
    ensures NoDup(ValuesIn(ps, tagType))
  {
    if ps != [] {
      var init := ps[..|ps| - 1];
      var last := ps[|ps| - 1];
      assert ps == init + [last];
      ValuesInSpec(init, tagType);
      AddValuesSpec(ValuesIn(init, tagType), last.tags, tagType);
      forall v | exists p :: p in ps && HasTagValue(p.tags, tagType, v)
        ensures v in ValuesIn(ps, tagType)
      {
        var p :| p in ps && HasTagValue(p.tags, tagType, v);
        if p != last {
          assert p in init;
        }
      }
    }
  }

  /** The values of the collection's tags are the values of `AllPhotos`' tags. */
  lemma ValuesOfCollection(albums: seq<Album>, tagType: TagType)
    ensures forall v :: v in ValuesIn(AllPhotos(albums), tagType) <==> IsTagValue(albums, tagType, v)
    ensures NoDup(ValuesIn(AllPhotos(albums), tagType))
  {
    ValuesInSpec(AllPhotos(albums), tagType);
    AllPhotosMembers(albums);
    forall v
      ensures (exists p :: p in AllPhotos(albums) && HasTagValue(p.tags, tagType, v)) <==> IsTagValue(albums, tagType, v)
    {
      if IsTagValue(albums, tagType, v) {
        var p, t :| p in PhotoSet(albums) && t in p.tags && t.tagType == tagType && t.tagValue == v;
        assert p in AllPhotos(albums) && HasTagValue(p.tags, tagType, v);
      }
      if exists p :: p in AllPhotos(albums) && HasTagValue(p.tags, tagType, v) {
        var p :| p in AllPhotos(albums) && HasTagValue(p.tags, tagType, v);
        var t :| t in p.tags && t.tagType == tagType && t.tagValue == v;
        assert p in PhotoSet(albums);
      }
    }
  }

  /**
   * `getTagValueSuggestions`: every value of a tag of the type, each exact
   * string once (values equal ignoring case stay apart), sorted ignoring case.
   */
  method GetTagValueSuggestions(albums: seq<Album>, tagType: TagType) returns (sorted: seq<string>)
    ensures multiset(sorted) == multiset(ValuesIn(AllPhotos(albums), tagType))
    ensures forall v :: v in sorted <==> IsTagValue(albums, tagType, v)
    ensures NoDup(sorted)
    ensures SortedCi(sorted)
  {
    ghost var all := AllPhotos(albums);
    assert allocated(all);
    var suggestions := CollectTagValues(albums, tagType);
    assert NoDup(suggestions) by {
      ValuesInSpec(all, tagType);
    }
    sorted := SortCaseInsensitive(suggestions);
    assert AllPhotos(albums) == all;
    assert suggestions == ValuesIn(AllPhotos(albums), tagType);
    assert forall v :: v in suggestions <==> IsTagValue(albums, tagType, v) by {
      ValuesOfCollection(albums, tagType);
    }
    forall v
      ensures v in sorted <==> v in suggestions
    {
      assert v in sorted <==> v in multiset(sorted);
      assert v in suggestions <==> v in multiset(suggestions);
    }
  }

  /** The loops of `getTagValueSuggestions` that fill the set, the set kept as a list in insertion order. */
  method CollectTagValues(albums: seq<Album>, tagType: TagType) returns (suggestions: seq<string>)
    ensures suggestions == ValuesIn(AllPhotos(albums), tagType)
  {
    suggestions := [];
    ghost var seen: seq<Photo> := [];
    for i := 0 to |albums|
      invariant seen == AllPhotos(albums[..i])
      invariant suggestions == ValuesIn(seen, tagType)
    {
      var photos := albums[i].photos;
      assert albums[..i + 1][..i] == albums[..i];
      ghost var base := seen;
      for j := 0 to |photos|
        invariant seen == base + photos[..j]
        invariant suggestions == ValuesIn(seen, tagType)
      {
        ghost var before := suggestions;
        var tags := photos[j].tags;
        for k := 0 to |tags|
          invariant suggestions == AddValues(before, tags[..k], tagType)
        {
          assert tags[..k + 1][..k] == tags[..k];
          if tags[k].tagType == tagType && tags[k].tagValue !in suggestions {
            suggestions := suggestions + [tags[k].tagValue];
          }
        }
        assert tags[..|tags|] == tags;
        assert (seen + [photos[j]])[..|seen|] == seen;
        assert photos[..j + 1] == photos[..j] + [photos[j]];
        seen := seen + [photos[j]];
      }
      assert photos[..|photos|] == photos;
    }
    assert albums[..|albums|] == albums;
  }

  /** `Collections.sort(list, String.CASE_INSENSITIVE_ORDER)`: a sorted permutation. */
  method SortCaseInsensitive(s: seq<string>) returns (r: seq<string>)
    ensures multiset(r) == multiset(s)
    ensures SortedCi(r)
    ensures NoDup(s) ==> NoDup(r)
  {
    r := [];
    for i := 0 to |s|
      invariant multiset(r) == multiset(s[..i])
      invariant SortedCi(r)
      invariant NoDup(s) ==> NoDup(r)
    {
      var v := s[i];
      assert s[..i + 1] == s[..i] + [v];
      if NoDup(s) {
        assert v !in s[..i] by {
          forall j | 0 <= j < i
            ensures s[..i][j] != v
          {
            assert s[..i][j] == s[j];
          }
        }
        assert v !in multiset(s[..i]);
        assert v !in multiset(r);
      }
      r := InsertCi(r, v);
    }
    assert s[..|s|] == s;
  }

  /** One insertion step: `v` goes before the first element that is greater than it. */
  method InsertCi(r: seq<string>, v: string) returns (t: seq<string>)
    requires SortedCi(r)
    ensures SortedCi(t)
    ensures multiset(t) == multiset(r) + multiset{v}
    ensures NoDup(r) && v !in r ==> NoDup(t)
  {
    var k := 0;
    while k < |r| && CiLeq(r[k], v)
      invariant k <= |r|
      invariant forall m :: 0 <= m < k ==> CiLeq(r[m], v)
    {
      k := k + 1;
    }
    if k < |r| {
      CiLeqTotal(r[k], v);
    }
    InsertSorted(r, k, v);
    InsertContents(r, k, v);
    t := r[..k] + [v] + r[k..];
  }

  /** Putting `v` where the elements before it are no greater and the next is no smaller keeps the order. */
  lemma InsertSorted(r: seq<string>, k: nat, v: string)
    requires SortedCi(r) && k <= |r|
    requires forall m :: 0 <= m < k ==> CiLeq(r[m], v)
    requires k < |r| ==> CiLeq(v, r[k])
    ensures SortedCi(r[..k] + [v] + r[k..])
  {
    var t := r[..k] + [v] + r[k..];
    forall i, j | 0 <= i < j < |t|
      ensures CiLeq(t[i], t[j])
    {
      if j < k {
        assert t[i] == r[i] && t[j] == r[j];
      } else if j == k {
        assert t[i] == r[i];
      } else if i < k {
        assert t[i] == r[i] && t[j] == r[j - 1];
        if k < j - 1 {
          CiLeqTransitive(v, r[k], r[j - 1]);
        }
        CiLeqTransitive(r[i], v, r[j - 1]);
      } else if i == k {
        assert t[j] == r[j - 1];
        if k < j - 1 {
          CiLeqTransitive(v, r[k], r[j - 1]);
        }
      } else {
        assert t[i] == r[i - 1] && t[j] == r[j - 1];
      }
    }
  }

  /** Inserting adds exactly `v` to the contents, and a new `v` keeps them duplicate-free. */
  lemma InsertContents(r: seq<string>, k: nat, v: string)
    requires k <= |r|
    ensures multiset(r[..k] + [v] + r[k..]) == multiset(r) + multiset{v}
    ensures NoDup(r) && v !in r ==> NoDup(r[..k] + [v] + r[k..])
  {
    assert r == r[..k] + r[k..];
    var t := r[..k] + [v] + r[k..];
    if NoDup(r) && v !in r {
      forall i, j | 0 <= i < j < |t|
        ensures t[i] != t[j]
      {
        if j < k {
          assert t[i] == r[i] && t[j] == r[j];
        } else if j == k {
          assert t[i] == r[i];
        } else if i < k {
          assert t[i] == r[i] && t[j] == r[j - 1];
        } else if i == k {
          assert t[j] == r[j - 1];
        } else {
          assert t[i] == r[i - 1] && t[j] == r[j - 1];
        }
      }
    }
  }

  /**
   * `getAutocompleteSuggestions`: the suggestions whose lower-cased value
   * starts with the lower-cased prefix, still sorted ignoring case.
   */
  method GetAutocompleteSuggestions(albums: seq<Album>, tagType: TagType, prefix: string) returns (filtered: seq<string>)
    ensures forall v :: v in filtered <==> IsTagValue(albums, tagType, v) && StartsWith(LowerStr(v), LowerStr(prefix))
    ensures NoDup(filtered)
    ensures SortedCi(filtered)
  {
    var all := GetTagValueSuggestions(albums, tagType);
    filtered := [];
    var lowerPrefix := LowerStr(prefix);
    for i := 0 to |all|
      invariant forall v :: v in filtered <==> v in all[..i] && StartsWith(LowerStr(v), lowerPrefix)
      invariant NoDup(filtered)
      invariant SortedCi(filtered)
      invariant forall k, m :: 0 <= k < |filtered| && i <= m < |all| ==> CiLeq(filtered[k], all[m])
    {
      assert all[..i + 1] == all[..i] + [all[i]];
      if StartsWith(LowerStr(all[i]), lowerPrefix) {
        assert all[i] !in all[..i];
        filtered := filtered + [all[i]];
      }
    }
    assert all[..|all|] == all;
  }
}
