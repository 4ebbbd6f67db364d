/**
 * The data store's rules about album names, on the list of names alone:
 * lookup ignores case, and the checks `createAlbum`, `renameAlbum` and
 * `deleteAlbum` make before they change anything.
 */
module AlbumNames {
  import opened Wrappers
  import opened Text

  /** Where `findAlbumByName` stops: the first name equal to `key` ignoring case, `|names|` when none is. */
  function FirstCi(names: seq<string>, key: string): (i: nat)
    ensures i <= |names|
    ensures i < |names| ==> EqualsIgnoreCase(names[i], key)
    ensures forall j :: 0 <= j < i ==> !EqualsIgnoreCase(names[j], key)
  {
    if names == [] then 0
    else if EqualsIgnoreCase(names[0], key) then 0
    else
      var i := 1 + FirstCi(names[1..], key);
      assert forall j :: 0 < j < |names| ==> names[j] == names[1..][j - 1];
      i
  }

  /** Lookup depends only on the folded key. */
  lemma FirstCiFolds(names: seq<string>, a: string, b: string)
    requires EqualsIgnoreCase(a, b)
    ensures FirstCi(names, a) == FirstCi(names, b)
  {
  }

  /** No two names are equal ignoring case. */
  predicate UniqueCi(names: seq<string>)
  {
    forall i, j :: 0 <= i < j < |names| ==> !EqualsIgnoreCase(names[i], names[j])
  }

  /** In a list of unique names, the name found for a key is the only one equal to it. */
  lemma FirstCiOnlyMatch(names: seq<string>, key: string, j: nat)
    requires UniqueCi(names) && j < |names| && EqualsIgnoreCase(names[j], key)
    ensures FirstCi(names, key) == j
  {
    var i := FirstCi(names, key);
    if i < j {
      assert EqualsIgnoreCase(names[i], names[j]);
    }
  }

  /** `createAlbum` goes ahead: a non-null, non-blank name that no album has, ignoring case. */
  predicate CreateAccepts(names: seq<string>, name: Option<string>)
  {
    name.Some? && !IsBlank(name.value) && FirstCi(names, name.value) == |names|
  }

  /** Creating an album under an already-trimmed name keeps the names unique. */
  lemma CreateKeepsNamesUnique(names: seq<string>, name: string)
    requires UniqueCi(names) && CreateAccepts(names, Some(name)) && Trim(name) == name
    ensures UniqueCi(names + [Trim(name)])
  {
    var r := names + [Trim(name)];
    forall i, j | 0 <= i < j < |r| ensures !EqualsIgnoreCase(r[i], r[j]) {
      if j == |names| {
        assert !EqualsIgnoreCase(names[i], name);
      }
    }
  }

  /**
   * The check uses the name as given but the album gets the trimmed name, so
   * a name with a leading space slips past the check and duplicates an album.
   */
  lemma UntrimmedNameBreaksUniqueness()
    ensures UniqueCi(["Trip"])
    ensures CreateAccepts(["Trip"], Some(" trip"))
    ensures !UniqueCi(["Trip"] + [Trim(" trip")])
  {
    assert Lead(" trip") == 1 + Lead("trip") == 1;
    assert Trail(" trip"[1..]) == 4;
    assert Trim(" trip") == "trip";
    assert LowerStr("Trip") == LowerStr("trip") == "trip";
    assert LowerStr(" trip") != LowerStr("Trip") by {
      assert |LowerStr(" trip")| != |LowerStr("Trip")|;
    }
    assert FirstCi(["Trip"], " trip") == 1;
    var r := ["Trip"] + [Trim(" trip")];
    assert r[0] == "Trip" && r[1] == "trip";
    assert EqualsIgnoreCase(r[0], r[1]);
  }

  /**
   * `renameAlbum` goes ahead: the old name is found, the new name is not
   * blank, and the album found for the new name, if any, is the one renamed.
   */
  predicate RenameAccepts(names: seq<string>, oldName: Option<string>, newName: Option<string>)
  {
    && oldName.Some? && FirstCi(names, oldName.value) < |names|
    && newName.Some? && !IsBlank(newName.value)
    && var k := FirstCi(names, newName.value);
       k == |names| || k == FirstCi(names, oldName.value)
  }

  /** Renaming an album to the same name in other letter case is allowed. */
  lemma CaseOnlyRenameAccepted(names: seq<string>, oldName: string, newName: string)
    requires FirstCi(names, oldName) < |names|
    requires EqualsIgnoreCase(oldName, newName) && !IsBlank(newName)
    ensures RenameAccepts(names, Some(oldName), Some(newName))
  {
    FirstCiFolds(names, oldName, newName);
  }

  /** Renaming an album to the name of a different album is refused. */
  lemma RenameOntoOtherRefused(names: seq<string>, oldName: string, newName: string, j: nat)
    requires UniqueCi(names) && j < |names| && EqualsIgnoreCase(names[j], newName)
    requires j != FirstCi(names, oldName)
    ensures !RenameAccepts(names, Some(oldName), Some(newName))
  {
    FirstCiOnlyMatch(names, newName, j);
  }

  /** An accepted rename to an already-trimmed name keeps the names unique. */
  lemma RenameKeepsNamesUnique(names: seq<string>, oldName: string, newName: string)
    requires UniqueCi(names) && RenameAccepts(names, Some(oldName), Some(newName)) && Trim(newName) == newName
    ensures UniqueCi(names[FirstCi(names, oldName) := Trim(newName)])
  {
    var i := FirstCi(names, oldName);
    var r := names[i := Trim(newName)];
    forall a, b | 0 <= a < b < |r| ensures !EqualsIgnoreCase(r[a], r[b]) {
    }
  }

  /** Deleting an album keeps the remaining names unique. */
  lemma DeleteKeepsNamesUnique(names: seq<string>, i: nat)
    requires UniqueCi(names) && i < |names|
    ensures UniqueCi(names[..i] + names[i + 1..])
  {
    var r := names[..i] + names[i + 1..];
    forall a, b | 0 <= a < b < |r| ensures !EqualsIgnoreCase(r[a], r[b]) {
      var a' := if a < i then a else a + 1;
      var b' := if b < i then b else b + 1;
      assert r[a] == names[a'] && r[b] == names[b'];
    }
  }
}
