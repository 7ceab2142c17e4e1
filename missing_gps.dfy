/** The missing-GPS view of a photo list. */
module MissingGps {
  import opened Wrappers
  import opened Typings

  /** JavaScript truthiness of a numeric tag: an absent tag and the value 0 are both falsy. */
  predicate Truthy(tag: Option<real>) {
    tag.Some? && tag.value != 0.0
  }

  /** The filter's test: latitude or longitude is missing or falsy; altitude plays no part. */
  predicate LacksGps(f: FolderFile) {
    !Truthy(f.metadata.gpsLatitude) || !Truthy(f.metadata.gpsLongitude)
  }

  /** `fileList.filter(...)`: the files that lack a usable position, in their original order. */
  function FilterMissing(files: seq<FolderFile>): (r: seq<FolderFile>)
    ensures |r| <= |files|
    ensures forall f :: f in r <==> f in files && LacksGps(f)
  {
    if files == [] then []
    else (if LacksGps(files[0]) then [files[0]] else []) + FilterMissing(files[1..])
  }

  /** The filter distributes over concatenation, so it keeps the files in their original order. */
  lemma {:induction false} FilterMissingAppend(a: seq<FolderFile>, b: seq<FolderFile>)
    ensures FilterMissing(a + b) == FilterMissing(a) + FilterMissing(b)
  {
    if a == [] {
      assert a + b == b;
    } else {
      assert (a + b)[0] == a[0];
      assert (a + b)[1..] == a[1..] + b;
      FilterMissingAppend(a[1..], b);
    }
  }

  /** A list in which every file lacks a position is returned unchanged. */
  lemma {:induction false} FilterMissingKeepsAll(files: seq<FolderFile>)
    requires forall i :: 0 <= i < |files| ==> LacksGps(files[i])
    ensures FilterMissing(files) == files
  {
    if files != [] {
      FilterMissingKeepsAll(files[1..]);
    }
  }

  /** A list in which every file has both coordinates yields nothing. */
  lemma {:induction false} FilterMissingDropsAll(files: seq<FolderFile>)
    requires forall i :: 0 <= i < |files| ==> !LacksGps(files[i])
    ensures FilterMissing(files) == []
  {
    if files != [] {
      FilterMissingDropsAll(files[1..]);
    }
  }
}
