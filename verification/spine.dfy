/** Id lookup and the spine of epubuilder/public/epub.py: `_find_id`, `_find_unique_id`,
    `_find_ncx_id` and `_make_spine_element`. */
module PublicSpine {
  import opened Wrappers
  import opened Xml
  import opened Manifest
  import opened Package

  /** A spine entry: a registered path and the tri-state `linear` flag. */
  datatype Joint = Joint(path: string, linear: Option<bool>)

  datatype SpineError = DanglingSpineRef(path: string)

  /** The media type of an NCX document (`mimes.NCX`). */
  const NcxMediaType := "application/x-dtbncx+xml"

  /** The id of the first item whose href is `path`, if any. */
  function FirstId(items: seq<Item>, path: string): (r: Option<string>)
    ensures r.None? <==> forall k :: 0 <= k < |items| ==> items[k].href != path
  {
    if items == [] then None
    else if items[0].href == path then Some(items[0].id)
    else
      var r := FirstId(items[1..], path);
      assert forall k :: 1 <= k < |items| ==> items[k] == items[1..][k - 1];
      r
  }

  /** `FirstId` gives the id of the first item with the path, whichever comes after it. */
  lemma {:induction false} FirstIdIsFirst(items: seq<Item>, path: string, k: nat)
    requires k < |items| && items[k].href == path
    requires forall j :: 0 <= j < k ==> items[j].href != path
    ensures FirstId(items, path) == Some(items[k].id)
  {
    if k > 0 {
      assert items[1..][k - 1] == items[k];
      FirstIdIsFirst(items[1..], path, k - 1);
    }
  }

  /** `_find_id`: the search loop over the manifest items, returning at the first match. */
  method FindId(items: seq<Item>, path: string) returns (r: Option<string>)
    ensures r == FirstId(items, path)
  {
    var k := 0;
    while k < |items|
      invariant 0 <= k <= |items|
      invariant FirstId(items, path) == FirstId(items[k..], path)
    {
      if items[k].href == path {
        return Some(items[k].id);
      }
      assert items[k..][1..] == items[k + 1..];
      k := k + 1;
    }
    return None;
  }

  /** In a built manifest the first item with a registered path is that file's own item,
      so a spine entry resolves to the id of its file. */
  lemma RegisteredPathResolves(paths: seq<string>, files: map<string, Manifest.File>,
                               tempPaths: seq<string>, tempFiles: map<string, Manifest.File>,
                               table: map<string, string>, items: seq<Item>, p: string)
    requires ManifestOk(paths, files, tempPaths, tempFiles, table, items)
    requires p in files
    ensures FirstId(items, p).Some?
    ensures exists k :: 0 <= k < |paths| && items[k].href == p && FirstId(items, p) == Some(items[k].id)
  {
    var k :| 0 <= k < |paths| && items[k].href == p;
    FirstIdIsFirst(items, p, k);
  }

  /** `_find_unique_id`: the id of the first identifier's element. Reading it raises
      KeyError when that element has no `id`. */
  method FindUniqueId(metadata: seq<Meta>) returns (r: Result<Option<string>, MetaError>)
    ensures (forall k :: 0 <= k < |metadata| ==> !metadata[k].isIdentifier) ==> r == Ok(None)
    ensures r != Ok(None) ==>
      exists k :: 0 <= k < |metadata| && metadata[k].isIdentifier &&
        (forall j :: 0 <= j < k ==> !metadata[j].isIdentifier) &&
        r == if HasId(metadata[k]) then Ok(Some(metadata[k].element.attrs["id"]))
             else Err(IdentifierWithoutId(k))
    ensures r == Ok(None) ==> forall k :: 0 <= k < |metadata| ==> !metadata[k].isIdentifier
  {
    var k := 0;
    while k < |metadata|
      invariant 0 <= k <= |metadata|
      invariant forall j :: 0 <= j < k ==> !metadata[j].isIdentifier
    {
      if metadata[k].isIdentifier {
        if !HasId(metadata[k]) {
          return Err(IdentifierWithoutId(k));
        }
        return Ok(Some(metadata[k].element.attrs["id"]));
      }
      k := k + 1;
    }
    return Ok(None);
  }

  /** `_find_ncx_id`: the id of the first item whose media type is that of an NCX
      document, if any. */
  method FindNcxId(items: seq<Item>) returns (r: Option<string>)
    ensures r.None? <==> forall k :: 0 <= k < |items| ==> items[k].mediaType != NcxMediaType
    ensures r.Some? ==>
      exists k :: 0 <= k < |items| && items[k].mediaType == NcxMediaType && r.value == items[k].id &&
                  forall j :: 0 <= j < k ==> items[j].mediaType != NcxMediaType
  {
    var k := 0;
    while k < |items|
      invariant 0 <= k <= |items|
      invariant forall j :: 0 <= j < k ==> items[j].mediaType != NcxMediaType
    {
      if items[k].mediaType == NcxMediaType {
        return Some(items[k].id);
      }
      k := k + 1;
    }
    return None;
  }

  /** `_make_spine_element`: one `itemref` per spine entry, in order, referring to the id
      `_find_id` gives for its path. A path with no item is reported (the original
      stores None as the idref). */
  method MakeSpine(joints: seq<Joint>, items: seq<Item>) returns (r: Result<Node, SpineError>)
    ensures r.Ok? <==> forall k :: 0 <= k < |joints| ==> FirstId(items, joints[k].path).Some?
    ensures r.Ok? ==>
      && IsElem(r.value, "spine") && r.value.attrs == map[]
      && |r.value.children| == |joints|
      && forall k :: 0 <= k < |joints| ==>
           r.value.children[k]
             == ItemrefElement(Itemref(FirstId(items, joints[k].path).value, joints[k].linear))
    ensures r.Err? ==>
      exists k :: 0 <= k < |joints| && r.error.path == joints[k].path &&
                  FirstId(items, joints[k].path).None?
  {
    var children: seq<Node> := [];
    var k := 0;
    while k < |joints|
      invariant 0 <= k <= |joints| && |children| == k
      invariant forall j :: 0 <= j < k ==> FirstId(items, joints[j].path).Some?
      invariant forall j :: 0 <= j < k ==>
        children[j] == ItemrefElement(Itemref(FirstId(items, joints[j].path).value, joints[j].linear))
    {
      var joint := joints[k];
      var idref := FindId(items, joint.path);
      if idref.None? {
        return Err(DanglingSpineRef(joint.path));
      }
      children := children + [ItemrefElement(Itemref(idref.value, joint.linear))];
      k := k + 1;
    }
    return Ok(Elem("spine", map[], children));
  }
}
