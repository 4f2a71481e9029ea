/** The package and container documents of epubuilder/epub/epub.py: `Itemref.to_element`,
    `Files.to_elements`, `Epub._xmlstr_opf` and `Epub._xmlstr_container`, before the
    pretty-printer turns them into text. */
module Package {
  import opened Wrappers
  import opened Xml

  const OpfNamespace := "http://www.idpf.org/2007/opf"
  const ContainerNamespace := "urn:oasis:names:tc:opendocument:xmlns:container"
  /** The Dublin Core namespace, `URI_DC` of the metadata module. */
  const DcNamespace := "http://purl.org/dc/elements/1.1/"
  const PackageMediaType := "application/oebps-package+xml"
  const XhtmlMediaType := "application/xhtml+xml"

  /** A spine entry: the id of a manifest item and the tri-state `linear` flag. */
  datatype Itemref = Itemref(idref: string, linear: Option<bool>)

  /** The value of the `linear` attribute: `yes` for True, `no` for False. */
  function LinearValue(b: bool): string {
    if b then "yes" else "no"
  }

  /** `Itemref.to_element`: an `itemref` with the `idref`, and a `linear` attribute only
      when the flag is set. */
  function ItemrefElement(r: Itemref): (e: Node)
    ensures IsElem(e, "itemref") && e.children == []
    ensures e.attrs.Keys == if r.linear.Some? then {"idref", "linear"} else {"idref"}
    ensures e.attrs["idref"] == r.idref
    ensures r.linear == Some(true) ==> e.attrs["linear"] == "yes"
    ensures r.linear == Some(false) ==> e.attrs["linear"] == "no"
  {
    var attrs := map["idref" := r.idref];
    Elem("itemref", if r.linear.Some? then attrs["linear" := LinearValue(r.linear.value)] else attrs, [])
  }

  /** How a reader takes an `itemref` element: its idref and its `linear` flag. */
  function ReadItemref(e: Node): Option<Itemref> {
    if !IsElem(e, "itemref") || "idref" !in e.attrs then None
    else if "linear" !in e.attrs then Some(Itemref(e.attrs["idref"], None))
    else if e.attrs["linear"] == "yes" then Some(Itemref(e.attrs["idref"], Some(true)))
    else if e.attrs["linear"] == "no" then Some(Itemref(e.attrs["idref"], Some(false)))
    else None
  }

  /** Reading an `itemref` element gives back the spine entry it was made from. */
  lemma ItemrefRoundTrip(r: Itemref)
    ensures ReadItemref(ItemrefElement(r)) == Some(r)
  {
  }

  /** A file of the package: its bytes, its media type and its id. The constructor fills
      in the media type by content sniffing and a random id; both arrive here as values. */
  datatype File = File(binary: seq<bv8>, mime: string, identification: Option<string>)

  /** The `item` element `Files.to_elements` makes for one entry. */
  function FileItemElement(path: string, file: File): (e: Node)
    ensures IsElem(e, "item") && e.children == []
    ensures "href" in e.attrs && e.attrs["href"] == path
    ensures "media-type" in e.attrs && e.attrs["media-type"] == file.mime
    ensures "id" in e.attrs <==> file.identification.Some?
    ensures file.identification.Some? ==> e.attrs["id"] == file.identification.value
    ensures e.attrs.Keys <= {"href", "media-type", "id"}
  {
    var attrs := map["href" := path, "media-type" := file.mime];
    Elem("item", if file.identification.Some? then attrs["id" := file.identification.value] else attrs, [])
  }

  /** `Files.to_elements`: one item per entry, in the dictionary's order. */
  method FilesToElements(paths: seq<string>, files: map<string, File>) returns (elements: seq<Node>)
    requires forall i :: 0 <= i < |paths| ==> paths[i] in files
    ensures |elements| == |paths|
    ensures forall k :: 0 <= k < |paths| ==> elements[k] == FileItemElement(paths[k], files[paths[k]])
  {
    elements := [];
    var k := 0;
    while k < |paths|
      invariant 0 <= k <= |paths| && |elements| == k
      invariant forall j :: 0 <= j < k ==> elements[j] == FileItemElement(paths[j], files[paths[j]])
    {
      elements := elements + [FileItemElement(paths[k], files[paths[k]])];
      k := k + 1;
    }
  }

  /** A metadata entry: whether it is an `Identifier`, and the element it renders to
      (`as_element`, whose module is not part of this model). */
  datatype Meta = Meta(isIdentifier: bool, element: Node)

  /** The `id` attribute of an identifier's element; reading it from an element that lacks
      it raises KeyError. */
  datatype MetaError = IdentifierWithoutId(index: nat)

  predicate HasId(m: Meta) {
    m.element.Elem? && "id" in m.element.attrs
  }

  /** The `item` for the navigation document, inserted at the head of the manifest. */
  function NavItemElement(navTocPath: string, navId: string): (e: Node)
    ensures IsElem(e, "item") && e.children == []
    ensures e.attrs.Keys == {"href", "id", "properties", "media-type"}
    ensures e.attrs["href"] == navTocPath && e.attrs["id"] == navId
    ensures e.attrs["properties"] == "nav" && e.attrs["media-type"] == "application/xhtml+xml"
  {
    Elem("item", map["href" := navTocPath, "id" := navId, "properties" := "nav",
                     "media-type" := XhtmlMediaType], [])
  }

  /** The `manifest` children of `_xmlstr_opf`: the navigation item first when a path is
      given, then the file items. */
  ghost predicate ManifestChildren(children: seq<Node>, paths: seq<string>, files: map<string, File>,
                                   navTocPath: Option<string>, navId: string)
    requires forall i :: 0 <= i < |paths| ==> paths[i] in files
  {
    var offset := if navTocPath.Some? && navTocPath.value != "" then 1 else 0;
    && |children| == |paths| + offset
    && (offset == 1 ==> children[0] == NavItemElement(navTocPath.value, navId))
    && forall k :: 0 <= k < |paths| ==> children[k + offset] == FileItemElement(paths[k], files[paths[k]])
  }

  /** The `unique-identifier` the loop of lines 265-267 leaves: the id of the LAST
      identifier, since the loop does not stop at the first. */
  ghost predicate UniqueIdentifier(metadata: seq<Meta>, attrs: map<string, string>) {
    if forall k :: 0 <= k < |metadata| ==> !metadata[k].isIdentifier then
      "unique-identifier" !in attrs
    else
      exists k :: 0 <= k < |metadata| && metadata[k].isIdentifier && HasId(metadata[k]) &&
        (forall j :: k < j < |metadata| ==> !metadata[j].isIdentifier) &&
        "unique-identifier" in attrs && attrs["unique-identifier"] == metadata[k].element.attrs["id"]
  }

  /** The attributes of `package` (lines 261-267): the fixed ones, plus `unique-identifier`
      from the identifiers. It fails when an identifier's element has no `id`. */
  method PackageAttributes(metadata: seq<Meta>) returns (r: Result<map<string, string>, MetaError>)
    ensures r.Err? <==> exists k :: 0 <= k < |metadata| && metadata[k].isIdentifier && !HasId(metadata[k])
    ensures r.Ok? ==>
      && r.value - {"unique-identifier"} == map["xmlns" := OpfNamespace, "version" := "3.0", "xml:lang" := "en"]
      && UniqueIdentifier(metadata, r.value)
  {
    var attrs := map["xmlns" := OpfNamespace, "version" := "3.0", "xml:lang" := "en"];
    var k := 0;
    ghost var last := -1;
    while k < |metadata|
      invariant 0 <= k <= |metadata| && -1 <= last < k
      invariant forall j :: 0 <= j < k ==> metadata[j].isIdentifier ==> HasId(metadata[j])
      invariant attrs - {"unique-identifier"}
             == map["xmlns" := OpfNamespace, "version" := "3.0", "xml:lang" := "en"]
      invariant last == -1 <==> forall j :: 0 <= j < k ==> !metadata[j].isIdentifier
      invariant last == -1 ==> "unique-identifier" !in attrs
      invariant last >= 0 ==>
        && metadata[last].isIdentifier && HasId(metadata[last])
        && (forall j :: last < j < k ==> !metadata[j].isIdentifier)
        && "unique-identifier" in attrs && attrs["unique-identifier"] == metadata[last].element.attrs["id"]
    {
      var m := metadata[k];
      if m.isIdentifier {
        if !HasId(m) {
          return Err(IdentifierWithoutId(k));
        }
        attrs := attrs["unique-identifier" := m.element.attrs["id"]];
        last := k;
      }
      k := k + 1;
    }
    return Ok(attrs);
  }

  /** The `metadata` element (lines 271-277): every entry's element, in order. */
  method MetadataElement(metadata: seq<Meta>) returns (e: Node)
    ensures IsElem(e, "metadata") && e.attrs == map["xmlns:dc" := DcNamespace]
    ensures |e.children| == |metadata|
    ensures forall k :: 0 <= k < |metadata| ==> e.children[k] == metadata[k].element
  {
    var elements: seq<Node> := [];
    var k := 0;
    while k < |metadata|
      invariant 0 <= k <= |metadata| && |elements| == k
      invariant forall j :: 0 <= j < k ==> elements[j] == metadata[j].element
    {
      elements := elements + [metadata[k].element];
      k := k + 1;
    }
    return Elem("metadata", map["xmlns:dc" := DcNamespace], elements);
  }

  /** The `manifest` element (lines 280-291): the file items, with the navigation item
      inserted at the head when `nav_toc_path` is truthy. */
  method ManifestNode(paths: seq<string>, files: map<string, File>,
                      navTocPath: Option<string>, navId: string)
    returns (e: Node)
    requires forall i :: 0 <= i < |paths| ==> paths[i] in files
    ensures IsElem(e, "manifest") && e.attrs == map[]
    ensures ManifestChildren(e.children, paths, files, navTocPath, navId)
  {
    var items := FilesToElements(paths, files);
    var children := items;
    if navTocPath.Some? && navTocPath.value != "" {
      children := [NavItemElement(navTocPath.value, navId)] + items;
      assert children[1..] == items;
    }
    return Elem("manifest", map[], children);
  }

  /** The `spine` element (lines 293-298): one `itemref` per spine entry, in order. */
  method SpineNode(spine: seq<Itemref>) returns (e: Node)
    ensures IsElem(e, "spine") && e.attrs == map[]
    ensures |e.children| == |spine|
    ensures forall k :: 0 <= k < |spine| ==> e.children[k] == ItemrefElement(spine[k])
  {
    var itemrefs: seq<Node> := [];
    var k := 0;
    while k < |spine|
      invariant 0 <= k <= |spine| && |itemrefs| == k
      invariant forall j :: 0 <= j < k ==> itemrefs[j] == ItemrefElement(spine[j])
    {
      itemrefs := itemrefs + [ItemrefElement(spine[k])];
      k := k + 1;
    }
    return Elem("spine", map[], itemrefs);
  }

  /** `Epub._xmlstr_opf` before serialisation. `navId` is the random id of the navigation
      item. It fails when an identifier's element has no `id`. */
  method OpfDocument(metadata: seq<Meta>, paths: seq<string>, files: map<string, File>,
                     spine: seq<Itemref>, navTocPath: Option<string>, navId: string)
    returns (r: Result<Node, MetaError>)
    requires forall i :: 0 <= i < |paths| ==> paths[i] in files
    ensures r.Err? <==> exists k :: 0 <= k < |metadata| && metadata[k].isIdentifier && !HasId(metadata[k])
    ensures r.Ok? ==>
      var package := r.value;
      && IsElem(package, "package")
      && package.attrs - {"unique-identifier"}
           == map["xmlns" := OpfNamespace, "version" := "3.0", "xml:lang" := "en"]
      && UniqueIdentifier(metadata, package.attrs)
      && |package.children| == 3
      && IsElem(package.children[0], "metadata")
      && package.children[0].attrs == map["xmlns:dc" := DcNamespace]
      && |package.children[0].children| == |metadata|
      && (forall k :: 0 <= k < |metadata| ==> package.children[0].children[k] == metadata[k].element)
      && IsElem(package.children[1], "manifest") && package.children[1].attrs == map[]
      && ManifestChildren(package.children[1].children, paths, files, navTocPath, navId)
      && IsElem(package.children[2], "spine") && package.children[2].attrs == map[]
      && |package.children[2].children| == |spine|
      && forall k :: 0 <= k < |spine| ==> package.children[2].children[k] == ItemrefElement(spine[k])
  {
    var attrs := PackageAttributes(metadata);
    if attrs.Err? {
      return Err(attrs.error);
    }
    var metadataE := MetadataElement(metadata);
    var manifest := ManifestNode(paths, files, navTocPath, navId);
    var spineE := SpineNode(spine);
    return Ok(Elem("package", attrs.value, [metadataE, manifest, spineE]));
  }

  /** `Epub._xmlstr_container` before serialisation: `container` version 1.0 holding one
      `rootfiles` with one `rootfile`, which leads a reader to the package document. */
  function ContainerDocument(opfPath: string): (r: Node)
    ensures IsElem(r, "container") && "version" in r.attrs && r.attrs["version"] == "1.0"
    ensures |r.children| == 1 && IsElem(r.children[0], "rootfiles") && |r.children[0].children| == 1
    ensures ReadRootfile(r) == Some(opfPath)
  {
    Elem("container", map["version" := "1.0", "xmlns" := ContainerNamespace],
         [Elem("rootfiles", map[],
               [Elem("rootfile", map["full-path" := opfPath, "media-type" := PackageMediaType], [])])])
  }

  /** How a reader finds the package document: the `full-path` of the first `rootfile` of
      the first child of `container` whose media type is that of a package document. */
  function ReadRootfile(container: Node): Option<string> {
    if !IsElem(container, "container") || container.children == [] then None
    else
      var rootfiles := container.children[0];
      if rootfiles.Text? then None else FirstPackagePath(rootfiles.children)
  }

  /** The `full-path` of the first package-document `rootfile` among `nodes`. */
  function FirstPackagePath(nodes: seq<Node>): Option<string> {
    if nodes == [] then None
    else
      var n := nodes[0];
      if IsElem(n, "rootfile") && "media-type" in n.attrs && n.attrs["media-type"] == PackageMediaType
         && "full-path" in n.attrs
      then Some(n.attrs["full-path"])
      else FirstPackagePath(nodes[1..])
  }
}
