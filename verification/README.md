# epubuilder package-document assembly, modelled in Dafny

epubuilder builds EPUB books. This project models the part that turns a book's contents
into the XML trees of its package, navigation and container documents. An XML element is
a value of `Xml.Node`: a tag, an attribute map and a sequence of children, or a text node.
Namespace declarations are ordinary attributes (`xmlns`, `xmlns:epub`, `xmlns:dc`).

- `XmlIds` models `xml_identify`, which turns a file path into an XML id:
  - every character outside letters, digits and `: . _ -` becomes `:`;
  - `P_` is put in front unless the result starts with a letter.

  It also holds `str(i)` for natural numbers, which the id-collision loop uses.
- `Manifest` models `Epub._make_manifest_element` of `epubuilder/public/epub.py`, with its
  inner `make_item`:
  - the media type comes from the declared mime, else from the extension table;
  - ids get `_1`, `_2`, … suffixes until they are unused;
  - a worklist of registered paths emits a file only after the file it falls back on;
  - the temporary files come after all registered files.

  The worklist pass keeps the Python iteration behaviour: removing the current path from
  the list being iterated makes the `for` loop skip the path after it.
- `PublicSpine` models `_find_id`, `_find_unique_id`, `_find_ncx_id` and
  `_make_spine_element` of `epubuilder/public/epub.py`.
- `Toc` models `Section`, its `hidden_sub` setter, the recursive `Section.to_element` and
  `Epub._xmlstr_toc`. It also gives a reader of the rendered list, which recovers the
  section tree from it.
- `Package` models `Itemref.to_element`, `Files.to_elements`, `Epub._xmlstr_opf` and
  `Epub._xmlstr_container` of `epubuilder/epub/epub.py`.
  - `_xmlstr_opf` is split into one method per child element of `package`.
  - `_get_container_xmlstring` (epubuilder/public/epub.py:233-251) builds the same
    container tree as `_xmlstr_container`, so `Package.ContainerDocument` models both.

Parameters stand in for what the modelled code gets from outside:
- the extension table `mimes.map_from_extension` is a `map` argument;
- the random uuid id of the navigation item is an argument;
- each metadata entry arrives as its already rendered element, with a flag saying whether
  it is an `Identifier`.

Three defects of `_make_manifest_element` are corrected in the model that the rest of the
project uses. Each correction is proved about, and each defect is exhibited against a
member that follows the code as written (see "## Findings").

## Model

| member | source | states |
|---|---|---|
| XmlIds.Sanitize | epubuilder/public/epub.py:313-318 | the accumulated string has the input's length; each character is kept when it is a letter, digit, `:`, `.`, `_` or `-` and is `:` otherwise, at the same position; so every output character is an id character, and a string of id characters is left unchanged |
| XmlIds.Identify | epubuilder/public/epub.py:304-323 | fails exactly on the empty string (the `new_string[0]` IndexError); otherwise the id starts with a letter and holds only id characters, and it is the sanitised input of length `\|s\|`, or `P_` followed by it (length `\|s\|+2`) exactly when the sanitised first character is not a letter |
| XmlIds.XmlIdentify | epubuilder/public/epub.py:311-323 | the character-by-character loop returns what `Identify` specifies |
| XmlIds.IdentifyIdempotent | epubuilder/public/epub.py:311-323 | applying `xml_identify` to its own output returns that output unchanged |
| XmlIds.NatToString | epubuilder/public/epub.py:188 | `str(i)` is non-empty, all digits, without a leading zero |
| XmlIds.NatToStringRoundTrip | epubuilder/public/epub.py:188 | reading the decimal digits of `str(i)` gives back `i` |
| XmlIds.NatToStringLength | epubuilder/public/epub.py:187-188 | a number of at least `10^k` has more than `k` digits, so a suffix can only collide with a finite set of ids |
| Manifest.RemoveAt | epubuilder/public/epub.py:204 | removing the entry at index `j` shortens the worklist by one and shifts the later entries down by one |
| Manifest.RemoveAtDistinct | epubuilder/public/epub.py:204 | on a worklist without repeats, `remove` takes out exactly the removed path and keeps the list repeat-free |
| Manifest.LastIndexOf | epubuilder/public/epub.py:182 | the index of the last occurrence of a character, or -1 when it does not occur |
| Manifest.Extension | epubuilder/public/epub.py:182 | `os.path.splitext(path)[1]`: a suffix of the path that is empty or starts with a dot and holds no further dot or `/`; it is non-empty exactly when the last path component has a non-dot character before its last dot, and is then the part from that dot on |
| Manifest.MediaType | epubuilder/public/epub.py:181-182 | a non-empty declared mime is the media type; otherwise the media type is the table's entry for the extension, and it is an unknown-extension error for that path exactly when the table has no entry |
| Manifest.ChosenIdIsUnique | epubuilder/public/epub.py:184-191 | the id rule of the collision loop determines a single id |
| Manifest.CandidateBound | epubuilder/public/epub.py:186-188 | a taken candidate `identification_n` has `n` below `10^(longest id length)`, which bounds the collision loop |
| Manifest.NewId | epubuilder/public/epub.py:184-191 | the id is not among the assigned ids; it is the sanitised path when that is free, otherwise `identification_k` for the least `k >= 1` whose candidate is free |
| Manifest.MakeItem | epubuilder/public/epub.py:178-193 | `make_item`: the media type is the declared mime when non-empty, else the table entry of the extension, else an unknown-extension error; an empty path is an error; the id is the one `NewId` chooses against the assigned ids; an error is the one `MakeItemError` names for the path |
| Manifest.MakeItemError | epubuilder/public/epub.py:181-184 | `make_item` fails exactly when the media type cannot be resolved or the path is empty, the media type's error first |
| Manifest.FirstItemError | epubuilder/public/epub.py:195-213 | there is no error exactly when `make_item` succeeds on every path of the sequence |
| Manifest.FirstItemErrorIsFirst | epubuilder/public/epub.py:195-213 | the error `FirstItemError` reports is the `make_item` error of some path, and `make_item` succeeds on every path before it |
| Manifest.FirstItemErrorAppend | epubuilder/public/epub.py:195-213 | the first error of two stretches of paths made one after the other is the first stretch's, or else the second's |
| Manifest.PassShrinks | epubuilder/public/epub.py:196-210 | a pass over the worklist never lengthens it, and a pass that leaves its length unchanged found no ready path |
| Manifest.RemoveAtMultiset | epubuilder/public/epub.py:204 | `remove` takes exactly one occurrence of the removed path off the worklist |
| Manifest.PassConserves | epubuilder/public/epub.py:196-210 | the paths a pass emits and the paths it leaves on the worklist are, together, exactly the worklist it started from |
| Manifest.PassKeepsRegistered | epubuilder/public/epub.py:196-210 | the worklist a pass leaves holds only registered paths |
| Manifest.StuckPassLeavesWorklist | epubuilder/public/epub.py:195-210 | when no path on the worklist is ready, a pass leaves the worklist unchanged: as written, the `while pathes` loop then repeats forever |
| Manifest.RankedFallbacksNeverStick | epubuilder/public/epub.py:195-210 | when every fallback is registered and fallbacks have a rank that decreases along each fallback, no non-empty worklist is stuck |
| Manifest.IdsOfAppend | epubuilder/public/epub.py:191 | appending an item to the manifest appends exactly its id to the list of ids |
| Manifest.MadeFromAppend | epubuilder/public/epub.py:191 | appending an item to the manifest keeps how each earlier item was made |
| Manifest.RegisteredItemAppend | epubuilder/public/epub.py:203 | appending an item keeps each earlier item the item of its registered file, linked to its fallback |
| Manifest.EmitKeepsSplit | epubuilder/public/epub.py:201-204 | emitting a path moves it from the worklist into `item_dict`: every registered path stays in exactly one of the two |
| Manifest.EmittedItemRegistered | epubuilder/public/epub.py:197-209 | the new item is the item of its registered file, and its `fallback` is the id of the earlier item emitted for the fallback path |
| Manifest.IndexedAppend | epubuilder/public/epub.py:201-209 | entering a new path in `item_dict` and the manifest keeps the hrefs distinct and `item_dict` mapping each href to its item |
| Manifest.EmitKeepsItems | epubuilder/public/epub.py:199-210 | emitting a new path keeps the ids list equal to the manifest's ids and every emitted item registered and indexed |
| Manifest.EmitKeepsBuilding | epubuilder/public/epub.py:195-210 | emitting a ready path keeps the whole loop invariant of the worklist loop |
| Manifest.EmitAdvancesPass | epubuilder/public/epub.py:196-210 | emitting the path at index `j` advances the as-written pass exactly as its specifications `PassFrom` and `PassEmitted` do, skip included: the href appended now plus what the rest of the pass emits is what the pass emits from `j` |
| Manifest.EmitPath | epubuilder/public/epub.py:197-210 | emitting a ready path: `make_item`, the fallback id taken from the fallback target's item, the `item_dict` entry and the manifest child, keeping the loop invariant; on failure, the error is the path's own `make_item` error |
| Manifest.VisitPath | epubuilder/public/epub.py:196-210 | one iteration of the `for` body: for a ready path `pending[j]` the new state is `Emit` of an item for that very path, so the worklist loses it and the manifest gains its href, and the rest of the pass is as `PassFrom` / `PassEmitted` say; a path whose fallback is not yet emitted leaves the state unchanged; a failure happens only at a ready path, and its error is that path's `make_item` error, which is the first error of the rest of the pass |
| Manifest.RunPass | epubuilder/public/epub.py:196-210 | one pass over the worklist leaves the worklist `PassFrom` specifies, keeps the items from before the pass as a prefix and appends items whose hrefs are exactly `PassEmitted`, in order; it keeps the loop invariant; on failure, the error is the first `make_item` error among the paths `PassEmitted` lists, in that order |
| Manifest.EmissionOrder | epubuilder/public/epub.py:195-210 | the order in which the passes emit the worklist, pass after pass until a pass emits nothing; it holds each path of the worklist at most as often as the worklist does |
| Manifest.PassKeepsOrder | epubuilder/public/epub.py:195-210 | a pass that shrinks the worklist appends to the manifest exactly the next stretch of `EmissionOrder` |
| Manifest.StuckPassError | epubuilder/public/epub.py:195-210 | when a pass leaves the worklist as long as it was, every file on it has a fallback that is on it too or is not registered, `EmissionOrder` of that worklist is empty and no path emitted so far failed |
| Manifest.StuckPassEnds | epubuilder/public/epub.py:195-210 | the stuck exit of the loop: the error is `UnresolvedFallbacks` of the worklist left, which is exactly the registered paths `EmissionOrder` never emits, and no path in `EmissionOrder` failed |
| Manifest.StuckWorklistIsRest | epubuilder/public/epub.py:195-210 | once the passes stick, the worklist left holds, without repeats, exactly the registered paths missing from `EmissionOrder`, and there is at least one |
| Manifest.WorklistIsRest | epubuilder/public/epub.py:195-210 | between passes, a path is on the worklist exactly when it is registered and has no item in the manifest yet |
| Manifest.EmissionOrderStep | epubuilder/public/epub.py:195-210 | a pass that shrinks the worklist is the first stretch of `EmissionOrder`, which goes on with the worklist that pass leaves |
| Manifest.PassErrorLeads | epubuilder/public/epub.py:195-210 | the first `make_item` error of a pass is the first error of the whole `EmissionOrder` |
| Manifest.PassErrorInOrder | epubuilder/public/epub.py:195-210 | when a pass fails after items that were all made without error, its error is the first error of the manifest's hrefs followed by the rest of `EmissionOrder` |
| Manifest.EmitRegistered | epubuilder/public/epub.py:195-210 | the worklist loop ends with every registered path emitted, the manifest's hrefs in `EmissionOrder`, or with the non-empty stuck worklist in which no path's fallback was emitted, which is exactly the set of registered paths `EmissionOrder` leaves out, without repeats; a `make_item` error is the first one in `EmissionOrder`, and the stuck error comes only when no path in `EmissionOrder` failed |
| Manifest.EmptyWorklistEmittedAll | epubuilder/public/epub.py:195-210 | once the worklist is empty, every registered path has exactly one item among the emitted ones |
| Manifest.RegisteredPrefixAppend | epubuilder/public/epub.py:212-213 | appending temporary items keeps the registered items before them as they were |
| Manifest.TempItemsAppend | epubuilder/public/epub.py:212-213 | appending the item `make_item` made for the next temporary file extends the temporary part of the manifest |
| Manifest.AppendTempFiles | epubuilder/public/epub.py:212-213 | one item per temporary file in its order, without fallback, after the registered items, which stay unchanged; on failure, the error is the first temporary file's `make_item` error in their order |
| Manifest.TempErrorIsFirst | epubuilder/public/epub.py:212-213 | the temporary file that fails is the first to fail, since every earlier one was made |
| Manifest.MakeManifest | epubuilder/public/epub.py:165-215 | on success, each registered path has exactly one item with that href among the first `\|paths\|` items, each made by `make_item` and emitted after the item of its fallback, followed by one item per temporary file; the registered items' hrefs are `EmissionOrder(paths)`, which is a permutation of the registered paths, so the order, and with it which of several colliding paths gets which `_k` suffix, is fixed; on failure, the first `make_item` error in `EmissionOrder` if there is one, otherwise, when `EmissionOrder` leaves registered paths out, the stuck error listing exactly those paths, and only when it leaves none out the first temporary file's error |
| Manifest.PrefixKeepsHrefs | epubuilder/public/epub.py:212-215 | appending the temporary items keeps every registered path covered once by the registered prefix |
| Manifest.ItemElement | epubuilder/public/epub.py:179-200 | the `item` element of an item: `href`, `media-type` and `id` from the item, a `fallback` attribute exactly when the item has a fallback, no other attribute and no children |
| Manifest.ManifestElement | epubuilder/public/epub.py:170-215 | `manifest` without attributes, holding one `item` per manifest item, in order |
| Manifest.RegisteredItemElement | epubuilder/public/epub.py:199-201 | a registered file's `item` element has a `fallback` attribute exactly when the file declares a fallback, and it is the id of the item whose href is that fallback |
| Manifest.BuiltManifestElement | epubuilder/public/epub.py:195-215 | in the element of a built manifest, a registered file's `item` has a `fallback` attribute exactly when the file declares a fallback, and it is the id of the fallback file's item; a temporary file's `item` has none |
| Manifest.ManifestIdsDistinct | epubuilder/public/epub.py:172-215 | all ids of a built manifest are pairwise distinct |
| Manifest.RankedManifestNeverStuck | epubuilder/public/epub.py:195-210 | with registered, acyclic fallbacks the build never fails on its fallbacks |
| Manifest.CollisionLoopAsWritten | epubuilder/public/epub.py:185-188 | the loop as written, under a step budget: an id it returns is unused and is the sanitised path or `identification_1`; a free sanitised path is returned at once, and when only the sanitised path is taken the result is `identification_1` |
| Manifest.CollisionLoopAsWrittenNeverEnds | epubuilder/public/epub.py:185-188 | as written, once the sanitised path and `identification_1` are both taken, the collision loop never ends, whatever the step budget |
| Manifest.ThreePathsShareId | epubuilder/public/epub.py:304-323 | `a b`, `a?b` and `a*b` all get the id `a:b` |
| Manifest.ThirdCollisionHangs | epubuilder/public/epub.py:184-191 | with `a:b` and `a:b_1` taken, the third path sanitising to `a:b` hangs the loop as written, while the corrected loop gives `a:b_2` |
| Manifest.FallbackIdAsWritten | epubuilder/public/epub.py:200 | the lookup as written: there is a fallback id exactly when the path being emitted is already in `item_dict`, and it is then that entry's id |
| Manifest.FallbackLookupAsWrittenFails | epubuilder/public/epub.py:197-201 | as written, line 200 looks up the path being emitted in `item_dict`, where it never is, so the first file with a fallback raises KeyError |
| PublicSpine.FirstId | epubuilder/public/epub.py:159-163 | there is no id exactly when no item has the path |
| PublicSpine.FirstIdIsFirst | epubuilder/public/epub.py:159-163 | the id found is that of the first item whose href is the path |
| PublicSpine.FindId | epubuilder/public/epub.py:159-163 | the search loop with early return gives `FirstId` |
| PublicSpine.RegisteredPathResolves | epubuilder/public/epub.py:159-163 | in a built manifest every registered path resolves, to the id of its own file's item |
| PublicSpine.FindUniqueId | epubuilder/public/epub.py:149-157 | the id of the first `Identifier`'s element; None when there is none; KeyError when that element has no `id` |
| PublicSpine.FindNcxId | epubuilder/public/epub.py:140-147 | the id of the first item whose media type is NCX, and None exactly when no item has it |
| PublicSpine.MakeSpine | epubuilder/public/epub.py:217-231 | one `itemref` per joint, in spine order, whose idref is the first item id for the joint's path and whose `linear` is set by the tri-state flag; it fails exactly when some path has no item |
| Toc.SetHiddenSub | epubuilder/epub/epub.py:92-97 | succeeds exactly for values equal to True or False and stores them, leaving title, href and subsections unchanged; any other value raises ValueError and changes nothing |
| Toc.SectionElement | epubuilder/epub/epub.py:99-119 | an `li` with one child: an `a` whose only attribute is `href` when the href is truthy, else a `span` without attributes; its first child is the title text, and an `ol` holding one rendered `li` per subsection follows exactly when there are subsections |
| Toc.SubsectionsRoundTrip | epubuilder/epub/epub.py:110-115 | the `ol` holds one rendered `li` per subsection, and reading it back gives the subsections in order |
| Toc.SectionRoundTrip | epubuilder/epub/epub.py:99-119 | reading back `to_element` gives the section's title, its link (when truthy) and its whole subsection tree, in order and at the same depth |
| Toc.SubsectionsLiCount | epubuilder/epub/epub.py:110-115 | the `li` elements under the subsection list are as many as the sections in the subtrees |
| Toc.SectionLiCount | epubuilder/epub/epub.py:99-119 | a rendered section holds exactly one `li` per section of its tree |
| Toc.NavDocument | epubuilder/epub/epub.py:227-255 | `html` with an empty `head` (the title is dropped) and a `body` that holds the `nav epub:type="toc"` only for a non-empty toc, whose `ol` renders each top-level section in order |
| Toc.NormalizeAll | epubuilder/epub/epub.py:247-248 | one normalised section per toc section |
| Toc.RenderedListRoundTrip | epubuilder/epub/epub.py:243-251 | reading back the toc `ol` gives every top-level section, normalised, in order |
| Package.ItemrefElement | epubuilder/epub/epub.py:171-179 | `idref` is copied; `linear` is `yes` for True, `no` for False and absent for None |
| Package.ItemrefRoundTrip | epubuilder/epub/epub.py:171-179 | reading an `itemref` element gives back the idref and the tri-state flag |
| Package.FileItemElement | epubuilder/epub/epub.py:133-135 | `href` is the path, `media-type` the file's mime, and `id` is present exactly when the file has an identification |
| Package.FilesToElements | epubuilder/epub/epub.py:130-139 | one item per file entry, in the dictionary's order |
| Package.NavItemElement | epubuilder/epub/epub.py:284-288 | an `item` without children whose attributes are exactly `href` (the nav path), `id`, `properties="nav"` and `media-type="application/xhtml+xml"` |
| Package.PackageAttributes | epubuilder/epub/epub.py:261-267 | the fixed `package` attributes plus `unique-identifier` set to the id of the LAST identifier; KeyError exactly when some identifier's element has no `id` |
| Package.MetadataElement | epubuilder/epub/epub.py:271-277 | the `metadata` element holds every entry's element, in order |
| Package.ManifestNode | epubuilder/epub/epub.py:280-291 | the file items, preceded by the nav item (`properties="nav"`, XHTML media type) exactly when `nav_toc_path` is truthy, so that the length is the number of files or one more |
| Package.SpineNode | epubuilder/epub/epub.py:293-298 | one `itemref` per spine entry, in order |
| Package.OpfDocument | epubuilder/epub/epub.py:257-300 | `package` with its fixed attributes and `unique-identifier`, then `metadata`, `manifest` and `spine` as above; it fails exactly when an identifier has no `id` |
| Package.ContainerDocument | epubuilder/epub/epub.py:302-320 | `container` version 1.0 with exactly one `rootfiles` holding one `rootfile`, from which a reader (test/test_epub.py:67-72) gets back the package path |

## Left out

- `Epub.write` and the zip archive (epubuilder/epub/epub.py:322-355) are file I/O. The archive layout, with an uncompressed `mimetype` entry first (section 4.3 of OCF 3.0.1), is not modelled.
- `get_unused_filename` / `_get_unused_filename` are not modelled. They draw random names; as written they also use a malformed format string and call `random.random` with an argument.
- `addons_make_image_page` is not modelled. It decodes images, reads a template from disk and calls a path helper in a module that is not part of this model.
- The `xl` element library, `insert_spaces_for_pretty` and `xml_string` are not part of this model. Documents are trees, not text. Namespaced names are written as `prefix:name` attribute keys.
- `mimes.map_from_extension`, `identify_mime` and the metadata classes (`Identifier.as_element` / `to_element`) are not part of this model. The table is a `map` argument. A metadata entry is its rendered element plus an identifier flag.
- The uuid-generated ids are not modelled: the navigation item's id is an argument, and `Package.File.identification` is given.
- The `media_table` data of epubuilder/epub/epub.py is not modelled: the modelled code does not use it.
- The `_before_add` type checks of the hooky `List`/`Dict` containers are left out: Dafny's types make them vacuous.
- Letters and digits are ASCII letters and digits. Python's `str.isalpha` / `str.isdigit` also accept other Unicode letters and digits.
- `Section` is a value, not an object. Its `title` and `href` setters are unchecked field assignments (`s.(title := v)`); `hidden_sub` is modelled by `Toc.SetHiddenSub`. `hidden_sub` is not rendered by `to_element`.
- `Section.to_element` and `Itemref.to_element` are pure tree construction and are modelled as functions. `Files.to_elements`, `_xmlstr_toc`, `_xmlstr_opf` and the manifest and spine builders are loops, modelled as methods.
- PublicSpine.FindId: takes the manifest items as an argument. The original rebuilds the whole manifest on every call.
- PublicSpine.MakeSpine: a joint whose path has no manifest item is an error. The original then writes an `itemref` whose `idref` is None, and what the element library does with that is not part of this model.
- Manifest.MakeManifest: returns the manifest items as `Item` records. `Manifest.ManifestElement` renders them as the `manifest` element.
- Manifest.MakeManifest: the order of the registered items is stated through `Manifest.EmissionOrder`, a recursive specification of the as-written passes, not as a closed formula.
- Manifest.Extension: only `/` separates path components. On Windows, `ntpath.splitext` also treats `\` as a separator.
- Toc.SetHiddenSub: floats are not modelled. Python's `value in (True, False)` also accepts `1.0` and `0.0`.
- Manifest.EmitRegistered: when a pass emits nothing, it returns the stuck worklist as an error; its contract fixes the paths in that list, not their order. The original loops forever there (see "## Findings").
- PublicSpine.NcxMediaType and Package.DcNamespace: the values of `mimes.NCX` (`application/x-dtbncx+xml`) and `URI_DC` (`http://purl.org/dc/elements/1.1/`) are assumed; the modules that define them are not part of this model.

## Findings

| source | as written | input that shows it | evidently intended | confidence | as-written member | corrected member |
|---|---|---|---|---|---|---|
| epubuilder/public/epub.py:186-188 | the collision loop never increments `i`, so `new_id` stays `identification_1` | three registered paths `a b`, `a?b`, `a*b`, each with a declared mime (they have no extension, so otherwise only a table entry for `""` lets them reach line 184), which all sanitise to `a:b`: the third finds `a:b` and `a:b_1` taken and loops forever | `i` counts up until `identification_i` is free | high (not executed) | Manifest.CollisionLoopAsWrittenNeverEnds | Manifest.NewId |
| epubuilder/public/epub.py:200 | the `fallback` attribute reads `item_dict[_path]`, the entry of the path being emitted, which is not there yet | `a.xhtml` without fallback, then `b.xhtml` with fallback `a.xhtml`: emitting `b.xhtml` raises KeyError | the id of the item emitted for the fallback path, `item_dict[fallback]` | high (not executed) | Manifest.FallbackLookupAsWrittenFails | Manifest.EmitPath |
| epubuilder/public/epub.py:195-210 | `while pathes` repeats passes until the worklist is empty | a file whose fallback is not registered, or two files falling back on each other: no pass emits anything and the loop never ends | report the files whose fallbacks cannot be resolved | high (not executed) | Manifest.StuckPassLeavesWorklist | Manifest.EmitRegistered |
