/** The manifest builder of epubuilder/public/epub.py (`Epub._make_manifest_element` and its
    inner `make_item`).

    Three defects of the original are corrected here, each noted where it happens:
    the collision counter `i` now counts up, the `fallback` attribute takes the id of the
    fallback target's item, and a pass over the worklist that emits nothing ends the build
    with an error instead of repeating forever. */
module Manifest {
  import opened Wrappers
  import opened Xml
  import opened XmlIds

  /** A registered file: its bytes, an optional declared media type and an optional
      fallback path. A declared media type of "" is falsy in the original, like None. */
  datatype File = File(binary: seq<bv8>, mime: Option<string>, fallback: Option<string>)

  /** One manifest `item` element, attribute by attribute. */
  datatype Item = Item(href: string, mediaType: string, id: string, fallback: Option<string>)

  datatype Error =
    | UnknownExtension(path: string)           // KeyError from the extension table
    | EmptyPath                                // IndexError inside xml_identify
    | UnresolvedFallbacks(stuck: seq<string>)  // the worklist cannot shrink any more

  /** The state of the build: the worklist `pathes`, the items appended so far, the list
      `ids` and the dictionary `item_dict`. */
  datatype State = State(pending: seq<string>, items: seq<Item>, ids: seq<string>,
                         itemDict: map<string, Item>)

  predicate Distinct(s: seq<string>) {
    forall i, j :: 0 <= i < j < |s| ==> s[i] != s[j]
  }

  /** A dictionary of files: `paths` are its keys, in insertion order. */
  predicate Registry(paths: seq<string>, files: map<string, File>) {
    && Distinct(paths)
    && (forall p :: p in files ==> p in paths)
    && (forall i :: 0 <= i < |paths| ==> paths[i] in files)
  }

  /** `s` without its element at index `j` (`list.remove` of an element that occurs once). */
  function RemoveAt(s: seq<string>, j: nat): (r: seq<string>)
    requires j < |s|
    ensures |r| == |s| - 1
    ensures forall i :: 0 <= i < |r| ==> r[i] == if i < j then s[i] else s[i + 1]
  {
    s[..j] + s[j + 1..]
  }

  /** The index of the last occurrence of `c` in `s`, or -1. */
  function LastIndexOf(s: string, c: char): (r: int)
    ensures -1 <= r < |s|
    ensures r >= 0 ==> s[r] == c
    ensures forall i :: r < i < |s| ==> s[i] != c
  {
    if s == [] then -1
    else if s[|s| - 1] == c then |s| - 1
    else LastIndexOf(s[..|s| - 1], c)
  }

  /** `os.path.splitext(path)[1]` with `/` as separator: from the last dot of the last path
      component, unless that component has only dots before it. */
  function Extension(path: string): (r: string)
    ensures |r| <= |path| && r == path[|path| - |r|..]
    ensures r != [] ==> r[0] == '.' && forall i :: 1 <= i < |r| ==> r[i] != '.' && r[i] != '/'
    ensures r != [] <==>
      exists d, k :: 0 <= k < d < |path| && path[d] == '.' && path[k] != '.' &&
        (forall i :: k <= i < |path| ==> path[i] != '/') &&
        (forall i :: d < i < |path| ==> path[i] != '.')
  {
    var sep := LastIndexOf(path, '/');
    var dot := LastIndexOf(path, '.');
    if dot > sep && exists k :: sep < k < dot && path[k] != '.' then path[dot..] else ""
  }

  /** `file_.mime or mimes.map_from_extension[ext]`; a missing extension raises KeyError. */
  function MediaType(path: string, file: File, table: map<string, string>): (r: Result<string, Error>)
    ensures file.mime.Some? && file.mime.value != "" ==> r == Ok(file.mime.value)
    ensures (file.mime.None? || file.mime.value == "") ==>
      (r.Ok? <==> Extension(path) in table) &&
      (r.Ok? ==> r.value == table[Extension(path)]) &&
      (r.Err? ==> r.error == UnknownExtension(path))
  {
    if file.mime.Some? && file.mime.value != "" then Ok(file.mime.value)
    else
      var ext := Extension(path);
      if ext in table then Ok(table[ext]) else Err(UnknownExtension(path))
  }

  /** `identification + '_' + str(i)`. */
  function Candidate(identification: string, i: nat): string {
    identification + "_" + NatToString(i)
  }

  /** The id the collision loop of `make_item` settles on when `ids` are taken, with its
      counter counting up from 1: the sanitised path when it is free, otherwise the first
      free `identification_i`. */
  ghost predicate ChosenId(identification: string, ids: seq<string>, id: string) {
    && id !in ids
    && (identification !in ids ==> id == identification)
    && (identification in ids ==>
          exists k: nat :: 1 <= k && id == Candidate(identification, k) &&
                           forall j: nat :: 1 <= j < k ==> Candidate(identification, j) in ids)
  }

  /** The collision loop determines the id: two ids it may settle on are equal. */
  lemma ChosenIdIsUnique(identification: string, ids: seq<string>, x: string, y: string)
    requires ChosenId(identification, ids, x) && ChosenId(identification, ids, y)
    ensures x == y
  {
    if identification in ids {
      var kx: nat :| 1 <= kx && x == Candidate(identification, kx) &&
                     forall j: nat :: 1 <= j < kx ==> Candidate(identification, j) in ids;
      var ky: nat :| 1 <= ky && y == Candidate(identification, ky) &&
                     forall j: nat :: 1 <= j < ky ==> Candidate(identification, j) in ids;
      // a smaller counter would name a taken candidate
      assert kx == ky;
    }
  }

  /** The length of the longest string of `ids`. */
  function MaxLength(ids: seq<string>): (r: nat)
    ensures forall x :: x in ids ==> |x| <= r
  {
    if ids == [] then 0
    else
      var m := MaxLength(ids[..|ids| - 1]);
      assert ids == ids[..|ids| - 1] + [ids[|ids| - 1]];
      if |ids[|ids| - 1]| > m then |ids[|ids| - 1]| else m
  }

  /** A taken candidate has a counter below `Pow10(MaxLength(ids))`: the collision loop
      runs out of taken candidates. */
  lemma CandidateBound(identification: string, ids: seq<string>, n: nat)
    requires Candidate(identification, n) in ids
    ensures n < Pow10(MaxLength(ids))
  {
    NatToStringLength(n, MaxLength(ids));
  }

  /** The collision loop of `make_item`, lines 185-188, with `i` incremented on each
      round (the original never increments it). */
  method NewId(identification: string, ids: seq<string>) returns (newId: string)
    ensures ChosenId(identification, ids, newId)
  {
    newId := identification;
    var i: nat := 1;
    ghost var bound := Pow10(MaxLength(ids));
    while newId in ids
      invariant 1 <= i <= bound + 1
      invariant i == 1 ==> newId == identification
      invariant i > 1 ==> newId == Candidate(identification, i - 1) && identification in ids
      invariant forall j: nat :: 1 <= j < i - 1 ==> Candidate(identification, j) in ids
      decreases bound + 1 - i
    {
      if i > 1 {
        CandidateBound(identification, ids, i - 1);
      }
      newId := Candidate(identification, i);
      i := i + 1;
    }
  }

  /** The error `make_item` raises for `path`, if any: the media type's first (lines 181-182),
      then the empty path's (line 184). */
  function MakeItemError(path: string, file: File, table: map<string, string>): (r: Option<Error>)
    ensures r.None? <==> MediaType(path, file, table).Ok? && path != []
  {
    var mediaType := MediaType(path, file, table);
    if mediaType.Err? then Some(mediaType.error)
    else if path == [] then Some(EmptyPath)
    else None
  }

  /** The first error of `errs`, if any. */
  function FirstSome(errs: seq<Option<Error>>): (r: Option<Error>)
    ensures r.None? <==> forall i :: 0 <= i < |errs| ==> errs[i].None?
  {
    if errs == [] then None
    else if errs[0].Some? then errs[0]
    else FirstSome(errs[1..])
  }

  /** The error `FirstSome` reports is at index `k`, and there is none before `k`. */
  lemma {:induction false} FirstSomeIsFirst(errs: seq<Option<Error>>) returns (k: nat)
    requires FirstSome(errs).Some?
    ensures k < |errs| && errs[k] == FirstSome(errs)
    ensures forall i :: 0 <= i < k ==> errs[i].None?
  {
    if errs[0].Some? {
      k := 0;
    } else {
      var k' := FirstSomeIsFirst(errs[1..]);
      k := k' + 1;
    }
  }

  lemma {:induction false} FirstSomeAppend(a: seq<Option<Error>>, b: seq<Option<Error>>)
    ensures FirstSome(a + b) == if FirstSome(a).Some? then FirstSome(a) else FirstSome(b)
  {
    if a == [] {
      assert a + b == b;
    } else {
      assert (a + b)[1..] == a[1..] + b;
      FirstSomeAppend(a[1..], b);
    }
  }

  /** The `make_item` error of each path, in order. */
  function ItemErrors(paths: seq<string>, files: map<string, File>,
                      table: map<string, string>): (r: seq<Option<Error>>)
    requires forall i :: 0 <= i < |paths| ==> paths[i] in files
    ensures |r| == |paths|
    ensures forall i :: 0 <= i < |paths| ==> r[i] == MakeItemError(paths[i], files[paths[i]], table)
  {
    seq(|paths|, i requires 0 <= i < |paths| => MakeItemError(paths[i], files[paths[i]], table))
  }

  /** The error of the first path of `paths` for which `make_item` fails, when they are made
      in order. */
  function FirstItemError(paths: seq<string>, files: map<string, File>,
                          table: map<string, string>): (r: Option<Error>)
    requires forall i :: 0 <= i < |paths| ==> paths[i] in files
    ensures r.None? <==> forall i :: 0 <= i < |paths| ==> MakeItemError(paths[i], files[paths[i]], table).None?
  {
    FirstSome(ItemErrors(paths, files, table))
  }

  /** `FirstItemError` is the error of a path `k` before which every path is made without
      error, and there is none exactly when every path is made without error. */
  lemma FirstItemErrorIsFirst(paths: seq<string>, files: map<string, File>,
                              table: map<string, string>)
    returns (k: nat)
    requires forall i :: 0 <= i < |paths| ==> paths[i] in files
    requires FirstItemError(paths, files, table).Some?
    ensures k < |paths| && MakeItemError(paths[k], files[paths[k]], table) == FirstItemError(paths, files, table)
    ensures forall i :: 0 <= i < k ==> MakeItemError(paths[i], files[paths[i]], table).None?
  {
    k := FirstSomeIsFirst(ItemErrors(paths, files, table));
  }

  lemma FirstItemErrorAppend(a: seq<string>, b: seq<string>,
                             files: map<string, File>, table: map<string, string>)
    requires forall i :: 0 <= i < |a| ==> a[i] in files
    requires forall i :: 0 <= i < |b| ==> b[i] in files
    ensures FirstItemError(a + b, files, table)
         == if FirstItemError(a, files, table).Some? then FirstItemError(a, files, table)
            else FirstItemError(b, files, table)
  {
    var errs := ItemErrors(a, files, table) + ItemErrors(b, files, table);
    forall i | 0 <= i < |a| + |b|
      ensures ItemErrors(a + b, files, table)[i] == errs[i]
    {
      if i < |a| {
        assert (a + b)[i] == a[i];
      } else {
        assert (a + b)[i] == b[i - |a|];
      }
    }
    assert ItemErrors(a + b, files, table) == errs;
    FirstSomeAppend(ItemErrors(a, files, table), ItemErrors(b, files, table));
  }

  /** `make_item(path, file_)` without its final `ids.append`, which the caller does:
      the media type is looked up first, then the id is chosen. */
  method MakeItem(path: string, file: File, table: map<string, string>, ids: seq<string>)
    returns (r: Result<Item, Error>)
    ensures r.Ok? <==> MediaType(path, file, table).Ok? && path != []
    ensures MediaType(path, file, table).Err? ==> r == Err(MediaType(path, file, table).error)
    ensures MediaType(path, file, table).Ok? && path == [] ==> r == Err(EmptyPath)
    ensures r.Err? ==> MakeItemError(path, file, table) == Some(r.error)
    ensures r.Ok? ==>
      && r.value.href == path
      && MediaType(path, file, table) == Ok(r.value.mediaType)
      && Identify(path).Some?
      && ChosenId(Identify(path).value, ids, r.value.id)
      && r.value.fallback == None
  {
    var mediaType := MediaType(path, file, table);
    if mediaType.Err? {
      return Err(mediaType.error);
    }
    var identification := XmlIdentify(path);
    if identification.None? {
      return Err(EmptyPath);
    }
    var id := NewId(identification.value, ids);
    return Ok(Item(path, mediaType.value, id, None));
  }

  /** The ids of `items`, in order: the list `ids` of the original. */
  function IdsOf(items: seq<Item>): (r: seq<string>)
    ensures |r| == |items| && forall k :: 0 <= k < |items| ==> r[k] == items[k].id
  {
    seq(|items|, k requires 0 <= k < |items| => items[k].id)
  }

  /** Appending an item to the manifest appends its id to `ids` (line 191). */
  lemma IdsOfAppend(items: seq<Item>, item: Item)
    ensures IdsOf(items + [item]) == IdsOf(items) + [item.id]
  {
    assert IdsOf(items + [item])[..|items|] == IdsOf(items);
  }

  /** The hrefs of `items`, in order. */
  function Hrefs(items: seq<Item>): (r: seq<string>)
    ensures |r| == |items| && forall k :: 0 <= k < |items| ==> r[k] == items[k].href
  {
    seq(|items|, k requires 0 <= k < |items| => items[k].href)
  }

  lemma HrefsAppend(items: seq<Item>, item: Item)
    ensures Hrefs(items + [item]) == Hrefs(items) + [item.href]
  {
    assert Hrefs(items + [item])[..|items|] == Hrefs(items);
  }

  /** Item `k` is `make_item(href, file)` given the items before it. */
  ghost predicate MadeFrom(file: File, table: map<string, string>, items: seq<Item>, k: nat)
    requires k < |items|
  {
    && MediaType(items[k].href, file, table) == Ok(items[k].mediaType)
    && Identify(items[k].href).Some?
    && ChosenId(Identify(items[k].href).value, IdsOf(items[..k]), items[k].id)
  }

  /** Item `k` carries the fallback its file declares, as the id of an earlier item. */
  ghost predicate FallbackLinked(fallback: Option<string>, items: seq<Item>, k: nat)
    requires k < |items|
  {
    match fallback
    case None => items[k].fallback == None
    case Some(f) =>
      exists m :: 0 <= m < k && items[m].href == f && items[k].fallback == Some(items[m].id)
  }

  /** Item `k` is the item of a registered file. */
  ghost predicate RegisteredItem(files: map<string, File>, table: map<string, string>,
                                 items: seq<Item>, k: nat)
    requires k < |items|
  {
    && items[k].href in files
    && MadeFrom(files[items[k].href], table, items, k)
    && FallbackLinked(files[items[k].href].fallback, items, k)
  }

  /** The worklist and `item_dict` split the registered paths between them. */
  ghost predicate WorklistSplit(files: map<string, File>, st: State) {
    && Distinct(st.pending)
    && (forall i :: 0 <= i < |st.pending| ==> st.pending[i] in files)
    && (forall p :: p in files ==> (p in st.itemDict <==> p !in st.pending))
    && st.itemDict.Keys <= files.Keys
  }

  /** The items emitted so far are those of distinct registered files, and `item_dict`
      maps each of their paths to its item. */
  ghost predicate ItemsEmitted(files: map<string, File>, table: map<string, string>, st: State) {
    && st.ids == IdsOf(st.items)
    && (forall k :: 0 <= k < |st.items| ==> RegisteredItem(files, table, st.items, k))
    && Indexed(st.items, st.itemDict)
  }

  /** The items have distinct hrefs and `item_dict` maps exactly those hrefs to them. */
  ghost predicate Indexed(items: seq<Item>, itemDict: map<string, Item>) {
    && (forall i, j :: 0 <= i < j < |items| ==> items[i].href != items[j].href)
    && (forall k :: 0 <= k < |items| ==>
          items[k].href in itemDict && itemDict[items[k].href] == items[k])
    && (forall p :: p in itemDict ==> exists k :: 0 <= k < |items| && items[k].href == p)
  }

  /** What holds of the state between any two steps of the worklist loop. */
  ghost predicate Building(paths: seq<string>, files: map<string, File>,
                           table: map<string, string>, st: State)
  {
    && Registry(paths, files)
    && |st.items| + |st.pending| == |paths|
    && WorklistSplit(files, st)
    && ItemsEmitted(files, table, st)
  }

  /** The worklist test of line 197-198: a file is ready when it has no fallback or its
      fallback has been emitted. */
  predicate Ready(p: string, emitted: set<string>, files: map<string, File>)
    requires p in files
  {
    files[p].fallback.None? || files[p].fallback.value in emitted
  }

  /** One pass of `for _path in pathes` (lines 196-210) starting at index `j`, as written:
      removing the current path makes the loop skip the path after it. The result is the
      worklist left after the pass. */
  function PassFrom(pending: seq<string>, j: nat, emitted: set<string>,
                    files: map<string, File>): seq<string>
    requires forall i :: 0 <= i < |pending| ==> pending[i] in files
    decreases |pending| - j
  {
    if j >= |pending| then pending
    else if Ready(pending[j], emitted, files) then
      PassFrom(RemoveAt(pending, j), j + 1, emitted + {pending[j]}, files)
    else PassFrom(pending, j + 1, emitted, files)
  }

  /** The paths one pass emits from index `j` on, in the order it emits them. */
  function PassEmitted(pending: seq<string>, j: nat, emitted: set<string>,
                       files: map<string, File>): (r: seq<string>)
    requires forall i :: 0 <= i < |pending| ==> pending[i] in files
    ensures forall i :: 0 <= i < |r| ==> r[i] in files
    decreases |pending| - j
  {
    if j >= |pending| then []
    else if Ready(pending[j], emitted, files) then
      [pending[j]] + PassEmitted(RemoveAt(pending, j), j + 1, emitted + {pending[j]}, files)
    else PassEmitted(pending, j + 1, emitted, files)
  }

  lemma RemoveAtMultiset(s: seq<string>, j: nat)
    requires j < |s|
    ensures multiset(RemoveAt(s, j)) + multiset{s[j]} == multiset(s)
  {
    assert s == s[..j] + [s[j]] + s[j + 1..];
  }

  /** A pass only moves paths: what it emits and what it leaves on the worklist are, together,
      the worklist it started from. */
  lemma {:induction false} PassConserves(pending: seq<string>, j: nat, emitted: set<string>,
                                         files: map<string, File>)
    requires forall i :: 0 <= i < |pending| ==> pending[i] in files
    ensures multiset(PassEmitted(pending, j, emitted, files))
          + multiset(PassFrom(pending, j, emitted, files)) == multiset(pending)
    ensures |PassEmitted(pending, j, emitted, files)| + |PassFrom(pending, j, emitted, files)| == |pending|
    decreases |pending| - j
  {
    if j < |pending| {
      if Ready(pending[j], emitted, files) {
        PassConserves(RemoveAt(pending, j), j + 1, emitted + {pending[j]}, files);
        RemoveAtMultiset(pending, j);
      } else {
        PassConserves(pending, j + 1, emitted, files);
      }
    }
  }

  /** What a pass leaves on the worklist is still registered. */
  lemma {:induction false} PassKeepsRegistered(pending: seq<string>, j: nat, emitted: set<string>,
                                               files: map<string, File>)
    requires forall i :: 0 <= i < |pending| ==> pending[i] in files
    ensures forall i :: 0 <= i < |PassFrom(pending, j, emitted, files)| ==>
      PassFrom(pending, j, emitted, files)[i] in files
    decreases |pending| - j
  {
    if j < |pending| {
      if Ready(pending[j], emitted, files) {
        PassKeepsRegistered(RemoveAt(pending, j), j + 1, emitted + {pending[j]}, files);
      } else {
        PassKeepsRegistered(pending, j + 1, emitted, files);
      }
    }
  }

  /** A pass never lengthens the worklist, and one that leaves its length unchanged met no
      ready path from `j` on. */
  lemma {:induction false} PassShrinks(pending: seq<string>, j: nat, emitted: set<string>,
                                       files: map<string, File>)
    requires forall i :: 0 <= i < |pending| ==> pending[i] in files
    ensures |PassFrom(pending, j, emitted, files)| <= |pending|
    ensures |PassFrom(pending, j, emitted, files)| == |pending| ==>
      forall i :: j <= i < |pending| ==> !Ready(pending[i], emitted, files)
    decreases |pending| - j
  {
    if j < |pending| {
      if Ready(pending[j], emitted, files) {
        PassShrinks(RemoveAt(pending, j), j + 1, emitted + {pending[j]}, files);
      } else {
        PassShrinks(pending, j + 1, emitted, files);
      }
    }
  }

  /** A pass in which no file is ready leaves the worklist as it was, so the original's
      `while pathes` repeats it forever when a fallback is missing or cyclic. */
  lemma {:induction false} StuckPassLeavesWorklist(pending: seq<string>, j: nat,
                                                   emitted: set<string>, files: map<string, File>)
    requires forall i :: 0 <= i < |pending| ==> pending[i] in files
    requires forall i :: 0 <= i < |pending| ==> !Ready(pending[i], emitted, files)
    ensures PassFrom(pending, j, emitted, files) == pending
    decreases |pending| - j
  {
    if j < |pending| {
      StuckPassLeavesWorklist(pending, j + 1, emitted, files);
    }
  }

  /** The registered paths that are off the worklist `pending`: those already emitted. */
  function Done(pending: seq<string>, files: map<string, File>): (r: set<string>)
    ensures forall p :: p in r <==> p in files && p !in pending
  {
    set p | p in files && p !in pending
  }

  /** The order in which `make_manifest`'s passes emit the files on the worklist `pending`:
      each pass's emissions in turn, until the worklist is empty or a pass emits nothing.
      Only paths from the worklist are emitted, each at most as often as it is on it. */
  function EmissionOrder(pending: seq<string>, files: map<string, File>): (r: seq<string>)
    requires forall i :: 0 <= i < |pending| ==> pending[i] in files
    ensures multiset(r) <= multiset(pending)
    ensures forall i :: 0 <= i < |r| ==> r[i] in files
    decreases |pending|
  {
    var emitted := Done(pending, files);
    PassShrinks(pending, 0, emitted, files);
    PassConserves(pending, 0, emitted, files);
    PassKeepsRegistered(pending, 0, emitted, files);
    var rest := PassFrom(pending, 0, emitted, files);
    if |rest| == |pending| then []
    else PassEmitted(pending, 0, emitted, files) + EmissionOrder(rest, files)
  }

  /** The worklist `stuck` cannot shrink: every file on it has a fallback that is on it
      too or that is not registered. */
  predicate StuckPaths(stuck: seq<string>, files: map<string, File>)
    requires forall i :: 0 <= i < |stuck| ==> stuck[i] in files
  {
    forall i :: 0 <= i < |stuck| ==>
      files[stuck[i]].fallback.Some? &&
      (files[stuck[i]].fallback.value in stuck || files[stuck[i]].fallback.value !in files)
  }

  /** Fallbacks are registered and acyclic: `rank` strictly decreases along each one. */
  predicate FallbacksRanked(files: map<string, File>, rank: map<string, nat>) {
    forall p :: p in files ==>
      p in rank &&
      (files[p].fallback.Some? ==>
         files[p].fallback.value in files && files[p].fallback.value in rank &&
         rank[files[p].fallback.value] < rank[p])
  }

  /** An index of `s` whose rank is least. */
  lemma {:induction false} LeastRanked(s: seq<string>, rank: map<string, nat>) returns (m: nat)
    requires s != [] && forall i :: 0 <= i < |s| ==> s[i] in rank
    ensures m < |s| && forall i :: 0 <= i < |s| ==> rank[s[m]] <= rank[s[i]]
  {
    if |s| == 1 {
      m := 0;
    } else {
      var m' := LeastRanked(s[1..], rank);
      assert forall i :: 1 <= i < |s| ==> s[i] == s[1..][i - 1];
      m := if rank[s[0]] <= rank[s[m' + 1]] then 0 else m' + 1;
    }
  }

  /** With registered, acyclic fallbacks the worklist never gets stuck: the file of least
      rank on it is always ready. */
  lemma RankedFallbacksNeverStick(files: map<string, File>, rank: map<string, nat>,
                                  stuck: seq<string>)
    requires FallbacksRanked(files, rank)
    requires stuck != [] && forall i :: 0 <= i < |stuck| ==> stuck[i] in files
    ensures !StuckPaths(stuck, files)
  {
    var m := LeastRanked(stuck, rank);
    var p := stuck[m];
    if files[p].fallback.Some? {
      var f := files[p].fallback.value;
      assert rank[f] < rank[p];
      assert f !in stuck;
    }
  }

  /** The item element `make_item` builds, with the `fallback` attribute when set. */
  function ItemElement(item: Item): (e: Node)
    ensures IsElem(e, "item") && e.children == []
    ensures e.attrs.Keys == if item.fallback.Some? then {"href", "media-type", "id", "fallback"}
                            else {"href", "media-type", "id"}
    ensures e.attrs["href"] == item.href && e.attrs["media-type"] == item.mediaType
    ensures e.attrs["id"] == item.id
    ensures item.fallback.Some? ==> e.attrs["fallback"] == item.fallback.value
  {
    var attrs := map["href" := item.href, "media-type" := item.mediaType, "id" := item.id];
    Elem("item", if item.fallback.Some? then attrs["fallback" := item.fallback.value] else attrs, [])
  }

  /** The `manifest` element holding `items` in order. */
  function ManifestElement(items: seq<Item>): (e: Node)
    ensures IsElem(e, "manifest") && e.attrs == map[] && |e.children| == |items|
    ensures forall k :: 0 <= k < |items| ==> e.children[k] == ItemElement(items[k])
  {
    Elem("manifest", map[], seq(|items|, k requires 0 <= k < |items| => ItemElement(items[k])))
  }

  /** The state after emitting `item` for the path at index `j` of the worklist. */
  function Emit(st: State, j: nat, item: Item): State
    requires j < |st.pending|
  {
    State(RemoveAt(st.pending, j), st.items + [item], st.ids + [item.id],
          st.itemDict[item.href := item])
  }

  /** The `fallback` attribute the corrected line 200 gives: the id of the item emitted for
      the fallback path. */
  function FallbackId(fallback: Option<string>, itemDict: map<string, Item>): Option<string>
    requires fallback.Some? ==> fallback.value in itemDict
  {
    if fallback.Some? then Some(itemDict[fallback.value].id) else None
  }

  /** Appending an item keeps what was said about the items before it. */
  lemma RegisteredItemAppend(files: map<string, File>, table: map<string, string>,
                             items: seq<Item>, item: Item, k: nat)
    requires k < |items| && RegisteredItem(files, table, items, k)
    ensures RegisteredItem(files, table, items + [item], k)
  {
    var items' := items + [item];
    assert items'[..k] == items[..k];
    match files[items[k].href].fallback
    case None =>
    case Some(f) =>
      var m :| 0 <= m < k && items[m].href == f && items[k].fallback == Some(items[m].id);
      assert items'[m] == items[m];
  }

  /** Emitting the path at index `j` keeps the worklist and `item_dict` apart. */
  lemma EmitKeepsSplit(files: map<string, File>, st: State, j: nat, item: Item)
    requires WorklistSplit(files, st)
    requires j < |st.pending| && item.href == st.pending[j]
    ensures WorklistSplit(files, Emit(st, j, item))
  {
    RemoveAtDistinct(st.pending, j);
  }

  /** Removing the element at `j` from a list without repeats removes exactly that path. */
  lemma RemoveAtDistinct(s: seq<string>, j: nat)
    requires Distinct(s) && j < |s|
    ensures Distinct(RemoveAt(s, j))
    ensures forall p :: p in RemoveAt(s, j) <==> p in s && p != s[j]
  {
    var r := RemoveAt(s, j);
    forall p | p in s && p != s[j]
      ensures p in r
    {
      var i :| 0 <= i < |s| && s[i] == p;
      if i < j {
        assert r[i] == p;
      } else {
        assert r[i - 1] == p;
      }
    }
  }

  /** The new item of an emission is the item of its registered file. */
  lemma EmittedItemRegistered(files: map<string, File>, table: map<string, string>,
                              st: State, item: Item)
    requires ItemsEmitted(files, table, st)
    requires item.href in files
    requires MediaType(item.href, files[item.href], table) == Ok(item.mediaType)
    requires Identify(item.href).Some? && ChosenId(Identify(item.href).value, st.ids, item.id)
    requires files[item.href].fallback.Some? ==> files[item.href].fallback.value in st.itemDict
    requires item.fallback == FallbackId(files[item.href].fallback, st.itemDict)
    ensures RegisteredItem(files, table, st.items + [item], |st.items|)
  {
    var items' := st.items + [item];
    var n := |st.items|;
    assert items'[..n] == st.items;
    match files[item.href].fallback
    case None =>
    case Some(f) =>
      var m :| 0 <= m < n && st.items[m].href == f;
      assert items'[m] == st.items[m];
  }

  /** Appending the item of a path not yet in `item_dict`, and entering it there, keeps
      the two in step. */
  lemma IndexedAppend(items: seq<Item>, itemDict: map<string, Item>, item: Item)
    requires Indexed(items, itemDict) && item.href !in itemDict
    ensures Indexed(items + [item], itemDict[item.href := item])
  {
    var items' := items + [item];
    var dict' := itemDict[item.href := item];
    var n := |items|;
    forall i, k | 0 <= i < k < |items'|
      ensures items'[i].href != items'[k].href
    {
      if k == n {
        assert items[i].href in itemDict;
      }
    }
    forall k | 0 <= k < |items'|
      ensures items'[k].href in dict' && dict'[items'[k].href] == items'[k]
    {
      if k < n {
        assert items[k].href in itemDict;
      }
    }
    forall p | p in dict'
      ensures exists k :: 0 <= k < |items'| && items'[k].href == p
    {
      if p == item.href {
        assert items'[n].href == p;
      } else {
        var k :| 0 <= k < n && items[k].href == p;
        assert items'[k].href == p;
      }
    }
  }

  /** Emitting a path not yet in `item_dict`, whose item was made by `make_item`, keeps
      what is said about the emitted items. */
  lemma EmitKeepsItems(files: map<string, File>, table: map<string, string>,
                       st: State, j: nat, item: Item)
    requires ItemsEmitted(files, table, st)
    requires j < |st.pending| && item.href !in st.itemDict
    requires RegisteredItem(files, table, st.items + [item], |st.items|)
    ensures ItemsEmitted(files, table, Emit(st, j, item))
  {
    var st' := Emit(st, j, item);
    IdsOfAppend(st.items, item);
    forall k | 0 <= k < |st.items|
      ensures RegisteredItem(files, table, st'.items, k)
    {
      RegisteredItemAppend(files, table, st.items, item, k);
    }
    IndexedAppend(st.items, st.itemDict, item);
  }

  /** Emitting a ready path whose item was made by `make_item` keeps the loop invariant. */
  lemma EmitKeepsBuilding(paths: seq<string>, files: map<string, File>,
                          table: map<string, string>, st: State, j: nat, item: Item)
    requires Building(paths, files, table, st)
    requires j < |st.pending| && item.href == st.pending[j]
    requires Ready(item.href, st.itemDict.Keys, files)
    requires MediaType(item.href, files[item.href], table) == Ok(item.mediaType)
    requires Identify(item.href).Some? && ChosenId(Identify(item.href).value, st.ids, item.id)
    requires item.fallback == FallbackId(files[item.href].fallback, st.itemDict)
    ensures Building(paths, files, table, Emit(st, j, item))
  {
    EmitKeepsSplit(files, st, j, item);
    EmittedItemRegistered(files, table, st, item);
    EmitKeepsItems(files, table, st, j, item);
  }

  /** Emitting the path at index `j` advances the pass as `PassFrom` does. */
  lemma EmitAdvancesPass(files: map<string, File>, st: State, j: nat, item: Item)
    requires forall i :: 0 <= i < |st.pending| ==> st.pending[i] in files
    requires j < |st.pending| && item.href == st.pending[j]
    requires Ready(item.href, st.itemDict.Keys, files)
    ensures forall i :: 0 <= i < |Emit(st, j, item).pending| ==> Emit(st, j, item).pending[i] in files
    ensures PassFrom(Emit(st, j, item).pending, j + 1, Emit(st, j, item).itemDict.Keys, files)
         == PassFrom(st.pending, j, st.itemDict.Keys, files)
    ensures Hrefs(Emit(st, j, item).items)
          + PassEmitted(Emit(st, j, item).pending, j + 1, Emit(st, j, item).itemDict.Keys, files)
         == Hrefs(st.items) + PassEmitted(st.pending, j, st.itemDict.Keys, files)
  {
    var next := Emit(st, j, item);
    assert next.pending == RemoveAt(st.pending, j);
    assert next.itemDict.Keys == st.itemDict.Keys + {item.href};
    assert PassEmitted(st.pending, j, st.itemDict.Keys, files)
        == [item.href] + PassEmitted(next.pending, j + 1, next.itemDict.Keys, files);
    HrefsAppend(st.items, item);
  }

  /** Lines 199-203 or 206-210 for the ready path at index `j`: `make_item`, the
      `fallback` attribute, `item_dict` and the children of the manifest. */
  method EmitPath(paths: seq<string>, files: map<string, File>, table: map<string, string>,
                  st: State, j: nat)
    returns (r: Result<Item, Error>)
    requires Building(paths, files, table, st) && j < |st.pending|
    requires Ready(st.pending[j], st.itemDict.Keys, files)
    ensures r.Ok? ==> r.value.href == st.pending[j] && Building(paths, files, table, Emit(st, j, r.value))
    ensures r.Err? ==> ItemError(files, table, r.error)
    ensures r.Err? ==> MakeItemError(st.pending[j], files[st.pending[j]], table) == Some(r.error)
  {
    var path := st.pending[j];
    var file := files[path];
    var made := MakeItem(path, file, table, st.ids);
    if made.Err? {
      return Err(made.error);
    }
    // line 200 reads item_dict[_path], which is never present yet; the item of the
    // fallback target is meant
    var item := made.value.(fallback := FallbackId(file.fallback, st.itemDict));
    EmitKeepsBuilding(paths, files, table, st, j, item);
    return Ok(item);
  }

  /** The body of `for _path in pathes` (lines 197-210) for the path at index `j`: emit
      it when it is ready, otherwise leave the state alone. */
  method VisitPath(paths: seq<string>, files: map<string, File>, table: map<string, string>,
                   st: State, j: nat)
    returns (r: Result<State, Error>)
    requires Building(paths, files, table, st) && j < |st.pending|
    ensures r.Ok? ==> Building(paths, files, table, r.value)
    ensures r.Ok? ==>
      PassFrom(r.value.pending, j + 1, r.value.itemDict.Keys, files)
        == PassFrom(st.pending, j, st.itemDict.Keys, files)
    ensures r.Ok? ==>
      if Ready(st.pending[j], st.itemDict.Keys, files) then |r.value.pending| == |st.pending| - 1
      else r.value == st
    ensures r.Ok? && Ready(st.pending[j], st.itemDict.Keys, files) ==>
      exists item: Item :: item.href == st.pending[j] && r.value == Emit(st, j, item)
    ensures r.Ok? ==> |st.items| <= |r.value.items| && r.value.items[..|st.items|] == st.items
    ensures r.Ok? ==>
      Hrefs(r.value.items) + PassEmitted(r.value.pending, j + 1, r.value.itemDict.Keys, files)
        == Hrefs(st.items) + PassEmitted(st.pending, j, st.itemDict.Keys, files)
    ensures r.Err? ==> ItemError(files, table, r.error)
    ensures r.Err? ==> Ready(st.pending[j], st.itemDict.Keys, files)
    ensures r.Err? ==> MakeItemError(st.pending[j], files[st.pending[j]], table) == Some(r.error)
    ensures r.Err? ==>
      FirstItemError(PassEmitted(st.pending, j, st.itemDict.Keys, files), files, table) == Some(r.error)
  {
    var path := st.pending[j];
    if files[path].fallback.None? || files[path].fallback.value in st.itemDict {
      var made := EmitPath(paths, files, table, st, j);
      if made.Err? {
        assert PassEmitted(st.pending, j, st.itemDict.Keys, files)[0] == path;
        return Err(made.error);
      }
      EmitAdvancesPass(files, st, j, made.value);
      return Ok(Emit(st, j, made.value));
    }
    return Ok(st);
  }

  lemma PrefixesCompose(a: seq<Item>, b: seq<Item>, c: seq<Item>)
    requires |b| <= |a| && a[..|b|] == b
    requires |c| <= |b| && b[..|c|] == c
    ensures a[..|c|] == c
  {
    assert a[..|c|] == a[..|b|][..|c|];
  }

  /** Every emitted item was made without error. */
  lemma BuiltItemsSucceed(files: map<string, File>, table: map<string, string>, st: State)
    requires ItemsEmitted(files, table, st)
    ensures forall k :: 0 <= k < |st.items| ==>
      st.items[k].href in files && MakeItemError(st.items[k].href, files[st.items[k].href], table).None?
  {
    forall k | 0 <= k < |st.items|
      ensures st.items[k].href in files &&
        MakeItemError(st.items[k].href, files[st.items[k].href], table).None?
    {
      assert RegisteredItem(files, table, st.items, k);
    }
  }

  /** After items made without error, the first error of what follows is the first error of
      the whole: `whole` continues the hrefs of `items0` exactly as `rest` continues those of
      `items`, which extends `items0`. */
  lemma CleanItemsThenError(items0: seq<Item>, items: seq<Item>, rest: seq<string>,
                            whole: seq<string>, files: map<string, File>, table: map<string, string>)
    requires |items0| <= |items| && items[..|items0|] == items0
    requires Hrefs(items) + rest == Hrefs(items0) + whole
    requires forall k :: 0 <= k < |items| ==>
      items[k].href in files && MakeItemError(items[k].href, files[items[k].href], table).None?
    requires forall i :: 0 <= i < |rest| ==> rest[i] in files
    requires forall i :: 0 <= i < |whole| ==> whole[i] in files
    ensures FirstItemError(whole, files, table) == FirstItemError(rest, files, table)
  {
    var done := HrefsCancel(items0, items, rest, whole);
    assert FirstItemError(done, files, table) == None;
    FirstItemErrorAppend(done, rest, files, table);
  }

  /** When `items` extends `items0`, the hrefs that follow `items0`'s in `items + rest` are the
      new items' hrefs, then `rest`. */
  lemma HrefsCancel(items0: seq<Item>, items: seq<Item>, rest: seq<string>, whole: seq<string>)
    returns (done: seq<string>)
    requires |items0| <= |items| && items[..|items0|] == items0
    requires Hrefs(items) + rest == Hrefs(items0) + whole
    ensures |done| == |items| - |items0|
    ensures forall i :: 0 <= i < |done| ==> done[i] == items[|items0| + i].href
    ensures whole == done + rest
  {
    var n := |items0|;
    done := Hrefs(items)[n..];
    assert Hrefs(items)[..n] == Hrefs(items0);
    assert Hrefs(items) == Hrefs(items0) + done;
    assert whole == (Hrefs(items0) + whole)[n..];
  }

  /** The pass that started in `st0` has reached index `j` in state `st`: what is left of
      it, and the hrefs it has appended, add up to the whole pass. */
  ghost predicate PassSoFar(files: map<string, File>, st0: State, st: State, j: nat)
    requires forall i :: 0 <= i < |st0.pending| ==> st0.pending[i] in files
    requires forall i :: 0 <= i < |st.pending| ==> st.pending[i] in files
  {
    && j <= |st.pending| + 1
    && PassFrom(st.pending, j, st.itemDict.Keys, files)
       == PassFrom(st0.pending, 0, st0.itemDict.Keys, files)
    && |st0.items| <= |st.items| && st.items[..|st0.items|] == st0.items
    && Hrefs(st.items) + PassEmitted(st.pending, j, st.itemDict.Keys, files)
       == Hrefs(st0.items) + PassEmitted(st0.pending, 0, st0.itemDict.Keys, files)
  }

  /** The pass invariant carries over one step of the `for` loop. */
  lemma PassSoFarStep(files: map<string, File>, st0: State, st: State, next: State, j: nat)
    requires forall i :: 0 <= i < |st0.pending| ==> st0.pending[i] in files
    requires forall i :: 0 <= i < |st.pending| ==> st.pending[i] in files
    requires forall i :: 0 <= i < |next.pending| ==> next.pending[i] in files
    requires PassSoFar(files, st0, st, j)
    requires j < |st.pending| <= |next.pending| + 1
    requires PassFrom(next.pending, j + 1, next.itemDict.Keys, files)
          == PassFrom(st.pending, j, st.itemDict.Keys, files)
    requires |st.items| <= |next.items| && next.items[..|st.items|] == st.items
    requires Hrefs(next.items) + PassEmitted(next.pending, j + 1, next.itemDict.Keys, files)
          == Hrefs(st.items) + PassEmitted(st.pending, j, st.itemDict.Keys, files)
    ensures PassSoFar(files, st0, next, j + 1)
  {
    PrefixesCompose(next.items, st.items, st0.items);
  }

  /** An error met at index `j`, after items that were all made without error, is the first
      error of the whole pass. */
  lemma PassErrorIsPassFirst(files: map<string, File>, table: map<string, string>,
                             st0: State, st: State, j: nat, e: Error)
    requires WorklistSplit(files, st0) && WorklistSplit(files, st) && ItemsEmitted(files, table, st)
    requires PassSoFar(files, st0, st, j)
    requires FirstItemError(PassEmitted(st.pending, j, st.itemDict.Keys, files), files, table) == Some(e)
    ensures FirstItemError(PassEmitted(st0.pending, 0, st0.itemDict.Keys, files), files, table) == Some(e)
  {
    BuiltItemsSucceed(files, table, st);
    CleanItemsThenError(st0.items, st.items, PassEmitted(st.pending, j, st.itemDict.Keys, files),
                        PassEmitted(st0.pending, 0, st0.itemDict.Keys, files), files, table);
  }

  /** One pass of `for _path in pathes` (lines 196-210): it computes `PassFrom`. */
  method RunPass(paths: seq<string>, files: map<string, File>, table: map<string, string>,
                 st0: State)
    returns (r: Result<State, Error>)
    requires Building(paths, files, table, st0)
    ensures r.Ok? ==> Building(paths, files, table, r.value)
    ensures r.Ok? ==> r.value.pending == PassFrom(st0.pending, 0, st0.itemDict.Keys, files)
    ensures r.Ok? ==> |st0.items| <= |r.value.items| && r.value.items[..|st0.items|] == st0.items
    ensures r.Ok? ==>
      Hrefs(r.value.items) == Hrefs(st0.items) + PassEmitted(st0.pending, 0, st0.itemDict.Keys, files)
    ensures r.Err? ==> ItemError(files, table, r.error)
    ensures r.Err? ==>
      FirstItemError(PassEmitted(st0.pending, 0, st0.itemDict.Keys, files), files, table) == Some(r.error)
  {
    var st := st0;
    var j := 0;
    while j < |st.pending|
      invariant Building(paths, files, table, st)
      invariant PassSoFar(files, st0, st, j)
      decreases |st.pending| + 1 - j
    {
      var next := VisitPath(paths, files, table, st, j);
      if next.Err? {
        PassErrorIsPassFirst(files, table, st0, st, j, next.error);
        return Err(next.error);
      }
      PassSoFarStep(files, st0, st, next.value, j);
      st := next.value;
      j := j + 1;
    }
    return Ok(st);
  }

  /** An error `make_item` raises for some file of `files`. */
  ghost predicate ItemError(files: map<string, File>, table: map<string, string>, e: Error) {
    match e
    case EmptyPath => "" in files
    case UnknownExtension(p) => p in files && MediaType(p, files[p], table).Err?
    case UnresolvedFallbacks(_) => false
  }

  /** What `_make_manifest_element` returns on success: each registered path yields exactly
      one item, after the item of its fallback; the temporary files come after, in their
      own order and without fallback. */
  ghost predicate ManifestOk(paths: seq<string>, files: map<string, File>,
                             tempPaths: seq<string>, tempFiles: map<string, File>,
                             table: map<string, string>, items: seq<Item>)
  {
    && |items| == |paths| + |tempPaths|
    && (forall p :: p in files ==> exists k :: 0 <= k < |paths| && items[k].href == p)
    && (forall i, j :: 0 <= i < j < |paths| ==> items[i].href != items[j].href)
    && RegisteredPrefix(files, table, items, |paths|)
    && TempItems(tempPaths, tempFiles, table, items, |paths|)
  }

  /** Why `_make_manifest_element` fails. */
  ghost predicate ManifestError(files: map<string, File>, tempFiles: map<string, File>,
                                table: map<string, string>, e: Error)
  {
    match e
    case UnresolvedFallbacks(stuck) =>
      && stuck != []
      && (forall i :: 0 <= i < |stuck| ==> stuck[i] in files)
      && StuckPaths(stuck, files)
    case _ => ItemError(files, table, e) || ItemError(tempFiles, table, e)
  }

  /** The stuck list reported for `paths` is the rest of the worklist: without repeats, it
      holds exactly the registered paths that `EmissionOrder` never emits, and there is at
      least one. */
  ghost predicate StuckIsRest(paths: seq<string>, files: map<string, File>, stuck: seq<string>)
    requires forall i :: 0 <= i < |paths| ==> paths[i] in files
  {
    && |EmissionOrder(paths, files)| < |paths|
    && Distinct(stuck)
    && forall p :: p in stuck <==> p in files && p !in EmissionOrder(paths, files)
  }

  /** Lines 195-210: the registered files through the fallback worklist. A pass that
      emits nothing ends the build with the stuck worklist (the original loops forever
      there). */
  method EmitRegistered(paths: seq<string>, files: map<string, File>, table: map<string, string>)
    returns (r: Result<State, Error>)
    requires Registry(paths, files)
    ensures r.Ok? ==> Building(paths, files, table, r.value) && r.value.pending == []
    ensures r.Ok? ==> Hrefs(r.value.items) == EmissionOrder(paths, files)
    ensures r.Err? ==> ManifestError(files, map[], table, r.error)
    ensures r.Err? ==> FirstItemError(EmissionOrder(paths, files), files, table)
                       == if r.error.UnresolvedFallbacks? then None else Some(r.error)
    ensures r.Err? && r.error.UnresolvedFallbacks? ==> StuckIsRest(paths, files, r.error.stuck)
  {
    var st := State(paths, [], [], map[]);
    while st.pending != []
      invariant Building(paths, files, table, st)
      invariant Hrefs(st.items) + EmissionOrder(st.pending, files) == EmissionOrder(paths, files)
      decreases |st.pending|
    {
      var next := RunPass(paths, files, table, st);
      if next.Err? {
        BuiltItemsSucceed(files, table, st);
        PassErrorInOrder(files, table, st, next.error);
        return Err(next.error);
      }
      PassShrinks(st.pending, 0, st.itemDict.Keys, files);
      if |next.value.pending| == |st.pending| {
        StuckPassEnds(paths, files, table, st);
        return Err(UnresolvedFallbacks(st.pending));
      }
      PassKeepsOrder(files, st, next.value);
      st := next.value;
    }
    return Ok(st);
  }

  /** A pass that leaves a non-empty worklist as long as it was ends the build with
      `UnresolvedFallbacks` of that worklist; the passes emit nothing more, so no `make_item`
      error comes first. */
  lemma StuckPassError(files: map<string, File>, table: map<string, string>, st: State)
    requires WorklistSplit(files, st) && st.pending != []
    requires |PassFrom(st.pending, 0, st.itemDict.Keys, files)| == |st.pending|
    requires forall k :: 0 <= k < |st.items| ==>
      st.items[k].href in files && MakeItemError(st.items[k].href, files[st.items[k].href], table).None?
    ensures ManifestError(files, map[], table, UnresolvedFallbacks(st.pending))
    ensures EmissionOrder(st.pending, files) == []
    ensures FirstItemError(Hrefs(st.items) + EmissionOrder(st.pending, files), files, table) == None
  {
    PassShrinks(st.pending, 0, st.itemDict.Keys, files);
    KeysAreDone(files, st);
    assert Hrefs(st.items) + EmissionOrder(st.pending, files) == Hrefs(st.items);
  }

  /** The stuck exit of the worklist loop: the error is `UnresolvedFallbacks` of the rest of
      the registered paths, and no path of `EmissionOrder` failed before it. */
  lemma StuckPassEnds(paths: seq<string>, files: map<string, File>,
                      table: map<string, string>, st: State)
    requires Building(paths, files, table, st) && st.pending != []
    requires |PassFrom(st.pending, 0, st.itemDict.Keys, files)| == |st.pending|
    requires Hrefs(st.items) + EmissionOrder(st.pending, files) == EmissionOrder(paths, files)
    ensures ManifestError(files, map[], table, UnresolvedFallbacks(st.pending))
    ensures FirstItemError(EmissionOrder(paths, files), files, table) == None
    ensures StuckIsRest(paths, files, st.pending)
  {
    BuiltItemsSucceed(files, table, st);
    StuckPassError(files, table, st);
    StuckWorklistIsRest(paths, files, table, st);
  }

  /** When the passes stick, the worklist left is the rest of the registered paths, the ones
      `EmissionOrder` never reaches. */
  lemma StuckWorklistIsRest(paths: seq<string>, files: map<string, File>,
                            table: map<string, string>, st: State)
    requires Building(paths, files, table, st) && st.pending != []
    requires Hrefs(st.items) + EmissionOrder(st.pending, files) == EmissionOrder(paths, files)
    requires EmissionOrder(st.pending, files) == []
    ensures StuckIsRest(paths, files, st.pending)
  {
    assert EmissionOrder(paths, files) == Hrefs(st.items);
    WorklistIsRest(files, st);
  }

  /** The worklist holds exactly the registered paths that have no item yet. */
  lemma WorklistIsRest(files: map<string, File>, st: State)
    requires WorklistSplit(files, st) && Indexed(st.items, st.itemDict)
    ensures forall p :: p in st.pending <==> p in files && p !in Hrefs(st.items)
  {
    forall p
      ensures p in st.pending <==> p in files && p !in Hrefs(st.items)
    {
      if p in st.pending {
        assert p !in st.itemDict;
        forall k | 0 <= k < |st.items|
          ensures Hrefs(st.items)[k] != p
        {
          assert st.items[k].href in st.itemDict;
        }
      } else if p in files {
        assert p in st.itemDict;
        var k :| 0 <= k < |st.items| && st.items[k].href == p;
        assert Hrefs(st.items)[k] == p;
      }
    }
  }

  /** The paths of the emitted items were made without error. */
  lemma EmittedWithoutError(files: map<string, File>, table: map<string, string>, st: State)
    requires ItemsEmitted(files, table, st)
    ensures forall k :: 0 <= k < |st.items| ==> st.items[k].href in files
    ensures FirstItemError(Hrefs(st.items), files, table) == None
  {
    BuiltItemsSucceed(files, table, st);
  }

  /** A `make_item` error in a pass, after items made without error, is the first error of
      the whole emission order. */
  lemma PassErrorInOrder(files: map<string, File>, table: map<string, string>, st: State, e: Error)
    requires WorklistSplit(files, st)
    requires forall k :: 0 <= k < |st.items| ==>
      st.items[k].href in files && MakeItemError(st.items[k].href, files[st.items[k].href], table).None?
    requires FirstItemError(PassEmitted(st.pending, 0, st.itemDict.Keys, files), files, table) == Some(e)
    ensures FirstItemError(Hrefs(st.items) + EmissionOrder(st.pending, files), files, table) == Some(e)
  {
    KeysAreDone(files, st);
    PassErrorLeads(files, table, st.pending, e);
    assert FirstItemError(Hrefs(st.items), files, table) == None;
    FirstItemErrorAppend(Hrefs(st.items), EmissionOrder(st.pending, files), files, table);
  }

  /** The first error of a pass is the first error of the whole emission order, which
      starts with that pass. */
  lemma PassErrorLeads(files: map<string, File>, table: map<string, string>,
                       pending: seq<string>, e: Error)
    requires forall i :: 0 <= i < |pending| ==> pending[i] in files
    requires FirstItemError(PassEmitted(pending, 0, Done(pending, files), files), files, table) == Some(e)
    ensures FirstItemError(EmissionOrder(pending, files), files, table) == Some(e)
  {
    var emitted := Done(pending, files);
    var pass := PassEmitted(pending, 0, emitted, files);
    PassConserves(pending, 0, emitted, files);
    var rest := PassFrom(pending, 0, emitted, files);
    assert pass != [];
    EmissionOrderStep(pending, files);
    FirstItemErrorAppend(pass, EmissionOrder(rest, files), files, table);
  }

  /** A pass that shrinks the worklist appends to the manifest exactly the next stretch of
      `EmissionOrder`. */
  lemma PassKeepsOrder(files: map<string, File>, st: State, next: State)
    requires WorklistSplit(files, st)
    requires next.pending == PassFrom(st.pending, 0, st.itemDict.Keys, files)
    requires Hrefs(next.items) == Hrefs(st.items) + PassEmitted(st.pending, 0, st.itemDict.Keys, files)
    requires |next.pending| < |st.pending|
    ensures forall i :: 0 <= i < |next.pending| ==> next.pending[i] in files
    ensures Hrefs(next.items) + EmissionOrder(next.pending, files)
         == Hrefs(st.items) + EmissionOrder(st.pending, files)
  {
    KeysAreDone(files, st);
    EmissionOrderShift(files, st.pending, Hrefs(st.items), next.pending, Hrefs(next.items));
  }

  /** A shrinking pass moves its emissions from the emission order of the worklist to the
      hrefs emitted so far. */
  lemma EmissionOrderShift(files: map<string, File>, pending: seq<string>, done: seq<string>,
                           rest: seq<string>, done': seq<string>)
    requires forall i :: 0 <= i < |pending| ==> pending[i] in files
    requires rest == PassFrom(pending, 0, Done(pending, files), files)
    requires done' == done + PassEmitted(pending, 0, Done(pending, files), files)
    requires |rest| < |pending|
    ensures forall i :: 0 <= i < |rest| ==> rest[i] in files
    ensures done' + EmissionOrder(rest, files) == done + EmissionOrder(pending, files)
  {
    EmissionOrderStep(pending, files);
    AppendAssociates(done, PassEmitted(pending, 0, Done(pending, files), files), EmissionOrder(rest, files));
  }

  lemma AppendAssociates(a: seq<string>, b: seq<string>, c: seq<string>)
    ensures (a + b) + c == a + (b + c)
  {
  }

  /** While the worklist and `item_dict` split the registered files, the paths already
      emitted are exactly the registered paths not on the worklist. */
  lemma KeysAreDone(files: map<string, File>, st: State)
    requires WorklistSplit(files, st)
    ensures st.itemDict.Keys == Done(st.pending, files)
  {
  }

  /** Unfolding `EmissionOrder` by one pass that shrinks the worklist. */
  lemma EmissionOrderStep(pending: seq<string>, files: map<string, File>)
    requires forall i :: 0 <= i < |pending| ==> pending[i] in files
    requires |PassFrom(pending, 0, Done(pending, files), files)| < |pending|
    ensures forall i :: 0 <= i < |PassFrom(pending, 0, Done(pending, files), files)| ==>
      PassFrom(pending, 0, Done(pending, files), files)[i] in files
    ensures EmissionOrder(pending, files)
         == PassEmitted(pending, 0, Done(pending, files), files)
          + EmissionOrder(PassFrom(pending, 0, Done(pending, files), files), files)
  {
    PassKeepsRegistered(pending, 0, Done(pending, files), files);
  }

  lemma {:induction false} SubMultisetOfSameSize(a: seq<string>, b: seq<string>)
    requires multiset(a) <= multiset(b) && |a| == |b|
    ensures multiset(a) == multiset(b)
  {
    var rest := multiset(b) - multiset(a);
    assert multiset(b) == multiset(a) + rest;
    assert |rest| == 0;
  }

  /** A state with an empty worklist has emitted every registered path once. */
  lemma EmptyWorklistEmittedAll(paths: seq<string>, files: map<string, File>,
                                table: map<string, string>, st: State)
    requires Building(paths, files, table, st) && st.pending == []
    ensures |st.items| == |paths|
    ensures forall p :: p in files ==> exists k :: 0 <= k < |paths| && st.items[k].href == p
  {
    forall p | p in files
      ensures exists k :: 0 <= k < |paths| && st.items[k].href == p
    {
      assert p in st.itemDict;
    }
  }

  /** Items `n` onwards are those of the temporary files, in their order. */
  ghost predicate TempItems(tempPaths: seq<string>, tempFiles: map<string, File>,
                            table: map<string, string>, items: seq<Item>, n: nat)
  {
    forall k :: n <= k < |items| ==> TempItem(tempPaths, tempFiles, table, items, n, k)
  }

  /** Item `k` is the item of temporary file `k - n`, without a fallback. */
  ghost predicate TempItem(tempPaths: seq<string>, tempFiles: map<string, File>,
                           table: map<string, string>, items: seq<Item>, n: nat, k: nat)
    requires n <= k < |items|
  {
    && k - n < |tempPaths|
    && items[k].href == tempPaths[k - n]
    && items[k].href in tempFiles
    && MadeFrom(tempFiles[items[k].href], table, items, k)
    && items[k].fallback == None
  }

  /** The first `n` items are those of registered files. */
  ghost predicate RegisteredPrefix(files: map<string, File>, table: map<string, string>,
                                   items: seq<Item>, n: nat)
  {
    n <= |items| && forall k :: 0 <= k < n ==> RegisteredItem(files, table, items, k)
  }

  /** Appending an item keeps the registered prefix. */
  lemma RegisteredPrefixAppend(files: map<string, File>, table: map<string, string>,
                               items: seq<Item>, n: nat, item: Item)
    requires RegisteredPrefix(files, table, items, n)
    ensures RegisteredPrefix(files, table, items + [item], n)
  {
    forall k | 0 <= k < n
      ensures RegisteredItem(files, table, items + [item], k)
    {
      RegisteredItemAppend(files, table, items, item, k);
    }
  }

  /** Appending the item `make_item` made for the next temporary file. */
  lemma TempItemsAppend(tempPaths: seq<string>, tempFiles: map<string, File>,
                        table: map<string, string>, items: seq<Item>, n: nat, item: Item)
    requires TempItems(tempPaths, tempFiles, table, items, n) && n <= |items|
    requires |items| - n < |tempPaths| && item.href == tempPaths[|items| - n]
    requires item.href in tempFiles && item.fallback == None
    requires MediaType(item.href, tempFiles[item.href], table) == Ok(item.mediaType)
    requires Identify(item.href).Some?
    requires ChosenId(Identify(item.href).value, IdsOf(items), item.id)
    ensures TempItems(tempPaths, tempFiles, table, items + [item], n)
  {
    forall k | n <= k < |items|
      ensures TempItem(tempPaths, tempFiles, table, items + [item], n, k)
    {
      TempItemKept(tempPaths, tempFiles, table, items, n, item, k);
    }
    TempItemAdded(tempPaths, tempFiles, table, items, n, item);
  }

  lemma TempItemKept(tempPaths: seq<string>, tempFiles: map<string, File>,
                     table: map<string, string>, items: seq<Item>, n: nat, item: Item, k: nat)
    requires n <= k < |items| && TempItem(tempPaths, tempFiles, table, items, n, k)
    ensures TempItem(tempPaths, tempFiles, table, items + [item], n, k)
  {
    MadeFromAppend(tempFiles[items[k].href], table, items, item, k);
  }

  lemma TempItemAdded(tempPaths: seq<string>, tempFiles: map<string, File>,
                      table: map<string, string>, items: seq<Item>, n: nat, item: Item)
    requires n <= |items| && |items| - n < |tempPaths| && item.href == tempPaths[|items| - n]
    requires item.href in tempFiles && item.fallback == None
    requires MediaType(item.href, tempFiles[item.href], table) == Ok(item.mediaType)
    requires Identify(item.href).Some?
    requires ChosenId(Identify(item.href).value, IdsOf(items), item.id)
    ensures TempItem(tempPaths, tempFiles, table, items + [item], n, |items|)
  {
    assert (items + [item])[..|items|] == items;
  }

  /** Appending an item keeps how an earlier item was made. */
  lemma MadeFromAppend(file: File, table: map<string, string>, items: seq<Item>, item: Item, k: nat)
    requires k < |items| && MadeFrom(file, table, items, k)
    ensures MadeFrom(file, table, items + [item], k)
  {
    assert (items + [item])[..k] == items[..k];
  }

  /** A `make_item` error on the next temporary file is the first error among the temporary
      files, as the earlier ones were made. */
  lemma TempErrorIsFirst(tempPaths: seq<string>, tempFiles: map<string, File>,
                         table: map<string, string>, items: seq<Item>, n: nat, e: Error)
    requires Registry(tempPaths, tempFiles)
    requires TempItems(tempPaths, tempFiles, table, items, n) && n <= |items|
    requires |items| - n < |tempPaths|
    requires MakeItemError(tempPaths[|items| - n], tempFiles[tempPaths[|items| - n]], table) == Some(e)
    ensures FirstItemError(tempPaths, tempFiles, table) == Some(e)
  {
    var t := |items| - n;
    TempItemsClean(tempPaths, tempFiles, table, items, n);
    FirstErrorAt(tempPaths, t, tempFiles, table);
  }

  /** The temporary files made so far were made without error. */
  lemma TempItemsClean(tempPaths: seq<string>, tempFiles: map<string, File>,
                       table: map<string, string>, items: seq<Item>, n: nat)
    requires Registry(tempPaths, tempFiles)
    requires TempItems(tempPaths, tempFiles, table, items, n) && n <= |items|
    requires |items| - n <= |tempPaths|
    ensures forall i :: 0 <= i < |items| - n ==>
      MakeItemError(tempPaths[i], tempFiles[tempPaths[i]], table).None?
  {
    forall i | 0 <= i < |items| - n
      ensures MakeItemError(tempPaths[i], tempFiles[tempPaths[i]], table).None?
    {
      assert TempItem(tempPaths, tempFiles, table, items, n, n + i);
    }
  }

  /** When the paths before `t` are made without error and path `t` fails, its error is the
      first. */
  lemma FirstErrorAt(paths: seq<string>, t: nat, files: map<string, File>, table: map<string, string>)
    requires forall i :: 0 <= i < |paths| ==> paths[i] in files
    requires t < |paths| && MakeItemError(paths[t], files[paths[t]], table).Some?
    requires forall i :: 0 <= i < t ==> MakeItemError(paths[i], files[paths[i]], table).None?
    ensures FirstItemError(paths, files, table) == MakeItemError(paths[t], files[paths[t]], table)
  {
    var made := paths[..t];
    assert FirstItemError(made, files, table) == None;
    assert paths == made + paths[t..];
    assert FirstItemError(paths[t..], files, table) == MakeItemError(paths[t], files[paths[t]], table);
    FirstItemErrorAppend(made, paths[t..], files, table);
  }

  /** Lines 212-213: one item per temporary file, after the registered ones. */
  method AppendTempFiles(files: map<string, File>, tempPaths: seq<string>,
                         tempFiles: map<string, File>, table: map<string, string>,
                         registered: seq<Item>)
    returns (r: Result<seq<Item>, Error>)
    requires Registry(tempPaths, tempFiles)
    requires RegisteredPrefix(files, table, registered, |registered|)
    ensures r.Ok? ==> |r.value| == |registered| + |tempPaths|
    ensures r.Ok? ==> r.value[..|registered|] == registered
    ensures r.Ok? ==> RegisteredPrefix(files, table, r.value, |registered|)
    ensures r.Ok? ==> TempItems(tempPaths, tempFiles, table, r.value, |registered|)
    ensures r.Err? ==> ItemError(tempFiles, table, r.error)
    ensures r.Err? ==> FirstItemError(tempPaths, tempFiles, table) == Some(r.error)
  {
    var items := registered;
    var ids := IdsOf(registered);
    var n := |registered|;
    var t := 0;
    while t < |tempPaths|
      invariant 0 <= t <= |tempPaths|
      invariant |items| == n + t && ids == IdsOf(items)
      invariant items[..n] == registered
      invariant RegisteredPrefix(files, table, items, n)
      invariant TempItems(tempPaths, tempFiles, table, items, n)
    {
      var path := tempPaths[t];
      var made := MakeItem(path, tempFiles[path], table, ids);
      if made.Err? {
        TempErrorIsFirst(tempPaths, tempFiles, table, items, n, made.error);
        return Err(made.error);
      }
      IdsOfAppend(items, made.value);
      RegisteredPrefixAppend(files, table, items, n, made.value);
      TempItemsAppend(tempPaths, tempFiles, table, items, n, made.value);
      assert (items + [made.value])[..n] == items[..n];
      items := items + [made.value];
      ids := ids + [made.value.id];
      t := t + 1;
    }
    return Ok(items);
  }

  /** `Epub._make_manifest_element`: the registered files through the fallback worklist,
      then the temporary files, in their own order. */
  method MakeManifest(paths: seq<string>, files: map<string, File>,
                      tempPaths: seq<string>, tempFiles: map<string, File>,
                      table: map<string, string>)
    returns (r: Result<seq<Item>, Error>)
    requires Registry(paths, files) && Registry(tempPaths, tempFiles)
    ensures r.Ok? ==> ManifestOk(paths, files, tempPaths, tempFiles, table, r.value)
    ensures r.Ok? ==> Hrefs(r.value[..|paths|]) == EmissionOrder(paths, files)
    ensures r.Ok? ==> multiset(EmissionOrder(paths, files)) == multiset(paths)
    ensures r.Err? ==> ManifestError(files, tempFiles, table, r.error)
    ensures r.Err? && FirstItemError(EmissionOrder(paths, files), files, table).Some? ==>
      r.error == FirstItemError(EmissionOrder(paths, files), files, table).value
    ensures (r.Err? && FirstItemError(EmissionOrder(paths, files), files, table).None? &&
             !r.error.UnresolvedFallbacks?) ==>
      FirstItemError(tempPaths, tempFiles, table) == Some(r.error)
    ensures r.Err? && r.error.UnresolvedFallbacks? ==> StuckIsRest(paths, files, r.error.stuck)
    ensures (r.Err? && FirstItemError(EmissionOrder(paths, files), files, table).None? &&
             |EmissionOrder(paths, files)| < |paths|) ==>
      r.error.UnresolvedFallbacks?
  {
    var done := EmitRegistered(paths, files, table);
    if done.Err? {
      return Err(done.error);
    }
    var st := done.value;
    EmptyWorklistEmittedAll(paths, files, table, st);
    SubMultisetOfSameSize(EmissionOrder(paths, files), paths);
    EmittedWithoutError(files, table, st);
    r := AppendTempFiles(files, tempPaths, tempFiles, table, st.items);
    if r.Ok? {
      PrefixKeepsHrefs(paths, files, table, st, r.value);
    }
  }

  /** The registered items, kept as the prefix of the manifest, still cover every
      registered path once. */
  lemma PrefixKeepsHrefs(paths: seq<string>, files: map<string, File>,
                         table: map<string, string>, st: State, items: seq<Item>)
    requires Building(paths, files, table, st) && |st.items| == |paths|
    requires forall p :: p in files ==> exists k :: 0 <= k < |paths| && st.items[k].href == p
    requires |paths| <= |items| && items[..|paths|] == st.items
    ensures forall p :: p in files ==> exists k :: 0 <= k < |paths| && items[k].href == p
    ensures forall i, j :: 0 <= i < j < |paths| ==> items[i].href != items[j].href
  {
    forall p | p in files
      ensures exists k :: 0 <= k < |paths| && items[k].href == p
    {
      var k :| 0 <= k < |paths| && st.items[k].href == p;
      assert items[k] == st.items[k];
    }
    forall i, j | 0 <= i < j < |paths|
      ensures items[i].href != items[j].href
    {
      assert items[i] == st.items[i] && items[j] == st.items[j];
    }
  }

  /** The `manifest` element of a built manifest: a registered file's `item` carries a
      `fallback` attribute exactly when the file declares a fallback, naming the id of the
      fallback's own item; a temporary file's `item` never carries one. */
  lemma BuiltManifestElement(paths: seq<string>, files: map<string, File>,
                             tempPaths: seq<string>, tempFiles: map<string, File>,
                             table: map<string, string>, items: seq<Item>)
    requires ManifestOk(paths, files, tempPaths, tempFiles, table, items)
    ensures |ManifestElement(items).children| == |paths| + |tempPaths|
    ensures forall k :: 0 <= k < |paths| ==>
      items[k].href in files &&
      ("fallback" in ManifestElement(items).children[k].attrs <==> files[items[k].href].fallback.Some?)
    ensures forall k, m :: 0 <= m < k < |paths| && files[items[k].href].fallback == Some(items[m].href) ==>
      ManifestElement(items).children[k].attrs["fallback"] == items[m].id
    ensures forall k :: |paths| <= k < |items| ==> "fallback" !in ManifestElement(items).children[k].attrs
  {
    var e := ManifestElement(items);
    forall k | 0 <= k < |paths|
      ensures items[k].href in files
      ensures "fallback" in e.children[k].attrs <==> files[items[k].href].fallback.Some?
      ensures forall m :: 0 <= m < k && files[items[k].href].fallback == Some(items[m].href) ==>
        e.children[k].attrs["fallback"] == items[m].id
    {
      RegisteredItemElement(files, table, items, |paths|, k);
    }
    forall k | |paths| <= k < |items|
      ensures "fallback" !in e.children[k].attrs
    {
      assert TempItem(tempPaths, tempFiles, table, items, |paths|, k);
    }
  }

  /** The `item` element of a registered file's item, among items with distinct hrefs. */
  lemma RegisteredItemElement(files: map<string, File>, table: map<string, string>,
                              items: seq<Item>, n: nat, k: nat)
    requires k < n <= |items| && RegisteredItem(files, table, items, k)
    requires forall i, j :: 0 <= i < j < n ==> items[i].href != items[j].href
    ensures "fallback" in ItemElement(items[k]).attrs <==> files[items[k].href].fallback.Some?
    ensures forall m :: 0 <= m < k && files[items[k].href].fallback == Some(items[m].href) ==>
      ItemElement(items[k]).attrs["fallback"] == items[m].id
  {
    var fallback := files[items[k].href].fallback;
    if fallback.Some? {
      var m' :| 0 <= m' < k && items[m'].href == fallback.value && items[k].fallback == Some(items[m'].id);
      assert forall m :: 0 <= m < k && items[m].href == fallback.value ==> m == m';
    }
  }

  /** All ids of a built manifest are pairwise distinct. */
  lemma ManifestIdsDistinct(paths: seq<string>, files: map<string, File>,
                            tempPaths: seq<string>, tempFiles: map<string, File>,
                            table: map<string, string>, items: seq<Item>)
    requires ManifestOk(paths, files, tempPaths, tempFiles, table, items)
    ensures forall i, j :: 0 <= i < j < |items| ==> items[i].id != items[j].id
  {
    forall i, j | 0 <= i < j < |items|
      ensures items[i].id != items[j].id
    {
      if j < |paths| {
        assert RegisteredItem(files, table, items, j);
        assert MadeFrom(files[items[j].href], table, items, j);
      } else {
        assert TempItem(tempPaths, tempFiles, table, items, |paths|, j);
      }
      assert IdsOf(items[..j])[i] == items[i].id;
    }
  }

  /** With registered, acyclic fallbacks a manifest build never fails on its fallbacks. */
  lemma RankedManifestNeverStuck(files: map<string, File>, tempFiles: map<string, File>,
                                 table: map<string, string>, rank: map<string, nat>, e: Error)
    requires FallbacksRanked(files, rank)
    requires ManifestError(files, tempFiles, table, e)
    ensures !e.UnresolvedFallbacks?
  {
    if e.UnresolvedFallbacks? {
      RankedFallbacksNeverStick(files, rank, e.stuck);
    }
  }

  /** The collision loop as written (lines 185-188): `i` is never incremented, so every
      round after the first tries `identification_1` again. `None` stands for still
      looping after `fuel` rounds. */
  function CollisionLoopAsWritten(newId: string, identification: string, ids: seq<string>,
                                  fuel: nat): (r: Option<string>)
    ensures r.Some? ==> r.value !in ids
    ensures r.Some? ==> r.value == newId || r.value == Candidate(identification, 1)
    ensures newId !in ids ==> r == Some(newId)
    ensures newId in ids && fuel > 0 && Candidate(identification, 1) !in ids ==>
      r == Some(Candidate(identification, 1))
    decreases fuel
  {
    if newId !in ids then Some(newId)
    else if fuel == 0 then None
    else CollisionLoopAsWritten(Candidate(identification, 1), identification, ids, fuel - 1)
  }

  /** When both the sanitised path and `identification_1` are taken, the loop as written
      never ends, however many rounds it is given. */
  lemma {:induction false} CollisionLoopAsWrittenNeverEnds(newId: string, identification: string,
                                                          ids: seq<string>, fuel: nat)
    requires identification in ids && Candidate(identification, 1) in ids
    requires newId == identification || newId == Candidate(identification, 1)
    ensures CollisionLoopAsWritten(newId, identification, ids, fuel) == None
    decreases fuel
  {
    if fuel > 0 {
      CollisionLoopAsWrittenNeverEnds(Candidate(identification, 1), identification, ids, fuel - 1);
    }
  }

  /** Three paths that `xml_identify` maps to the same id. */
  lemma ThreePathsShareId()
    ensures Identify("a b") == Identify("a?b") == Identify("a*b") == Some("a:b")
  {
    assert Sanitize("a b") == "a:b" by {
      assert Sanitize("a b")[1] == SanitizeChar(' ');
    }
    assert Sanitize("a?b") == "a:b" by {
      assert Sanitize("a?b")[1] == SanitizeChar('?');
    }
    assert Sanitize("a*b") == "a:b" by {
      assert Sanitize("a*b")[1] == SanitizeChar('*');
    }
  }

  /** The third path sanitising to `a:b` (see `ThreePathsShareId`) finds `a:b` and `a:b_1`
      taken: its collision loop, as written, never ends, where the corrected loop picks
      `a:b_2`. */
  lemma ThirdCollisionHangs(fuel: nat)
    ensures CollisionLoopAsWritten("a:b", "a:b", ["a:b", "a:b_1"], fuel) == None
    ensures ChosenId("a:b", ["a:b", "a:b_1"], "a:b_2")
  {
    assert NatToString(1) == "1" && NatToString(2) == "2";
    assert Candidate("a:b", 1) == "a:b_1";
    assert Candidate("a:b", 2) == "a:b_2";
    CollisionLoopAsWrittenNeverEnds("a:b", "a:b", ["a:b", "a:b_1"], fuel);
  }

  /** Line 200 as written: `item_dict[_path]`, the item of the path being emitted.
      `None` stands for the KeyError it raises when that path has no item. */
  function FallbackIdAsWritten(path: string, itemDict: map<string, Item>): (r: Option<string>)
    ensures r.Some? <==> path in itemDict
    ensures r.Some? ==> r.value == itemDict[path].id
  {
    if path in itemDict then Some(itemDict[path].id) else None
  }

  /** At line 200 the path being emitted is still on the worklist, so it never has an
      item yet: as written, every file with a fallback makes the build raise KeyError. */
  lemma FallbackLookupAsWrittenFails(paths: seq<string>, files: map<string, File>,
                                     table: map<string, string>, st: State, j: nat)
    requires Building(paths, files, table, st) && j < |st.pending|
    ensures FallbackIdAsWritten(st.pending[j], st.itemDict) == None
  {
  }
}
