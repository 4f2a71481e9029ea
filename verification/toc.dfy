/** The table of contents of epubuilder/epub/epub.py: `Section`, its `hidden_sub` setter and
    `Section.to_element`, and the inverse reading of the rendered list. */
module Toc {
  import opened Wrappers
  import opened Xml

  /** A Python value handed to a setter: booleans, integers, strings and None. Floats,
      which `in (True, False)` also accepts as 1.0 and 0.0, are not modelled. */
  datatype PyValue = PyBool(b: bool) | PyInt(i: int) | PyStr(s: string) | PyNone

  /** A toc section: a title, an optional link, owned subsections in order, and the
      `hidden_sub` flag (None until set). */
  datatype Section = Section(title: string, href: Option<string>, subsections: seq<Section>,
                             hiddenSub: Option<PyValue>)

  datatype SetterError = ValueError

  /** `value in (True, False)`: Python compares with `==`, so 1 and 0 pass as well. */
  predicate IsBoolLike(v: PyValue) {
    v.PyBool? || (v.PyInt? && (v.i == 0 || v.i == 1))
  }

  /** The `hidden_sub` setter: it stores a value equal to True or False and raises
      ValueError, changing nothing, for any other. */
  function SetHiddenSub(s: Section, v: PyValue): (r: Result<Section, SetterError>)
    ensures r.Ok? <==> IsBoolLike(v)
    ensures r.Ok? ==> r.value.hiddenSub == Some(v)
    ensures r.Ok? ==> r.value.title == s.title && r.value.href == s.href &&
                      r.value.subsections == s.subsections
  {
    if !IsBoolLike(v) then Err(ValueError) else Ok(s.(hiddenSub := Some(v)))
  }

  /** `if self.href:` — a link is rendered for a present, non-empty href. */
  predicate HasLink(s: Section) {
    s.href.Some? && s.href.value != ""
  }

  /** `Section.to_element`: an `li` around an `a` (with the href) or a `span`, holding the
      title text and, when there are subsections, one `ol` of their renderings. */
  function SectionElement(s: Section): (li: Node)
    ensures IsElem(li, "li") && li.attrs == map[] && |li.children| == 1
    ensures HasLink(s) ==> IsElem(li.children[0], "a") && li.children[0].attrs == map["href" := s.href.value]
    ensures !HasLink(s) ==> IsElem(li.children[0], "span") && li.children[0].attrs == map[]
    ensures li.children[0].Elem? && |li.children[0].children| == if s.subsections == [] then 1 else 2
    ensures li.children[0].children[0] == Text(s.title)
    ensures s.subsections != [] ==>
      var ol := li.children[0].children[1];
      && IsElem(ol, "ol") && ol.attrs == map[] && |ol.children| == |s.subsections|
      && forall k :: 0 <= k < |s.subsections| ==> ol.children[k] == SectionElement(s.subsections[k])
    decreases s
  {
    var sub := seq(|s.subsections|, i requires 0 <= i < |s.subsections| => SectionElement(s.subsections[i]));
    var inner := [Text(s.title)] + (if s.subsections != [] then [Elem("ol", map[], sub)] else []);
    var heading := if HasLink(s) then Elem("a", map["href" := s.href.value], inner)
                 else Elem("span", map[], inner);
    Elem("li", map[], [heading])
  }

  /** What a rendering keeps of a section: an empty href reads as none, and `hidden_sub`
      is not rendered. */
  function Normalize(s: Section): Section
    decreases s
  {
    Section(s.title, if HasLink(s) then s.href else None,
            seq(|s.subsections|, i requires 0 <= i < |s.subsections| => Normalize(s.subsections[i])),
            None)
  }

  /** Reads a rendered `li` back into a section. */
  function ParseSection(n: Node): Option<Section>
    decreases n, 1, 0
  {
    if !IsElem(n, "li") || |n.children| != 1 then None
    else
      var heading := n.children[0];
      if !heading.Elem? || |heading.children| == 0 || !heading.children[0].Text? then None
      else
        var href: Option<string> :=
          if heading.tag == "a" && "href" in heading.attrs then Some(heading.attrs["href"]) else None;
        if !(heading.tag == "span" || href.Some?) then None
        else if |heading.children| == 1 then
          Some(Section(heading.children[0].text, href, [], None))
        else if |heading.children| == 2 && IsElem(heading.children[1], "ol") then
          match ParseItems(heading.children[1], 0)
          case None => None
          case Some(subs) => Some(Section(heading.children[0].text, href, subs, None))
        else None
  }

  /** Reads the children of a rendered `ol`, from index `i` on. */
  function ParseItems(ol: Node, i: nat): Option<seq<Section>>
    requires ol.Elem?
    decreases ol, 0, |ol.children| - i
  {
    if i >= |ol.children| then Some([])
    else
      match ParseSection(ol.children[i])
      case None => None
      case Some(s) =>
        match ParseItems(ol, i + 1)
        case None => None
        case Some(rest) => Some([s] + rest)
  }

  /** The `ol` a section with subsections renders inside its `a` or `span`. */
  function SubList(s: Section): (ol: Node)
    requires s.subsections != []
  {
    SectionElement(s).children[0].children[1]
  }

  /** Reading back the rendered subsections from index `i` gives them, normalised, in order. */
  lemma {:induction false} SubsectionsRoundTrip(s: Section, i: nat)
    requires s.subsections != [] && i <= |s.subsections|
    ensures SubList(s).Elem? && |SubList(s).children| == |s.subsections|
    ensures ParseItems(SubList(s), i) == Some(Normalize(s).subsections[i..])
    decreases s, 0, |s.subsections| - i
  {
    var ol := SubList(s);
    assert ol.children
        == seq(|s.subsections|, k requires 0 <= k < |s.subsections| => SectionElement(s.subsections[k]));
    if i < |s.subsections| {
      assert ol.children[i] == SectionElement(s.subsections[i]);
      SectionRoundTrip(s.subsections[i]);
      SubsectionsRoundTrip(s, i + 1);
      assert Normalize(s).subsections[i..]
          == [Normalize(s.subsections[i])] + Normalize(s).subsections[i + 1..];
    }
  }

  /** `Section.to_element` loses nothing but what `Normalize` drops: reading the rendering
      back gives the section's title, link and whole subsection tree, in order and at the
      same depth. */
  lemma {:induction false} SectionRoundTrip(s: Section)
    ensures ParseSection(SectionElement(s)) == Some(Normalize(s))
    decreases s, 1
  {
    if s.subsections != [] {
      SubsectionsRoundTrip(s, 0);
      assert Normalize(s).subsections[0..] == Normalize(s).subsections;
    }
  }

  /** The number of `li` elements in a tree of nodes. */
  function CountLi(n: Node): nat
    decreases n, 1, 0
  {
    if n.Text? then 0 else (if n.tag == "li" then 1 else 0) + CountLiFrom(n, 0)
  }

  /** The number of `li` elements under the children of `n` from index `i` on. */
  function CountLiFrom(n: Node, i: nat): nat
    requires n.Elem?
    decreases n, 0, |n.children| - i
  {
    if i >= |n.children| then 0 else CountLi(n.children[i]) + CountLiFrom(n, i + 1)
  }

  /** The number of sections in the tree rooted at `s`. */
  function Size(s: Section): nat
    decreases s, 1, 0
  {
    1 + SizeFrom(s, 0)
  }

  /** The number of sections in the subtrees of `s` from subsection `i` on. */
  function SizeFrom(s: Section, i: nat): nat
    decreases s, 0, |s.subsections| - i
  {
    if i >= |s.subsections| then 0 else Size(s.subsections[i]) + SizeFrom(s, i + 1)
  }

  /** The rendered subsections from index `i` on hold one `li` per section. */
  lemma {:induction false} SubsectionsLiCount(s: Section, i: nat)
    requires s.subsections != [] && i <= |s.subsections|
    ensures SubList(s).Elem? && CountLiFrom(SubList(s), i) == SizeFrom(s, i)
    decreases s, 0, |s.subsections| - i
  {
    if i < |s.subsections| {
      assert SubList(s).children[i] == SectionElement(s.subsections[i]);
      SectionLiCount(s.subsections[i]);
      SubsectionsLiCount(s, i + 1);
    }
  }

  /** `Section.to_element` renders one `li` per section of the tree. */
  lemma {:induction false} SectionLiCount(s: Section)
    ensures CountLi(SectionElement(s)) == Size(s)
    decreases s, 1
  {
    var li := SectionElement(s);
    var heading := li.children[0];
    assert CountLiFrom(li, 1) == 0;
    assert CountLi(li) == 1 + CountLi(heading);
    if s.subsections != [] {
      SubsectionsLiCount(s, 0);
      assert CountLiFrom(heading, 2) == 0;
      assert CountLiFrom(heading, 1) == CountLi(SubList(s));
      assert CountLi(SubList(s)) == CountLiFrom(SubList(s), 0);
    } else {
      assert CountLiFrom(heading, 1) == 0;
    }
    assert CountLi(heading.children[0]) == 0;
    assert CountLi(heading) == CountLiFrom(heading, 0);
    assert CountLiFrom(heading, 0) == CountLi(heading.children[0]) + CountLiFrom(heading, 1);
    assert Size(s) == 1 + SizeFrom(s, 0);
  }

  const XhtmlNamespace := "http://www.w3.org/1999/xhtml"
  const OpsNamespace := "http://www.idpf.org/2007/ops"

  /** The `ol` of the navigation document renders the sections of `toc`, one per child. */
  ghost predicate RendersSections(ol: Node, toc: seq<Section>) {
    && IsElem(ol, "ol")
    && |ol.children| == |toc|
    && forall k :: 0 <= k < |toc| ==> ol.children[k] == SectionElement(toc[k])
  }

  /** `Epub._xmlstr_toc` before serialisation: an `html` with an empty `head` (the title
      element is built but never attached) and a `body` that holds the toc `nav` only
      when the toc has sections. */
  method NavDocument(toc: seq<Section>, tocTitle: Option<string>) returns (html: Node)
    ensures IsElem(html, "html") && |html.children| == 2
    ensures html.attrs == map["xmlns" := XhtmlNamespace, "xmlns:epub" := OpsNamespace]
    ensures html.children[0] == Elem("head", map[], [])
    ensures IsElem(html.children[1], "body") && html.children[1].attrs == map[]
    ensures toc == [] ==> html.children[1].children == []
    ensures toc != [] ==>
      && |html.children[1].children| == 1
      && var nav := html.children[1].children[0];
      && IsElem(nav, "nav")
      && nav.attrs == map["xmlns:epub" := OpsNamespace, "epub:type" := "toc"]
      && |nav.children| == 1
      && RendersSections(nav.children[0], toc)
  {
    var head := Elem("head", map[], []);
    if tocTitle.Some? && tocTitle.value != "" {
      var title := Elem("title", map[], [Text(tocTitle.value)]);
      // the original builds this element and drops it
    }
    var body := Elem("body", map[], []);
    if toc != [] {
      var items: seq<Node> := [];
      var k := 0;
      while k < |toc|
        invariant 0 <= k <= |toc| && |items| == k
        invariant forall j :: 0 <= j < k ==> items[j] == SectionElement(toc[j])
      {
        items := items + [SectionElement(toc[k])];
        k := k + 1;
      }
      var nav := Elem("nav", map["xmlns:epub" := OpsNamespace, "epub:type" := "toc"],
                      [Elem("ol", map[], items)]);
      body := body.(children := body.children + [nav]);
    }
    html := Elem("html", map["xmlns" := XhtmlNamespace, "xmlns:epub" := OpsNamespace], [head, body]);
  }

  /** Each section of `toc`, normalised, in order. */
  function NormalizeAll(toc: seq<Section>): (r: seq<Section>)
    ensures |r| == |toc|
  {
    seq(|toc|, k requires 0 <= k < |toc| => Normalize(toc[k]))
  }

  /** Reading back a rendered list of sections from index `i` on gives them, normalised,
      in order. */
  lemma {:induction false} RenderedListRoundTrip(ol: Node, toc: seq<Section>, i: nat)
    requires RendersSections(ol, toc) && i <= |toc|
    ensures ParseItems(ol, i) == Some(NormalizeAll(toc[i..]))
    decreases |toc| - i
  {
    if i < |toc| {
      assert ol.children[i] == SectionElement(toc[i]);
      SectionRoundTrip(toc[i]);
      RenderedListRoundTrip(ol, toc, i + 1);
      assert NormalizeAll(toc[i..]) == [Normalize(toc[i])] + NormalizeAll(toc[i + 1..]);
    } else {
      assert NormalizeAll(toc[i..]) == [];
    }
  }
}
