/** The XML element tree the package documents are built from.

    The element library of the original is foreign code; here an element is only its tag,
    its attributes and its ordered children. A namespace declaration is kept as an
    ordinary attribute (`xmlns`, `xmlns:epub`), and a namespaced attribute name is written
    with its prefix (`epub:type`, `xml:lang`). */
module Xml {

  datatype Node =
    | Elem(tag: string, attrs: map<string, string>, children: seq<Node>)
    | Text(text: string)

  /** True when `n` is an element called `tag`. */
  predicate IsElem(n: Node, tag: string) {
    n.Elem? && n.tag == tag
  }
}
