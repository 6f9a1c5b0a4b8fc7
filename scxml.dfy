/** The SCXML element tree the converter builds with ElementTree, as a value. */
module Scxml {
  import opened Wrappers

  /** An attribute in insertion order. ElementTree stores whatever value it is
      given, so a value may be Python's None (represented as `None`). */
  datatype Attribute = Attribute(key: string, value: Option<string>)

  /** An element: its tag, its attributes in order and its children in order. */
  datatype Element = Element(tag: string, attributes: seq<Attribute>, children: seq<Element>)

  /** `ET.SubElement(parent, tag, attributes)`: the parent with a new, empty last child. */
  function SubElement(parent: Element, tag: string, attributes: seq<Attribute>): Element {
    parent.(children := parent.children + [Element(tag, attributes, [])])
  }

  /** `ET.SubElement` on the `k`-th child of `root`, the element a dictionary
      entry refers to. */
  function SubElementAt(root: Element, k: nat, tag: string, attributes: seq<Attribute>): Element
    requires k < |root.children|
  {
    root.(children := root.children[k := SubElement(root.children[k], tag, attributes)])
  }
}
