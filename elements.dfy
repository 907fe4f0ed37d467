/**
 * The shape of a rendered element as the `blocks.getSaveElement` filters see
 * it: an element `type`, its `props`, and `props.children`, which React
 * allows to be absent, a single child or an array of children.
 */
module Elements {
  import opened JsValues

  /**
   * An element; `props` holds every prop except `children`, which is kept apart.
   * A value whose `props` map has a `"children"` key stands for no JavaScript
   * element and lies outside the model; `WellFormed` excludes it at every depth.
   */
  datatype Elem = Elem(tag: string, props: map<string, Value>, children: Children)

  /** One child: an element, a text string, or a hole (`null`, `undefined`, `false`). */
  datatype Node = El(elem: Elem) | Text(text: string) | Nil

  /** `props.children`: absent, a single child, or an array of children. */
  datatype Children = Absent | One(node: Node) | Many(nodes: seq<Node>)

  predicate NodeTruthy(n: Node) {
    match n
    case El(_) => true
    case Text(s) => s != ""
    case Nil => false
  }

  /** `props.children` tested for truthiness: an array is truthy even when empty. */
  predicate HasChildren(c: Children) {
    match c
    case Absent => false
    case One(n) => NodeTruthy(n)
    case Many(_) => true
  }

  /** `Array.isArray(children) ? children : [children]`. */
  function ChildList(c: Children): seq<Node> {
    match c
    case Absent => [Nil]
    case One(n) => [n]
    case Many(ns) => ns
  }

  /** No `props` map, at any depth, carries a `"children"` key of its own. */
  predicate WellFormed(e: Elem)
    decreases e
  {
    "children" !in e.props && WellFormedChildren(e.children)
  }

  predicate WellFormedChildren(c: Children)
    decreases c
  {
    match c
    case Absent => true
    case One(n) => WellFormedNode(n)
    case Many(ns) => forall i :: 0 <= i < |ns| ==> WellFormedNode(ns[i])
  }

  predicate WellFormedNode(n: Node)
    decreases n
  {
    match n
    case El(e) => WellFormed(e)
    case Text(_) => true
    case Nil => true
  }

  /** Normalising well-formed children to a list keeps every child well formed. */
  lemma ChildListWellFormed(c: Children)
    ensures WellFormedChildren(c) ==> forall i :: 0 <= i < |ChildList(c)| ==> WellFormedNode(ChildList(c)[i])
  {
  }

  /** `child?.type === 'img'`: text and holes have no element type. */
  predicate IsImg(n: Node) {
    n.El? && n.elem.tag == "img"
  }
}
