/**
 * The three filters that give the core image block an `ariaDescribedby`
 * attribute and carry it into the rendered markup as `aria-describedby`
 * (src/visua11y-infographic/tools/extend-image.js). Each is a pure rewrite
 * that builds new objects by spreading the old ones.
 */
module ImageFilters {
  import opened JsValues
  import opened Elements

  const ImageBlockName: string := "core/image"
  const AttributeName: string := "ariaDescribedby"
  const AriaProp: string := "aria-describedby"
  const AttributesKey: string := "attributes"

  /** The attribute definition `{ type: 'string', default: '' }`. */
  const AttributeDefinition: Value := Obj(map["type" := Str("string"), "default" := Str("")])

  /** The attribute object of some block settings, as `{ ...settings.attributes }` copies it. */
  function AttributesOf(settings: map<string, Value>): map<string, Value> {
    SpreadFields(Prop(settings, AttributesKey))
  }

  /**
   * `addAriaDescribedbyAttribute` (the `blocks.registerBlockType` filter):
   * the image block's settings gain the `ariaDescribedby` attribute; all other
   * block types' settings pass through untouched.
   */
  function AddAriaDescribedbyAttribute(settings: map<string, Value>, name: string): (r: map<string, Value>)
    ensures name != ImageBlockName ==> r == settings
    ensures name == ImageBlockName ==>
      && r.Keys == settings.Keys + {AttributesKey}
      && (forall k :: k in settings && k != AttributesKey ==> r[k] == settings[k])
      && r[AttributesKey].Obj?
      && r[AttributesKey].fields.Keys == AttributesOf(settings).Keys + {AttributeName}
      && r[AttributesKey].fields[AttributeName] == AttributeDefinition
      && (forall k :: k in AttributesOf(settings) && k != AttributeName ==>
            r[AttributesKey].fields[k] == AttributesOf(settings)[k])
  {
    if name != ImageBlockName then settings
    else settings[AttributesKey := Obj(AttributesOf(settings)[AttributeName := AttributeDefinition])]
  }

  /** Registering the attribute twice gives the same settings as registering it once. */
  lemma AddAriaDescribedbyAttributeIdempotent(settings: map<string, Value>, name: string)
    ensures AddAriaDescribedbyAttribute(AddAriaDescribedbyAttribute(settings, name), name)
         == AddAriaDescribedbyAttribute(settings, name)
  {
    if name == ImageBlockName {
      var once := AddAriaDescribedbyAttribute(settings, name);
      var twice := AddAriaDescribedbyAttribute(once, name);
      assert AttributesOf(once) == AttributesOf(settings)[AttributeName := AttributeDefinition];
      assert twice[AttributesKey] == once[AttributesKey];
    }
  }

  /** The guard both render filters share: an image block whose `ariaDescribedby` is truthy. */
  predicate Applies(blockName: string, attributes: map<string, Value>) {
    blockName == ImageBlockName && Truthy(Prop(attributes, AttributeName))
  }

  /** `element.type === 'figure' && element.props.children`. */
  predicate IsFigureWithChildren(e: Elem) {
    e.tag == "figure" && HasChildren(e.children)
  }

  /** One child rewritten: an `img` gets `aria-describedby` = `v` added to its props. */
  function Describe(n: Node, v: Value): Node {
    if IsImg(n) then El(n.elem.(props := n.elem.props[AriaProp := v])) else n
  }

  function DescribeAll(ns: seq<Node>, v: Value): seq<Node> {
    seq(|ns|, i requires 0 <= i < |ns| => Describe(ns[i], v))
  }

  /**
   * `d` is `c` with `aria-describedby` set to `v` when `c` is an `img` element,
   * every other prop, its type and its children unchanged; any other child is
   * left as it is.
   */
  ghost predicate DescribedCopy(c: Node, d: Node, v: Value) {
    if IsImg(c) then
      && d.El?
      && d.elem.tag == c.elem.tag
      && d.elem.children == c.elem.children
      && d.elem.props.Keys == c.elem.props.Keys + {AriaProp}
      && d.elem.props[AriaProp] == v
      && (forall k :: k in c.elem.props && k != AriaProp ==> d.elem.props[k] == c.elem.props[k])
    else
      d == c
  }

  /** `ds` is `cs` child by child, each a `DescribedCopy`. */
  ghost predicate DescribedList(cs: seq<Node>, ds: seq<Node>, v: Value) {
    |ds| == |cs| && forall i :: 0 <= i < |cs| ==> DescribedCopy(cs[i], ds[i], v)
  }

  /**
   * `applyAriaDescribedbyToEditor`: for an applicable image block whose element
   * is a figure with children, every `img` that is a direct child of the figure
   * gets `aria-describedby`; a single child becomes a one-element list.
   */
  function ApplyAriaDescribedbyToEditor(element: Elem, blockName: string, attributes: map<string, Value>): (r: Elem)
    ensures !Applies(blockName, attributes) || !IsFigureWithChildren(element) ==> r == element
    ensures Applies(blockName, attributes) && IsFigureWithChildren(element) ==>
      && r.tag == element.tag
      && r.props == element.props
      && r.children.Many?
      && DescribedList(ChildList(element.children), r.children.nodes, Prop(attributes, AttributeName))
  {
    if Applies(blockName, attributes) && IsFigureWithChildren(element) then
      element.(children := Many(DescribeAll(ChildList(element.children), Prop(attributes, AttributeName))))
    else
      element
  }

  /**
   * One child rewritten by the save filter: an element child whose own children
   * are truthy has those children normalised to a list and every `img` among
   * them described.
   */
  function DescribeGrandchildren(n: Node, v: Value): Node {
    if n.El? && HasChildren(n.elem.children) then
      El(n.elem.(children := Many(DescribeAll(ChildList(n.elem.children), v))))
    else
      n
  }

  /**
   * `d` is `c` with every `img` among `c`'s own children described, its type
   * and props unchanged, when `c` is an element with truthy children; any other
   * child is left as it is.
   */
  ghost predicate DescribedParent(c: Node, d: Node, v: Value) {
    if c.El? && HasChildren(c.elem.children) then
      && d.El?
      && d.elem.tag == c.elem.tag
      && d.elem.props == c.elem.props
      && d.elem.children.Many?
      && DescribedList(ChildList(c.elem.children), d.elem.children.nodes, v)
    else
      d == c
  }

  /**
   * `applyAriaDescribedbyToSave`: for an applicable image block whose element
   * is a figure with children, every `img` one level below the figure's
   * children gets `aria-describedby`.
   */
  function ApplyAriaDescribedbyToSave(element: Elem, blockName: string, attributes: map<string, Value>): (r: Elem)
    ensures !Applies(blockName, attributes) || !IsFigureWithChildren(element) ==> r == element
    ensures Applies(blockName, attributes) && IsFigureWithChildren(element) ==>
      && r.tag == element.tag
      && r.props == element.props
      && r.children.Many?
      && |r.children.nodes| == |ChildList(element.children)|
      && (forall i :: 0 <= i < |r.children.nodes| ==>
            DescribedParent(ChildList(element.children)[i], r.children.nodes[i], Prop(attributes, AttributeName)))
  {
    if Applies(blockName, attributes) && IsFigureWithChildren(element) then
      var cs := ChildList(element.children);
      var v := Prop(attributes, AttributeName);
      element.(children := Many(seq(|cs|, i requires 0 <= i < |cs| => DescribeGrandchildren(cs[i], v))))
    else
      element
  }

  /**
   * Both filters are registered on `blocks.getSaveElement` at the default
   * priority, the editor one first, so the element is passed through both.
   * When the guard holds, the figure keeps its type, props and child count,
   * and every `img` child, and every `img` among an element child's children,
   * carries `aria-describedby` equal to the `ariaDescribedby` attribute.
   */
  function FilterSaveElement(element: Elem, blockName: string, attributes: map<string, Value>): (r: Elem)
    ensures !Applies(blockName, attributes) || !IsFigureWithChildren(element) ==> r == element
    ensures Applies(blockName, attributes) && IsFigureWithChildren(element) ==>
      && r.tag == element.tag
      && r.props == element.props
      && r.children.Many?
      && |r.children.nodes| == |ChildList(element.children)|
      && (forall i :: 0 <= i < |r.children.nodes| && IsImg(r.children.nodes[i]) ==>
            Prop(r.children.nodes[i].elem.props, AriaProp) == Prop(attributes, AttributeName))
      && (forall i, j ::
            0 <= i < |r.children.nodes| && r.children.nodes[i].El? && r.children.nodes[i].elem.children.Many? &&
            0 <= j < |r.children.nodes[i].elem.children.nodes| && IsImg(r.children.nodes[i].elem.children.nodes[j]) ==>
            Prop(r.children.nodes[i].elem.children.nodes[j].elem.props, AriaProp) == Prop(attributes, AttributeName))
  {
    ApplyAriaDescribedbyToSave(ApplyAriaDescribedbyToEditor(element, blockName, attributes), blockName, attributes)
  }

  lemma DescribeAllWellFormed(ns: seq<Node>, v: Value)
    ensures (forall i :: 0 <= i < |ns| ==> WellFormedNode(ns[i])) ==>
      forall i :: 0 <= i < |ns| ==> WellFormedNode(DescribeAll(ns, v)[i])
  {
    if forall i :: 0 <= i < |ns| ==> WellFormedNode(ns[i]) {
      forall i | 0 <= i < |ns|
        ensures WellFormedNode(DescribeAll(ns, v)[i])
      {
        if IsImg(ns[i]) {
          var e := ns[i].elem;
          assert WellFormed(e);
          assert AriaProp != "children";
          assert WellFormed(e.(props := e.props[AriaProp := v]));
        }
      }
    }
  }

  lemma DescribeGrandchildrenWellFormed(n: Node, v: Value)
    ensures WellFormedNode(n) ==> WellFormedNode(DescribeGrandchildren(n, v))
  {
    if WellFormedNode(n) && n.El? && HasChildren(n.elem.children) {
      assert WellFormed(n.elem);
      ChildListWellFormed(n.elem.children);
      DescribeAllWellFormed(ChildList(n.elem.children), v);
      assert WellFormedChildren(Many(DescribeAll(ChildList(n.elem.children), v)));
    }
  }

  /**
   * The filters add only `aria-describedby` to props and keep `children` apart,
   * so an element that stands for a JavaScript element is mapped to one.
   */
  lemma FilterSaveElementWellFormed(element: Elem, blockName: string, attributes: map<string, Value>)
    ensures WellFormed(element) ==> WellFormed(FilterSaveElement(element, blockName, attributes))
  {
    if WellFormed(element) && Applies(blockName, attributes) && IsFigureWithChildren(element) {
      var v := Prop(attributes, AttributeName);
      var cs := ChildList(element.children);
      ChildListWellFormed(element.children);
      DescribeAllWellFormed(cs, v);
      var ds := DescribeAll(cs, v);
      forall i | 0 <= i < |ds| {
        DescribeGrandchildrenWellFormed(ds[i], v);
      }
    }
  }

  lemma DescribeIdempotent(n: Node, v: Value)
    ensures Describe(Describe(n, v), v) == Describe(n, v)
  {
  }

  lemma DescribeAllIdempotent(ns: seq<Node>, v: Value)
    ensures DescribeAll(DescribeAll(ns, v), v) == DescribeAll(ns, v)
  {
    forall i | 0 <= i < |ns| ensures DescribeAll(DescribeAll(ns, v), v)[i] == DescribeAll(ns, v)[i] {
      DescribeIdempotent(ns[i], v);
    }
  }

  /** Applying the editor filter to its own output changes nothing more. */
  lemma EditorFilterIdempotent(element: Elem, blockName: string, attributes: map<string, Value>)
    ensures ApplyAriaDescribedbyToEditor(ApplyAriaDescribedbyToEditor(element, blockName, attributes), blockName, attributes)
         == ApplyAriaDescribedbyToEditor(element, blockName, attributes)
  {
    if Applies(blockName, attributes) && IsFigureWithChildren(element) {
      DescribeAllIdempotent(ChildList(element.children), Prop(attributes, AttributeName));
    }
  }

  lemma DescribeGrandchildrenIdempotent(n: Node, v: Value)
    ensures DescribeGrandchildren(DescribeGrandchildren(n, v), v) == DescribeGrandchildren(n, v)
  {
    if n.El? && HasChildren(n.elem.children) {
      DescribeAllIdempotent(ChildList(n.elem.children), v);
    }
  }

  /** Applying the save filter to its own output changes nothing more. */
  lemma SaveFilterIdempotent(element: Elem, blockName: string, attributes: map<string, Value>)
    ensures ApplyAriaDescribedbyToSave(ApplyAriaDescribedbyToSave(element, blockName, attributes), blockName, attributes)
         == ApplyAriaDescribedbyToSave(element, blockName, attributes)
  {
    if Applies(blockName, attributes) && IsFigureWithChildren(element) {
      var v := Prop(attributes, AttributeName);
      var once := ApplyAriaDescribedbyToSave(element, blockName, attributes);
      var twice := ApplyAriaDescribedbyToSave(once, blockName, attributes);
      forall i | 0 <= i < |once.children.nodes|
        ensures twice.children.nodes[i] == once.children.nodes[i]
      {
        DescribeGrandchildrenIdempotent(ChildList(element.children)[i], v);
      }
    }
  }

  /** The two render filters commute, so their registration order does not matter. */
  lemma RenderFiltersCommute(element: Elem, blockName: string, attributes: map<string, Value>)
    ensures FilterSaveElement(element, blockName, attributes)
         == ApplyAriaDescribedbyToEditor(ApplyAriaDescribedbyToSave(element, blockName, attributes), blockName, attributes)
  {
  }
}
