/**
 * Conversion of editor blocks into the nested `[name, attributes, children]`
 * template form that the block-insertion API consumes
 * (src/visua11y-infographic/lib/blocksToTemplate.js).
 *
 * As written, the conversion is not recursive: `blocksToTemplate` unrolls the
 * first two levels by hand and hands the third level to
 * `innerBlocksToTemplate`, which calls `convertInnerBlocksToTemplate`, an
 * identifier that is never defined, whenever a block has `innerBlocks`. The
 * model keeps that behaviour and returns the resulting `ReferenceError` as a
 * `Failure`; `ToTemplates` is the recursive conversion evidently intended.
 */
module Templates {
  import opened Wrappers
  import opened JsValues
  import opened Blocks

  /** One template entry `[name, attributes, children]`. */
  datatype Template = Template(name: string, attributes: map<string, Value>, children: seq<Template>)

  /** The exception the original raises. */
  datatype ConversionError = ReferenceError(identifier: string)

  /** The identifier that `innerBlocksToTemplate` calls but nothing defines. */
  const UndefinedConverter: string := "convertInnerBlocksToTemplate"

  /**
   * `b` spans at most `levels` levels: every block on the last level has no
   * `innerBlocks` at all (not even an empty array).
   */
  ghost predicate FitsLevels(b: Block, levels: nat)
    decreases b
  {
    match b.innerBlocks
    case Missing => levels >= 1
    case Present(kids) =>
      levels >= 2 && forall i :: 0 <= i < |kids| ==> FitsLevels(kids[i], levels - 1)
  }

  ghost predicate AllFit(blocks: seq<Block>, levels: nat) {
    forall i :: 0 <= i < |blocks| ==> FitsLevels(blocks[i], levels)
  }

  /**
   * `t` is `b` in template form at every depth: the same name, a copy of the
   * same attributes, and children that mirror the inner blocks one for one
   * and in order; a block without `innerBlocks` gets an empty child list.
   */
  ghost predicate Mirrors(b: Block, t: Template)
    decreases b
  {
    && t.name == b.name
    && t.attributes == b.attributes
    && match b.innerBlocks
       case Missing => t.children == []
       case Present(kids) =>
         |t.children| == |kids| && forall i :: 0 <= i < |kids| ==> Mirrors(kids[i], t.children[i])
  }

  ghost predicate MirrorsAll(blocks: seq<Block>, templates: seq<Template>) {
    |templates| == |blocks| && forall i :: 0 <= i < |blocks| ==> Mirrors(blocks[i], templates[i])
  }

  /**
   * `innerBlocksToTemplate`: converts one level of blocks, and throws as soon
   * as a block carries `innerBlocks`, because the converter it then calls is
   * undefined.
   */
  function InnerBlocksToTemplate(blocks: seq<Block>): (r: Result<seq<Template>, ConversionError>)
    ensures r.Success? <==> AllFit(blocks, 1)
    ensures r.Failure? ==> r.error == ReferenceError(UndefinedConverter)
    ensures r.Success? ==> MirrorsAll(blocks, r.value)
  {
    if blocks == [] then Success([])
    else
      var b := blocks[0];
      var children :- (
        match b.innerBlocks
        case Missing => Success([])
        case Present(_) => Failure(ReferenceError(UndefinedConverter)));
      var rest :- InnerBlocksToTemplate(blocks[1..]);
      Success([Template(b.name, b.attributes, children)] + rest)
  }

  /** The inner `block.innerBlocks.map(...)` of `blocksToTemplate`: the second level. */
  function SecondLevelToTemplate(blocks: seq<Block>): (r: Result<seq<Template>, ConversionError>)
    ensures r.Success? <==> AllFit(blocks, 2)
    ensures r.Failure? ==> r.error == ReferenceError(UndefinedConverter)
    ensures r.Success? ==> MirrorsAll(blocks, r.value)
  {
    if blocks == [] then Success([])
    else
      var b := blocks[0];
      var children :- (
        match b.innerBlocks
        case Missing => Success([])
        case Present(kids) => InnerBlocksToTemplate(kids));
      var rest :- SecondLevelToTemplate(blocks[1..]);
      Success([Template(b.name, b.attributes, children)] + rest)
  }

  /** `blocksToTemplate`: the top level. */
  function BlocksToTemplate(blocks: seq<Block>): (r: Result<seq<Template>, ConversionError>)
    ensures r.Success? <==> AllFit(blocks, 3)
    ensures r.Failure? ==> r.error == ReferenceError(UndefinedConverter)
    ensures r.Success? ==> MirrorsAll(blocks, r.value)
  {
    if blocks == [] then Success([])
    else
      var b := blocks[0];
      var children :- (
        match b.innerBlocks
        case Missing => Success([])
        case Present(kids) => SecondLevelToTemplate(kids));
      var rest :- BlocksToTemplate(blocks[1..]);
      Success([Template(b.name, b.attributes, children)] + rest)
  }

  /** The recursive conversion of one block, to any depth. */
  function ToTemplate(b: Block): (t: Template)
    ensures Mirrors(b, t)
    decreases b
  {
    Template(b.name, b.attributes,
      match b.innerBlocks
      case Missing => []
      case Present(kids) => seq(|kids|, i requires 0 <= i < |kids| => ToTemplate(kids[i])))
  }

  /** The recursive conversion of a block list. */
  function ToTemplates(blocks: seq<Block>): (r: seq<Template>)
    ensures MirrorsAll(blocks, r)
  {
    seq(|blocks|, i requires 0 <= i < |blocks| => ToTemplate(blocks[i]))
  }

  /** A block has exactly one template form. */
  lemma {:induction false} MirrorsUnique(b: Block, t1: Template, t2: Template)
    requires Mirrors(b, t1) && Mirrors(b, t2)
    ensures t1 == t2
    decreases b
  {
    match b.innerBlocks
    case Missing =>
    case Present(kids) =>
      forall i | 0 <= i < |kids|
        ensures t1.children[i] == t2.children[i]
      {
        MirrorsUnique(kids[i], t1.children[i], t2.children[i]);
      }
      assert t1.children == t2.children;
  }

  lemma MirrorsAllUnique(blocks: seq<Block>, ts1: seq<Template>, ts2: seq<Template>)
    requires MirrorsAll(blocks, ts1) && MirrorsAll(blocks, ts2)
    ensures ts1 == ts2
  {
    forall i | 0 <= i < |blocks| ensures ts1[i] == ts2[i] {
      MirrorsUnique(blocks[i], ts1[i], ts2[i]);
    }
  }

  /** Wherever `blocksToTemplate` succeeds it computes the recursive conversion. */
  lemma BlocksToTemplateAgrees(blocks: seq<Block>)
    ensures BlocksToTemplate(blocks).Success? ==> BlocksToTemplate(blocks).value == ToTemplates(blocks)
  {
    if BlocksToTemplate(blocks).Success? {
      MirrorsAllUnique(blocks, BlocksToTemplate(blocks).value, ToTemplates(blocks));
    }
  }

  /**
   * A third-level block that carries `innerBlocks`, even an empty array, makes
   * `blocksToTemplate` throw, while the recursive conversion handles it.
   */
  lemma ThirdLevelInnerBlocksThrow(blocks: seq<Block>, i: nat, j: nat, k: nat)
    requires i < |blocks| && blocks[i].innerBlocks.Present?
    requires j < |blocks[i].innerBlocks.blocks| && blocks[i].innerBlocks.blocks[j].innerBlocks.Present?
    requires k < |blocks[i].innerBlocks.blocks[j].innerBlocks.blocks|
    requires blocks[i].innerBlocks.blocks[j].innerBlocks.blocks[k].innerBlocks.Present?
    ensures BlocksToTemplate(blocks) == Failure(ReferenceError(UndefinedConverter))
    ensures MirrorsAll(blocks, ToTemplates(blocks))
  {
  }
}
