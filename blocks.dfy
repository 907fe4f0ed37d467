/**
 * An editor block as the block editor hands it out: a client id, a block
 * type name, an attribute object and an optional list of inner blocks.
 */
module Blocks {
  import opened JsValues

  datatype Block = Block(
    clientId: string,
    name: string,
    attributes: map<string, Value>,
    innerBlocks: InnerBlocks)

  /**
   * The `innerBlocks` property: `Missing` when it is absent (or otherwise
   * falsy); `Present` holds an array, which is truthy even when empty.
   */
  datatype InnerBlocks = Missing | Present(blocks: seq<Block>)
}
