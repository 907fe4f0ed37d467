# visua11y-infographic: a Dafny model of the block helpers

The visua11y-infographic WordPress plugin lets an author turn an infographic
into an accessible text alternative that sits next to the image. This project
models the plugin's three pieces of self-contained logic:

- **Block-to-template conversion** (`Templates`, in `templates.dfy`). It turns
  editor blocks (`name`, `attributes`, optional `innerBlocks`) into the nested
  `[name, attributes, children]` templates that the block-insertion API takes.
  The original unrolls two levels by hand. It hands the third level to
  `innerBlocksToTemplate`, which calls an undefined `convertInnerBlocksToTemplate`
  whenever a block has `innerBlocks`. The model keeps that behaviour and returns
  the resulting `ReferenceError` as a `Failure`. `ToTemplates` is the recursive
  conversion that was evidently intended. It is proved equal to
  `BlocksToTemplate` wherever the latter succeeds (see Findings).
- **Image-block accessibility filters** (`ImageFilters`, in `image_filters.dfy`,
  over the element shape in `elements.dfy`):
  - the `blocks.registerBlockType` filter adds the `ariaDescribedby` attribute
    to the core image block;
  - the two `blocks.getSaveElement` filters copy the attribute into
    `aria-describedby` on `img` elements: the direct children of the `figure`,
    and one level below them. The source comment calls the first of these
    an editor-preview change, but it is registered on `blocks.getSaveElement`
    like the second, so both shape the saved markup, and the model composes
    them in registration order (`FilterSaveElement`).

  Elements are `Elem(tag, props, children)`. `children` is `Absent`, `One(node)`
  or `Many(nodes)`, and a node is an element, a text string or a hole (`null`,
  `false`, `undefined`). JavaScript truthiness is modelled exactly for these
  cases (`JsValues.Truthy`, `Elements.HasChildren`).
- **Side-panel list logic** (`DescribedByPanel`, in `describedby_panel.dfy`):
  - splitting the attribute string into tokens when the panel loads, and
    joining them when it saves;
  - collecting block anchors as suggestions;
  - looking up a clicked token among those anchors.
- **Anchor generator** (`AnchorGenerator`, in `anchor_generator.dfy`). The
  original is a six-step loop: it starts from `description-` and appends
  characters from a 62-character alphanumeric alphabet. The six random draws
  become a parameter: six indices, each in `[0, 62)`. The method is proved
  against `AnchorFor`. Draws and anchors are proved to correspond one to one.

Shared modules: `Wrappers` (Option, Result), `JsValues` (JavaScript values,
truthiness, property access and object spread) and `Blocks` (the editor block
record).

## Model

| member | source | states |
|---|---|---|
| `Templates.InnerBlocksToTemplate` | src/visua11y-infographic/lib/blocksToTemplate.js:1-7 | Succeeds exactly when no block in the list carries `innerBlocks`, even an empty array. Otherwise it fails with `ReferenceError("convertInnerBlocksToTemplate")`. On success each entry, in order, is the block's name, a copy of its attributes and `[]`. The empty list gives the empty list. |
| `Templates.SecondLevelToTemplate` | src/visua11y-infographic/lib/blocksToTemplate.js:13-17 | The second level keeps count and order. Each block becomes its name, its attributes and converted grandchildren, or `[]` when `innerBlocks` is absent. It succeeds exactly when no inner block of a block in the list carries `innerBlocks`, even an empty array. |
| `Templates.BlocksToTemplate` | src/visua11y-infographic/lib/blocksToTemplate.js:9-19 | Succeeds exactly when no third-level block carries `innerBlocks`, even an empty array. Editor blocks always carry the array, so in practice only two-level trees convert. Otherwise it fails with the `ReferenceError`. On success the result has the input's length and order and mirrors every block at every depth: same name, same attribute map, children in order. A missing `innerBlocks` gives an empty child list, never an absent one. The empty list gives the empty list. |
| `Templates.ToTemplate` | src/visua11y-infographic/lib/blocksToTemplate.js:1-7 | The recursive conversion, to any depth, mirrors its block. |
| `Templates.ToTemplates` | src/visua11y-infographic/lib/blocksToTemplate.js:9-19 | The recursive list conversion has the input's length and mirrors each block in order. |
| `Templates.BlocksToTemplateAgrees` | src/visua11y-infographic/lib/blocksToTemplate.js:9-19 | Wherever `blocksToTemplate` succeeds, its result equals the recursive conversion. |
| `Templates.ThirdLevelInnerBlocksThrow` | src/visua11y-infographic/lib/blocksToTemplate.js:5 | A third-level block carrying `innerBlocks`, even `[]`, makes `blocksToTemplate` fail with `ReferenceError("convertInnerBlocksToTemplate")`. The recursive conversion still mirrors that input. |
| `ImageFilters.AddAriaDescribedbyAttribute` | src/visua11y-infographic/tools/extend-image.js:10-25 | Settings for any block other than `core/image` are returned unchanged. For `core/image`, `attributes` gains `ariaDescribedby = {type: 'string', default: ''}`. Every other attribute and every other settings field keeps its value, and no other key appears. |
| `ImageFilters.AddAriaDescribedbyAttributeIdempotent` | src/visua11y-infographic/tools/extend-image.js:15-24 | Applying the settings filter twice gives the same settings as applying it once. |
| `ImageFilters.ApplyAriaDescribedbyToEditor` | src/visua11y-infographic/tools/extend-image.js:175-206 | Returns the element unchanged when the block is not `core/image`, when `ariaDescribedby` is falsy, or when the element is not a `figure` with truthy children. Otherwise type and props are kept, and the children become a list of the same length and order. A single child becomes a one-element list. Each direct `img` child gets `aria-describedby` = the attribute value, with its other props and its children unchanged. Every other child is returned as is. |
| `ImageFilters.ApplyAriaDescribedbyToSave` | src/visua11y-infographic/tools/extend-image.js:215-272 | Has the same guard. Otherwise the figure's type and props are kept and its children keep length and order. A child without truthy children (text, holes, childless elements) is returned unchanged. An element child keeps its type and props. Its own children are normalised to a list, and each `img` among them gets `aria-describedby` = the attribute value, other props unchanged. |
| `ImageFilters.EditorFilterIdempotent` | src/visua11y-infographic/tools/extend-image.js:180-203 | Applying the editor filter to its own output gives the same output. |
| `ImageFilters.SaveFilterIdempotent` | src/visua11y-infographic/tools/extend-image.js:221-269 | Applying the save filter to its own output gives the same output. |
| `ImageFilters.RenderFiltersCommute` | src/visua11y-infographic/tools/extend-image.js:208-278 | Both filters are registered on `blocks.getSaveElement`. Their composition is the same in either order. |
| `ImageFilters.FilterSaveElement` | src/visua11y-infographic/tools/extend-image.js:208-278 | The `blocks.getSaveElement` chain, editor filter first. Without the guard the element is returned unchanged. When the guard holds, the figure keeps its type, props and child count. Every `img` child, and every `img` grandchild under an element child, carries `aria-describedby` equal to the `ariaDescribedby` attribute. |
| `ImageFilters.FilterSaveElementWellFormed` | src/visua11y-infographic/tools/extend-image.js:180-269 | When no element's `props` carry a `children` key of their own, the filter chain's output has none either: the filters add only `aria-describedby` and write children through `props.children`. |
| `DescribedByPanel.Split` | src/visua11y-infographic/tools/extend-image.js:44 | `split(' ')` always yields at least one piece, and no piece contains a space. |
| `DescribedByPanel.LoadTokens` | src/visua11y-infographic/tools/extend-image.js:43-45 | The panel loads no tokens exactly when the attribute string is empty. |
| `DescribedByPanel.JoinSplit` | src/visua11y-infographic/tools/extend-image.js:44 | Joining the pieces of `s.split(' ')` with single spaces gives back `s`. |
| `DescribedByPanel.SplitJoin` | src/visua11y-infographic/tools/extend-image.js:61 | For a non-empty token list with no spaces in any token, `split(' ')` after `join(' ')` gives back the list. |
| `DescribedByPanel.JoinLoadRoundTrip` | src/visua11y-infographic/tools/extend-image.js:43-61 | Joining tokens without spaces and loading the result gives back the same tokens. This holds exactly when the list is not `[""]`, which joins to `''` and loads as no tokens. |
| `DescribedByPanel.SaveTokens` | src/visua11y-infographic/tools/extend-image.js:60-63 | `handleSave` stores `tokens.join(' ')`. For tokens without spaces, loading the panel again gives back the same tokens exactly when the list is not `[""]`. |
| `DescribedByPanel.AttributeRoundTrip` | src/visua11y-infographic/tools/extend-image.js:43-61 | Loading the attribute and saving the tokens unedited gives back the attribute string. |
| `DescribedByPanel.CollectAnchors` | src/visua11y-infographic/tools/extend-image.js:50-58 | Every collected anchor is truthy. There are at most as many entries as blocks. |
| `DescribedByPanel.CollectAnchorsAppend` | src/visua11y-infographic/tools/extend-image.js:52-57 | Collection distributes over concatenation of block lists, so entries appear in block order. |
| `DescribedByPanel.CollectAnchorsMembers` | src/visua11y-infographic/tools/extend-image.js:52-57 | An entry is collected if and only if some block has that truthy anchor and that client id. |
| `DescribedByPanel.FindByAnchor` | src/visua11y-infographic/tools/extend-image.js:67-69 | Finds nothing exactly when no entry's anchor is the token. Otherwise it returns an entry whose anchor is the token, and no earlier entry matches. |
| `DescribedByPanel.FirstAnchorMatch` | src/visua11y-infographic/tools/extend-image.js:50-69 | Looking a token up among the collected anchors finds nothing exactly when the token is empty or no block has that anchor. Otherwise it finds the entry of the first block, in list order, whose anchor is the token. |
| `DescribedByPanel.AnchorClickTarget` | src/visua11y-infographic/tools/extend-image.js:65-71 | A click on a token selects nothing exactly when the token is empty or no block has that anchor. Otherwise it selects the client id of the first block, in list order, whose anchor is the token. |
| `AnchorGenerator.GenerateAnchor` | src/visua11y-infographic/lib/generateAnchor.js:1-7 | The result equals `AnchorFor(draws)`. It is 18 characters long and starts with `description-`. Character `12 + i` is `chars[draws[i]]`: the draws in draw order. |
| `AnchorGenerator.AlphabetPositions` | src/visua11y-infographic/lib/generateAnchor.js:3 | The alphabet has 62 characters: A-Z at 0-25, a-z at 26-51, 0-9 at 52-61. |
| `AnchorGenerator.Alphabet` | src/visua11y-infographic/lib/generateAnchor.js:3 | A character is in the alphabet if and only if it is alphanumeric. No character occurs twice. |
| `AnchorGenerator.AnchorForIsAnchor` | src/visua11y-infographic/lib/generateAnchor.js:2-6 | Every generated anchor is `description-` followed by exactly six alphanumeric characters. |
| `AnchorGenerator.DrawsOfAnchorFor` | src/visua11y-infographic/lib/generateAnchor.js:4-6 | Reading the draws back off a generated anchor recovers them, so distinct draws give distinct anchors. |
| `AnchorGenerator.AnchorForDrawsOf` | src/visua11y-infographic/lib/generateAnchor.js:4-6 | Every well-formed anchor (the prefix and six alphanumeric characters) is generated from the draws read off it, so every such anchor can occur. |

## Findings

| source | as written | input that shows it | evidently intended | confidence | as-written member | corrected member |
|---|---|---|---|---|---|---|
| src/visua11y-infographic/lib/blocksToTemplate.js:5 | `innerBlocksToTemplate` calls `convertInnerBlocksToTemplate`, which nothing defines. Any third-level block with `innerBlocks` (even `[]`) makes `blocksToTemplate` throw a `ReferenceError`. | a `core/columns` block whose `core/column` inner block holds a `core/paragraph` with `innerBlocks: []` | convert inner blocks recursively, to any depth, with an empty child list for blocks without inner blocks | high (not executed) | `Templates.ThirdLevelInnerBlocksThrow` | `Templates.ToTemplates` |

## Left out

- `Math.random()` and the float multiply and floor of `generateAnchor.js`: the six draws are a parameter, each an index in `[0, 62)`.
- The sidebar component `withAriaDescribedbyControl` (`extend-image.js:34-166`) is left out:
  - its React rendering (`PanelBody`, `FormTokenField`, `Button`, the links);
  - the `useState` and `useSelect` hooks;
  - `_n` pluralisation;
  - the suggestion list `allAnchors.map(item => item.anchor)`.

  Only its list logic is modelled: loading and saving tokens, anchor collection and anchor lookup.
- `selectBlock` dispatch and `document.querySelector(...).scrollIntoView(...)` are host and DOM calls. The model stops at the client id that would be selected (`AnchorClickTarget`).
- The `addFilter` registrations are not modelled as calls into the hook system. Only the order in which both `blocks.getSaveElement` filters run is modelled (`FilterSaveElement`).
- `ImageFilters.AddAriaDescribedbyAttribute`: if `settings.attributes` is an array or a string, spreading it copies its index keys; the model copies nothing. For objects, `undefined`, `null`, booleans and numbers the model is exact.
- `CollectAnchors` models `getBlocks()`, which returns top-level blocks only; anchors of nested blocks are not offered as suggestions and cannot be found by a click.
- `ImageFilters.ApplyAriaDescribedbyToEditor`: an element is always an object with props. The case of a `null` or `undefined` element, or one without `props`, is not represented. For a `core/image` block with a truthy `ariaDescribedby`, the editor filter throws a `TypeError` on a `null` or `undefined` element, or on a `figure` element without `props`; a props-less element of any other type is returned unchanged, because the `type === 'figure'` test fails before `props.children` is read. The save filter checks `element && element.props` first and returns all of these unchanged.
- An `Elem` whose `props` map holds a `"children"` key stands for no JavaScript element and is outside the model; `Elements.WellFormed` names the values that do, and `FilterSaveElementWellFormed` shows the filters keep to them.
- Children that are `true`, numbers or nested arrays are not represented. Both filters leave such children unchanged, since they have no `type` or `props`.
- JavaScript numbers are modelled as integers: `NaN` and fractions are not represented. An element's `type` is a string, also for component types.
- Attribute copies (`{ ...block.attributes }`, `{ ...child.props }`) are values. Aliasing cannot arise, so "later mutation does not leak" holds trivially and is not stated separately.
- `edit.js` (the composing block's UI) is not part of this model, and neither are `LabeledSeparator.js`, `getMarkup.js` (a fixed markup fixture), `showSnackbar.js` (a wrapper over the notices store) and the plugin bootstrap in `visua11y-infographic.php`.
- The remote analysis request, the markup parser and the section composer do not appear in these source files, so they are not part of this model.
