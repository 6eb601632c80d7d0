# sherpa_41 document and paint core, in Dafny

This project models the document and paint core of the sherpa_41 browser
engine, and proves properties of that model.

- **Attribute map** (`Dom`, in `dom.dfy`). A map from attribute name to value
  in which the first write wins. It keeps the names in first-insertion order
  and serialises itself as `name="value"` pairs in that order. The source
  updates it in place, so it is the class `Dom.AttributeMap`, with fields `m`
  and `order` and a `Valid()` invariant. Element nodes hold its value,
  `Dom.Attributes`.
- **Document nodes** (`Dom`). Element, text and comment nodes form a closed
  datatype. Text and comment nodes carry the fixed tags `"TEXT NODE"` and
  `"COMMENT NODE"`. `clone` copies the tree structurally. The `ElementNode`
  constructor and `getChildren` are methods whose loops clone child by child.
  The element views `getId` and `getClasses` are functions. `getClasses`
  splits the value of `class` the way `>>` on an `std::istringstream` does.
- **Display-list builder** (`Display`, in `display.dfy`). A pre-order walk of
  the box tree. For each box it paints at most one background rectangle, then
  zero or four border rectangles (top, right, bottom, left), then its children
  in order. `renderBox`, `renderBackground` and `renderBorders` append to a
  queue passed by reference. Here each is a method that takes the queue and
  returns it extended. Each method is proved equal to a specification
  function (`Background`, `Borders`, `Paint`).
- **`Parser::rtrim`** (`Parser`, in `parser.dfy`). It removes trailing
  whitespace.

`Chars` (in `chars.dfy`) defines whitespace. It is the six characters that
`std::isspace` accepts in the "C" locale. `Wrappers` (in `wrappers.dfy`)
holds `Option`.

**Assumption about the style lookup.** The CSS module is not part of this
model. That includes `value(style, backup...)`, which `getColor` calls. The
model takes a styled box's style to be a map of declared values.
`Display.Lookup` returns the value of the first name in the fallback chain
that the style declares. Every fallback property below depends on this
assumption.

Two consequences of the code are worth stating:

- Suppose a styled box declares the colour `background` and neither of
  the other two colour names. It also gets four border rectangles in that
  colour, because the border colour chain (src/display.cpp:61) ends in
  `background`. With zero thickness those rectangles have no area
  (`Display.BackgroundOnlyBox`).
- Take a top-only border of thickness 1. The right and left rectangles keep
  the border area's full height and have zero width
  (src/display.cpp:76-90). So only the top rectangle has non-zero area
  (`Display.TopOnlyBorder`).

## Model

| member | source | states |
|---|---|---|
| `Dom.Inserted` | src/dom.cpp:18-23 | The value `insert` leaves behind. The name is present, with its old value if it had one and the new value otherwise. All other entries are kept, nothing else is added, and a new name goes to the end of `order`. |
| `Dom.AttributeMap.Insert` | src/dom.cpp:18-23 | A name already present leaves the map and the order unchanged (first write wins). A new name adds exactly that pair and goes to the end of `order`. The invariant is kept. |
| `Dom.InsertedWellFormed` | src/dom.cpp:19-22 | Insertion keeps the invariant: `order` has no duplicates and holds exactly the map's keys. |
| `Dom.BuildOrder` | src/dom.cpp:18-23 | Inserting pairs with distinct names one by one gives a well-formed map whose `order` is the names in declaration order. |
| `Dom.BuildFirstWins` | src/dom.cpp:19 | After a whole sequence of insertions, a name maps to the value given at its first occurrence. |
| `Dom.BuildLacks` | src/dom.cpp:18-23 | A name that no insertion mentions is not in the map. |
| `Dom.Print` | src/dom.cpp:25-38 | `print` gives `""` exactly when the map is empty. Its full result is stated by `PrintInserted` and `PrintBuild`. |
| `Dom.PrintInserted` | src/dom.cpp:25-38 | After inserting a new name, the printout is the old printout, one space (omitted if the map was empty), then `name="value"`. Re-inserting a present name does not change the printout. |
| `Dom.PrintBuild` | src/dom.cpp:30-37 | For distinct names, printing gives the `name="value"` pairs in declaration order, joined by single spaces. Values are not escaped. |
| `Dom.TagName` | src/dom.cpp:64-66 | An element's own tag, or the sentinel `"TEXT NODE"` or `"COMMENT NODE"` (lines 73, 103-104). A sentinel contains a space, so it is never a whitespace-free tag. |
| `Dom.Is` | src/dom.cpp:56-58 | An element matches exactly its own tag. A text or comment node never matches a whitespace-free tag. |
| `Dom.SentinelsIdentifyKind` | src/dom.cpp:56-104 | `is(c)` is `tagName() == c`, with sentinel tags for text (line 73) and comment (lines 103-104) nodes. Given whitespace-free element tags, `is("TEXT NODE")` holds only for text nodes and `is("COMMENT NODE")` only for comment nodes. |
| `Dom.GetText` | src/dom.cpp:79-81 | A text node rebuilt from its returned text is the node itself. |
| `Dom.GetComment` | src/dom.cpp:110-112 | A comment node rebuilt from its returned comment is the node itself. |
| `Dom.Clone` | src/dom.cpp:95-128 | A clone of a text or comment node (and, through `CloneElement`, of an element) is structurally equal to the original node. |
| `Dom.CloneElement` | src/dom.cpp:200-202 | An element's clone has the same tag and attributes, and equal children in the same order and number. |
| `Dom.CloneAll` | src/dom.cpp:141-142 | Cloning each child in turn gives a list equal to the children. |
| `Dom.NewElement` | src/dom.cpp:136-143 | The constructed element keeps the tag and attributes. Its children equal the given ones, with the same count and order. |
| `Dom.GetChildren` | src/dom.cpp:149-154 | The snapshot has as many nodes as the element has children, and each equals the child at the same position. |
| `Dom.GetAttributes` | src/dom.cpp:160-162 | The element's printed attribute map. It is `""` exactly when the element has no attributes. |
| `Dom.GetId` | src/dom.cpp:168-171 | The value of `id`, or `""` when there is no `id`. |
| `Dom.GetIdDeclared` | src/dom.cpp:168-171 | For attributes built from declarations: the value of the first declared `id`, or `""` if no declaration names `id`. |
| `Dom.GetClasses` | src/dom.cpp:177-186 | No classes without a `class` attribute. Otherwise every class is non-empty and contains no whitespace. |
| `Dom.Split` | src/dom.cpp:182-185 | Every word extracted is non-empty and free of whitespace. |
| `Dom.SplitDecomposes` | src/dom.cpp:182-185 | Any string equals its words laid out between whitespace gaps, where the gaps between words are non-empty. No non-whitespace character is lost. |
| `Dom.SplitInterleave` | src/dom.cpp:182-185 | Words laid out between such gaps split back into exactly those words. With `SplitDecomposes`, the words are the maximal non-whitespace runs, in order. |
| `Dom.SplitAllSpace` | src/dom.cpp:182-185 | A whitespace-only value has no words. For `class`, that means no classes. |
| `Dom.GetClassesWords` | src/dom.cpp:177-186 | If the `class` value is words laid out between whitespace gaps, the classes are exactly those words. Runs of separators collapse, and leading or trailing whitespace adds no empty class. |
| `Dom.AcceptVisitor` | src/dom.cpp:87-89 | An element reaches the visitor's element operation, a text node its text operation and a comment node its comment operation. Each is called with that node's own content. The other kinds' `acceptVisitor` are at lines 118-120 and 192-194. |
| `Dom.AcceptVisitorDispatch` | src/dom.cpp:192-194 | Each node kind reaches its own visitor operation with its own content. The kinds' `acceptVisitor` are at lines 87-89, 118-120 and 192-194. Rebuilding from what the visitor receives gives back the node. |
| `Display.Lookup` | src/display.cpp:107 | The assumed CSS lookup: the value of the first declared name in the chain, or nothing when no name of the chain is declared. |
| `Display.StyleValue` | src/display.cpp:102-111 | `getColor`. A box without style gives nothing. A styled box gives the value the style lookup returns for the chain, of whatever kind, or nothing. |
| `Display.StyleValueFirstDeclared` | src/display.cpp:102-111 | In terms of the declarations: nothing without style. For a styled box, the value of the first declared name of the chain, or nothing if no name of the chain is declared. |
| `Display.ResolveColor` | src/display.cpp:50-52 | The colour cast the callers apply to `getColor`'s result: at line 52 for the background and at lines 61-63 for the borders. There is a colour exactly when the style value exists and is a colour value, and it is that value's colour. |
| `Display.Command.GetRectangle` | src/display.cpp:130-132 | The command rebuilt from the returned rectangle and its colour is the command itself. |
| `Display.Command.GetColor` | src/display.cpp:138-140 | The command rebuilt from its rectangle and the returned colour is the command itself. |
| `Display.RectangleCmdStores` | src/display.cpp:118-140 | `getRectangle` and `getColor` return the rectangle and colour given to the constructor. |
| `Display.AcceptRenderer` | src/display.cpp:122-124 | The result is the renderer's rectangle operation applied to the command itself. `AcceptRendererPassesCommand` exhibits this with a recording renderer. |
| `Display.AcceptRendererPassesCommand` | src/display.cpp:122-124 | The renderer's rectangle operation receives the command itself. |
| `Display.Background` | src/display.cpp:48-56 | No command when the background chain resolves no colour. Otherwise exactly one command: the padding area in that colour. |
| `Display.Borders` | src/display.cpp:58-91 | No border commands without a border colour. Otherwise exactly four: the edge rectangles in order, all in that one colour, whatever the thicknesses. |
| `Display.Paint` | src/display.cpp:31-41 | A box's own commands come first in its subtree's commands. A box without children paints only its own. |
| `Display.RenderBackground` | src/display.cpp:48-56 | Appends `Background(box)` to the queue and changes nothing already in it. |
| `Display.RenderBorders` | src/display.cpp:58-91 | Appends `Borders(box)` to the queue: the top, right, bottom and left edges in that order, or nothing. |
| `Display.RenderBox` | src/display.cpp:31-41 | Appends `Paint(box)`: the box's background, then its borders, then each child's subtree in child order. |
| `Display.CreateQueue` | src/display.cpp:20-24 | The queue is exactly what `RenderBox` appends to an empty queue, i.e. `Paint(root)`. |
| `Display.PaintIsPreorder` | src/display.cpp:31-41 | The queue is the concatenation of each box's own commands in pre-order. A box's own commands come before all of its descendants' commands. |
| `Display.PaintAllIsPreorder` | src/display.cpp:37-40 | For a run of siblings, the commands are their boxes' own commands in the pre-order of the siblings' subtrees. |
| `Display.PaintAllAppend` | src/display.cpp:37-40 | Two runs of siblings paint one run after the other. |
| `Display.PaintAllSiblings` | src/display.cpp:37-40 | The commands of earlier siblings come first, then the whole subtree of sibling `i`, then the later siblings. |
| `Display.OwnCount` | src/display.cpp:31-33 | A box itself paints at most one background and either zero or four borders, so 0, 1, 4 or 5 commands. |
| `Display.BackgroundFallback` | src/display.cpp:48-56 | Uses `background-color` when declared, else `background`. The result is a rectangle over the padding area if the chosen value is a colour, and nothing if it is not or neither name is declared. |
| `Display.BorderFallback` | src/display.cpp:58-66 | The border colour is the first declared of `border-color`, `background-color`, `background`. A declared non-colour `border-color` therefore suppresses the borders. If none is declared, there are no borders. |
| `Display.BorderGeometry` | src/display.cpp:70-90 | Top: `(b.x, b.y, b.w, top)`. Right: `(b.x+b.w-right, b.y, right, b.h)`. Bottom: `(b.x, b.y+b.h-bottom, b.w, bottom)`. Left: `(b.x, b.y, left, b.h)`. Each is flush with its side of the border area. |
| `Display.TopOnlyBorder` | src/display.cpp:70-90 | With edges {1,0,0,0} around a non-empty area, all four rectangles are still emitted, and only the top one has non-zero area. |
| `Display.UnstyledPaintsOnlyChildren` | src/display.cpp:106-110 | A box without style paints nothing itself. Its children are still painted, in order. |
| `Display.BackgroundOnlyBox` | src/display.cpp:58-66 | Take any style that declares `background` as a colour and declares neither `border-color` nor `background-color`. Other properties may be declared. The box paints five commands: its padding area in that colour, then the four edge rectangles in the same colour. If all four thicknesses are 0, those four have zero area. |
| `Parser.RTrim` | src/parser/parser.h:98-105 | The result is a prefix of the input and does not end in whitespace. Everything removed is whitespace. |
| `Parser.RTrimUnique` | src/parser/parser.h:98-105 | Any prefix with those three properties is the result: the contract fully determines `rtrim`. |
| `Parser.RTrimNoTrailingSpace` | src/parser/parser.h:100-103 | A string that does not end in whitespace is returned unchanged. |
| `Parser.RTrimIdempotent` | src/parser/parser.h:98-105 | Trimming twice gives the same result as trimming once. |
| `Parser.RTrimAllSpace` | src/parser/parser.h:101 | An all-whitespace string trims to `""`. |
| `Parser.RTrimIgnoresTrailingSpace` | src/parser/parser.h:100-103 | Appending whitespace does not change the result. |

## Left out

- The HTML parser (`src/parser/html.h`) and the cursor members of the base
  parser (`build`, `build_until`, `consume`, `consume_whitespace`, `pushPtr`,
  `peek`, `eof`) are not modelled: `src/parser/html.h` and `src/parser/parser.h`
  only declare them, and their definitions are not part of this model.
- The Canvas rasteriser is not part of this model. Its tests (alpha blending,
  the whole parse → style → layout → canvas pipeline) are left out with it.
- The CSS module's `value(style, backup...)` is not part of this model.
  Its first-declared-wins semantics is the assumption stated above
  (`Display.Lookup`).
- Layout internals are not part of this model. That covers `StyledBox`,
  `AnonymousBox` and how `BoxDimensions` computes the padding and border
  areas. A box here carries its padding area, border area and edge sizes as
  given values. Coordinates are unbounded `int`. The width and rounding of
  `Layout::Rectangle`'s coordinate type are not part of this model, so any
  overflow or rounding in the builder's additions and subtractions is not
  modelled.
- The colour's alpha is a `real`. It is copied and never interpreted.
  Floating-point rounding is not modelled.
- The `TODO: renderText` step is not implemented in the source.
- Visitor and Renderer class hierarchies and `dynamic_cast` become closed
  datatypes and `match`. A visitor or renderer is a record of functions.
  A renderer passes its own state along explicitly.
- `unique_ptr` ownership and heap allocation are not modelled. Nodes are
  values, so a clone (or a `getChildren` snapshot) is equal to its original,
  and mutating it cannot reach the original.
- Dom.GetChildren: the model does not show that the returned nodes are
  distinct heap objects. Under value semantics there is nothing else to
  observe.
- Dom.Print requires the map invariant. The source tests the map for
  emptiness and then reads `order.front()`, and it looks up each name with
  `operator[]`. Without the invariant, the first step is undefined and the
  second would insert an empty value. Both are unreachable while the
  invariant holds: `Insert` keeps it, and an element's attributes have the
  type `Dom.AttributeValue`, which carries it.
- The class `Dom.AttributeMap` has no print member. Printing is defined on
  its value (`Dom.Print` of `Value()`), which is what element nodes hold.
- Whitespace is the "C" locale's (`Chars.IsSpace`). Other locales, and
  `std::isspace` on negative `char` values, are not modelled.
- `Node::~Node`, `Command::~Command` and the other destructors have no
  observable behaviour here.
