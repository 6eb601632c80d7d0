/**
 * The display-list builder: a pre-order walk of a laid-out box tree that
 * appends rectangle paint commands (background, then four borders, then the
 * children) to a first-in first-out command queue.
 */
module Display {
  import opened Wrappers

  // ---------------------------------------------------------------------
  // Inputs from layout and style
  // ---------------------------------------------------------------------

  /** A layout rectangle: origin and size. */
  datatype Rect = Rect(x: int, y: int, width: int, height: int)

  /** Border thickness on each edge. */
  datatype EdgeSizes = EdgeSizes(top: int, right: int, bottom: int, left: int)

  /** The parts of a box's dimensions the builder reads. */
  datatype Dimensions = Dimensions(paddingArea: Rect, borderArea: Rect, border: EdgeSizes)

  /** A colour: three channels and an alpha, copied and never interpreted here. */
  datatype Color = Color(r: int, g: int, b: int, a: real)

  /** A specified style value: a colour or any other kind of value. */
  datatype Value = ColorValue(color: Color) | Other

  /** The declared properties of a styled box, by property name. */
  type Declarations = map<string, Value>

  /**
   * A laid-out box: the style of a styled box (`None` for a box without
   * style, such as an anonymous box), its dimensions and its children.
   */
  datatype Box = Box(style: Option<Declarations>, dimensions: Dimensions, children: seq<Box>)

  /**
   * The style lookup with fallback names: the value of the first name in
   * `names` that the style declares, or nothing when it declares none.
   */
  function Lookup(decls: Declarations, names: seq<string>): (v: Option<Value>)
    ensures v.None? <==> forall i :: 0 <= i < |names| ==> names[i] !in decls
    ensures v.Some? ==>
              exists i :: 0 <= i < |names| && names[i] in decls && v.value == decls[names[i]] &&
                          forall j :: 0 <= j < i ==> names[j] !in decls
  {
    if names == [] then None
    else if names[0] in decls then Some(decls[names[0]])
    else Lookup(decls, names[1..])
  }

  /**
   * `Command::getColor`: the style value (a copy of it) that a styled box
   * declares for the first declared name of the chain, or nothing for a box
   * without style or when no name of the chain is declared. It does not look
   * at the kind of the value.
   */
  function StyleValue(box: Box, names: seq<string>): (v: Option<Value>)
    ensures box.style.None? ==> v.None?
    ensures box.style.Some? ==> v == Lookup(box.style.value, names)
  {
    match box.style
    case None => None
    case Some(decls) => Lookup(decls, names)
  }

  /**
   * The style value in terms of the declarations: nothing for a box without
   * style; otherwise the value of the first declared name of the chain, and
   * nothing when no name of the chain is declared.
   */
  lemma StyleValueFirstDeclared(box: Box, names: seq<string>, i: nat)
    ensures box.style.None? ==> StyleValue(box, names) == None
    ensures box.style.Some? && i < |names| && names[i] in box.style.value &&
            (forall j :: 0 <= j < i ==> names[j] !in box.style.value) ==>
              StyleValue(box, names) == Some(box.style.value[names[i]])
    ensures box.style.Some? && (forall j :: 0 <= j < |names| ==> names[j] !in box.style.value) ==>
              StyleValue(box, names) == None
  {
    if box.style.Some? && i < |names| && names[i] in box.style.value &&
       (forall j :: 0 <= j < i ==> names[j] !in box.style.value) {
      var decls := box.style.value;
      var v := Lookup(decls, names);
      var k :| 0 <= k < |names| && names[k] in decls && v.value == decls[names[k]] &&
               forall j :: 0 <= j < k ==> names[j] !in decls;
      assert k == i;
    }
  }

  /**
   * The colour cast that `renderBackground` and `renderBorders` apply to the
   * style value: its colour when it is a colour value, nothing otherwise.
   */
  function ResolveColor(box: Box, names: seq<string>): (c: Option<Color>)
    ensures c.Some? <==> StyleValue(box, names).Some? && StyleValue(box, names).value.ColorValue?
    ensures c.Some? ==> StyleValue(box, names) == Some(ColorValue(c.value))
  {
    match StyleValue(box, names)
    case Some(v) => AsColor(v)
    case None => None
  }

  /** The colour of a value, if it is one. */
  function AsColor(v: Value): Option<Color> {
    match v
    case ColorValue(c) => Some(c)
    case Other => None
  }

  // ---------------------------------------------------------------------
  // Commands
  // ---------------------------------------------------------------------

  /** A paint command: a rectangle filled with a colour. */
  datatype Command = RectangleCmd(rectangle: Rect, color: Color) {
    /** `RectangleCmd::getRectangle`. */
    function GetRectangle(): (r: Rect)
      ensures RectangleCmd(r, color) == this
    {
      rectangle
    }

    /** `RectangleCmd::getColor`; the static `Command::getColor` is `StyleValue`. */
    function GetColor(): (c: Color)
      ensures RectangleCmd(rectangle, c) == this
    {
      color
    }
  }

  /** The constructor stores its arguments and the getters return them. */
  lemma RectangleCmdStores(r: Rect, c: Color)
    ensures RectangleCmd(r, c).GetRectangle() == r
    ensures RectangleCmd(r, c).GetColor() == c
  {
  }

  /** A renderer: one paint operation per command kind, threading its own state. */
  datatype Renderer<!S> = Renderer(renderRectangle: (S, Command) -> S)

  /** `RectangleCmd::acceptRenderer`: the command hands itself to the rectangle operation. */
  function AcceptRenderer<S>(cmd: Command, renderer: Renderer<S>, state: S): (s: S)
    ensures s == renderer.renderRectangle(state, cmd)
  {
    match cmd
    case RectangleCmd(_, _) => renderer.renderRectangle(state, cmd)
  }

  /** Dispatch passes the command itself, unchanged, to the renderer. */
  lemma AcceptRendererPassesCommand(cmd: Command)
    ensures AcceptRenderer(cmd, Renderer((s: seq<Command>, c: Command) => s + [c]), []) == [cmd]
  {
  }

  // ---------------------------------------------------------------------
  // What each box paints
  // ---------------------------------------------------------------------

  /** The fallback chain of the background colour. */
  const BackgroundNames: seq<string> := ["background-color", "background"]
  /** The fallback chain of the border colour. */
  const BorderNames: seq<string> := ["border-color", "background-color", "background"]

  /** The background command of a box: its padding area in the resolved colour, if any. */
  function Background(box: Box): (cmds: seq<Command>)
    ensures cmds == [] <==> ResolveColor(box, BackgroundNames).None?
    ensures cmds != [] ==>
              cmds == [RectangleCmd(box.dimensions.paddingArea, ResolveColor(box, BackgroundNames).value)]
  {
    match ResolveColor(box, BackgroundNames)
    case Some(c) => [RectangleCmd(box.dimensions.paddingArea, c)]
    case None => []
  }

  /** The four border rectangles, top, right, bottom, left, cut from the border area. */
  function BorderRects(d: Dimensions): seq<Rect> {
    var b, e := d.borderArea, d.border;
    [ Rect(b.x, b.y, b.width, e.top),
      Rect(b.x + b.width - e.right, b.y, e.right, b.height),
      Rect(b.x, b.y + b.height - e.bottom, b.width, e.bottom),
      Rect(b.x, b.y, e.left, b.height) ]
  }

  /** The border commands of a box: none, or all four edges in the resolved colour. */
  function Borders(box: Box): (cmds: seq<Command>)
    ensures cmds == [] <==> ResolveColor(box, BorderNames).None?
    ensures cmds != [] ==>
              |cmds| == 4 &&
              forall k :: 0 <= k < 4 ==>
                cmds[k] == RectangleCmd(BorderRects(box.dimensions)[k], ResolveColor(box, BorderNames).value)
  {
    match ResolveColor(box, BorderNames)
    case Some(c) =>
      var r := BorderRects(box.dimensions);
      [RectangleCmd(r[0], c), RectangleCmd(r[1], c), RectangleCmd(r[2], c), RectangleCmd(r[3], c)]
    case None => []
  }

  /** The commands a box paints itself: background, then borders. */
  function Own(box: Box): seq<Command> {
    Background(box) + Borders(box)
  }

  /** Everything painted for a box's subtree: its own commands, then each child's subtree. */
  function Paint(box: Box): (cmds: seq<Command>)
    ensures Own(box) <= cmds
    ensures box.children == [] ==> cmds == Own(box)
  {
    Own(box) + PaintAll(box.children)
  }

  /** The subtrees of a sequence of sibling boxes, earlier siblings first. */
  function PaintAll(boxes: seq<Box>): seq<Command> {
    if boxes == [] then [] else Paint(boxes[0]) + PaintAll(boxes[1..])
  }

  // ---------------------------------------------------------------------
  // The builder
  // ---------------------------------------------------------------------

  /** `Command::renderBackground`: appends the box's background command, if any. */
  method RenderBackground(box: Box, queue: seq<Command>) returns (queue': seq<Command>)
    ensures queue' == queue + Background(box)
  {
    var value := StyleValue(box, BackgroundNames);
    queue' := queue;
    // only a colour value paints a background
    if value.Some? && value.value.ColorValue? {
      queue' := queue' + [RectangleCmd(box.dimensions.paddingArea, value.value.color)];
    }
  }

  /**
   * `Command::renderBorders`: appends nothing without a border colour,
   * otherwise the top, right, bottom and left edges, in that order.
   */
  method RenderBorders(box: Box, queue: seq<Command>) returns (queue': seq<Command>)
    ensures queue' == queue + Borders(box)
  {
    var value := StyleValue(box, BorderNames);
    queue' := queue;
    if !(value.Some? && value.value.ColorValue?) {
      return;
    }
    var c := value.value.color;
    var dims := box.dimensions;
    var area := dims.borderArea;
    queue' := queue' + [RectangleCmd(Rect(area.x, area.y, area.width, dims.border.top), c)];
    queue' := queue' + [RectangleCmd(Rect(area.x + area.width - dims.border.right, area.y,
                                          dims.border.right, area.height), c)];
    queue' := queue' + [RectangleCmd(Rect(area.x, area.y + area.height - dims.border.bottom,
                                          area.width, dims.border.bottom), c)];
    queue' := queue' + [RectangleCmd(Rect(area.x, area.y, dims.border.left, area.height), c)];
  }

  /** Painting the first `i + 1` siblings is painting the first `i`, then sibling `i`. */
  lemma PaintAllSnoc(boxes: seq<Box>, i: nat)
    requires i < |boxes|
    ensures PaintAll(boxes[..i + 1]) == PaintAll(boxes[..i]) + Paint(boxes[i])
  {
    assert boxes[..i + 1] == boxes[..i] + [boxes[i]];
    PaintAllAppend(boxes[..i], [boxes[i]]);
  }

  /**
   * `Command::renderBox`: appends the box's background and border commands,
   * then renders each child in order onto the same queue.
   */
  method RenderBox(box: Box, queue: seq<Command>) returns (queue': seq<Command>)
    ensures queue' == queue + Paint(box)
    decreases box
  {
    var afterBackground := RenderBackground(box, queue);
    queue' := RenderBorders(box, afterBackground);
    AppendAssoc(queue, Background(box), Borders(box));
    ghost var own := queue';
    // each child's subtree is appended after the box's own commands
    var children := box.children;
    for i := 0 to |children|
      invariant queue' == own + PaintAll(children[..i])
    {
      PaintAllSnoc(children, i);
      queue' := RenderBox(children[i], queue');
      AppendAssoc(own, PaintAll(children[..i]), Paint(children[i]));
    }
    assert children[..|children|] == children;
    AppendAssoc(queue, Own(box), PaintAll(children));
  }

  /**
   * Concatenation is associative. A generic sequence fact that Dafny proves
   * unaided, not a property of the display list: it is a lemma only so that
   * the display-list proofs can name the instance they need cheaply.
   */
  lemma AppendAssoc<T>(a: seq<T>, b: seq<T>, c: seq<T>)
    ensures (a + b) + c == a + (b + c)
  {
  }

  /** `Command::createQueue`: renders the root onto an empty queue. */
  method CreateQueue(root: Box) returns (queue: seq<Command>)
    ensures queue == Paint(root)
  {
    queue := RenderBox(root, []);
  }

  // ---------------------------------------------------------------------
  // Properties of the display list
  // ---------------------------------------------------------------------

  /** Siblings paint one after another: the list of two runs of siblings is the two lists. */
  lemma {:induction false} PaintAllAppend(xs: seq<Box>, ys: seq<Box>)
    ensures PaintAll(xs + ys) == PaintAll(xs) + PaintAll(ys)
    decreases |xs|
  {
    if xs != [] {
      assert (xs + ys)[0] == xs[0];
      assert (xs + ys)[1..] == xs[1..] + ys;
      PaintAllAppend(xs[1..], ys);
      AppendAssoc(Paint(xs[0]), PaintAll(xs[1..]), PaintAll(ys));
    } else {
      assert xs + ys == ys;
    }
  }

  /**
   * Sibling order: the commands of all earlier siblings come first, then
   * the whole subtree of sibling `i`, then the later siblings.
   */
  lemma PaintAllSiblings(boxes: seq<Box>, i: nat)
    requires i < |boxes|
    ensures PaintAll(boxes) == PaintAll(boxes[..i]) + Paint(boxes[i]) + PaintAll(boxes[i + 1..])
  {
    PaintAllSplit(boxes, i);
    PaintAllDrop(boxes, i);
    AppendAssoc(PaintAll(boxes[..i]), Paint(boxes[i]), PaintAll(boxes[i + 1..]));
  }

  /** Painting the siblings is painting those before position `i`, then the others. */
  lemma PaintAllSplit(boxes: seq<Box>, i: nat)
    requires i <= |boxes|
    ensures PaintAll(boxes) == PaintAll(boxes[..i]) + PaintAll(boxes[i..])
  {
    TakeDrop(boxes, i);
    PaintAllAppend(boxes[..i], boxes[i..]);
  }

  /**
   * A sequence is its first `i` elements followed by the rest. Like
   * `AppendAssoc`, a generic fact stated only as a hint for the proofs above.
   */
  lemma TakeDrop<T>(s: seq<T>, i: nat)
    requires i <= |s|
    ensures s[..i] + s[i..] == s
  {
  }

  /** The siblings from position `i` on paint sibling `i`, then those after it. */
  lemma PaintAllDrop(boxes: seq<Box>, i: nat)
    requires i < |boxes|
    ensures PaintAll(boxes[i..]) == Paint(boxes[i]) + PaintAll(boxes[i + 1..])
  {
    assert boxes[i..][1..] == boxes[i + 1..];
  }

  /** The boxes of a subtree in pre-order: the box, then its children's subtrees in order. */
  function Preorder(box: Box): (boxes: seq<Box>)
    ensures |boxes| > 0 && boxes[0] == box
  {
    [box] + PreorderAll(box.children)
  }

  /** The pre-orders of a sequence of siblings, one after another. */
  function PreorderAll(boxes: seq<Box>): seq<Box> {
    if boxes == [] then [] else Preorder(boxes[0]) + PreorderAll(boxes[1..])
  }

  /** Each box's own commands, concatenated in the order of `boxes`. */
  function OwnAll(boxes: seq<Box>): seq<Command> {
    if boxes == [] then [] else Own(boxes[0]) + OwnAll(boxes[1..])
  }

  lemma {:induction false} OwnAllAppend(xs: seq<Box>, ys: seq<Box>)
    ensures OwnAll(xs + ys) == OwnAll(xs) + OwnAll(ys)
    decreases |xs|
  {
    if xs != [] {
      assert (xs + ys)[0] == xs[0];
      assert (xs + ys)[1..] == xs[1..] + ys;
      OwnAllAppend(xs[1..], ys);
      AppendAssoc(Own(xs[0]), OwnAll(xs[1..]), OwnAll(ys));
    } else {
      assert xs + ys == ys;
    }
  }

  /**
   * The queue is pre-order paint order: the concatenation of every box's own
   * commands, visiting each box before its descendants and earlier siblings'
   * subtrees before later ones.
   */
  lemma {:induction false} PaintIsPreorder(box: Box)
    ensures Paint(box) == OwnAll(Preorder(box))
    decreases box, 1
  {
    PaintAllIsPreorder(box.children);
    OwnAllAppend([box], PreorderAll(box.children));
  }

  lemma {:induction false} PaintAllIsPreorder(boxes: seq<Box>)
    ensures PaintAll(boxes) == OwnAll(PreorderAll(boxes))
    decreases boxes, 0
  {
    if boxes != [] {
      PaintIsPreorder(boxes[0]);
      PaintAllIsPreorder(boxes[1..]);
      OwnAllAppend(Preorder(boxes[0]), PreorderAll(boxes[1..]));
    }
  }

  /**
   * Background fallback: `background-color` wins when declared; otherwise
   * `background` is used; the command is the padding area in that colour,
   * and there is none when the chosen value is not a colour or neither name
   * is declared.
   */
  lemma BackgroundFallback(box: Box, decls: Declarations)
    requires box.style == Some(decls)
    ensures "background-color" in decls ==>
              Background(box) == ColorCommand(decls["background-color"], box.dimensions.paddingArea)
    ensures "background-color" !in decls && "background" in decls ==>
              Background(box) == ColorCommand(decls["background"], box.dimensions.paddingArea)
    ensures "background-color" !in decls && "background" !in decls ==> Background(box) == []
  {
    if "background-color" !in decls {
      assert BackgroundNames[1..] == ["background"];
      assert Lookup(decls, BackgroundNames) == Lookup(decls, ["background"]);
    }
  }

  /** The paint command for a value: one rectangle if it is a colour, none otherwise. */
  function ColorCommand(v: Value, r: Rect): seq<Command> {
    match v
    case ColorValue(c) => [RectangleCmd(r, c)]
    case Other => []
  }

  /**
   * Border colour fallback: `border-color`, else `background-color`, else
   * `background`; the first declared one decides, so a declared border colour
   * that is not a colour suppresses the borders even when a background colour
   * is declared.
   */
  lemma BorderFallback(box: Box, decls: Declarations)
    requires box.style == Some(decls)
    ensures "border-color" in decls ==>
              ResolveColor(box, BorderNames) == AsColor(decls["border-color"])
    ensures "border-color" !in decls && "background-color" in decls ==>
              ResolveColor(box, BorderNames) == AsColor(decls["background-color"])
    ensures "border-color" !in decls && "background-color" !in decls && "background" in decls ==>
              ResolveColor(box, BorderNames) == AsColor(decls["background"])
    ensures "border-color" !in decls && "background-color" !in decls && "background" !in decls ==>
              Borders(box) == []
  {
    if "border-color" !in decls {
      assert BorderNames[1..] == ["background-color", "background"];
      assert Lookup(decls, BorderNames) == Lookup(decls, ["background-color", "background"]);
      if "background-color" !in decls {
        assert ["background-color", "background"][1..] == ["background"];
        assert Lookup(decls, BorderNames) == Lookup(decls, ["background"]);
      }
    }
  }

  /**
   * Border geometry: the top and bottom edges span the full width, the left
   * and right edges the full height; top and left sit at the origin, the
   * right edge ends at the area's right side and the bottom edge at its
   * bottom side, each as thick as its edge size.
   */
  lemma BorderGeometry(d: Dimensions)
    ensures var b, e, r := d.borderArea, d.border, BorderRects(d);
      && |r| == 4
      && r[0].x == b.x && r[0].y == b.y && r[0].width == b.width && r[0].height == e.top
      && r[1].x + r[1].width == b.x + b.width && r[1].y == b.y
      && r[1].width == e.right && r[1].height == b.height
      && r[2].x == b.x && r[2].y + r[2].height == b.y + b.height
      && r[2].width == b.width && r[2].height == e.bottom
      && r[3].x == b.x && r[3].y == b.y && r[3].width == e.left && r[3].height == b.height
  {
  }

  /** Area of a rectangle. */
  function Area(r: Rect): int {
    r.width * r.height
  }

  /**
   * A border of thickness one on top only, around a non-empty area: four
   * border rectangles, of which only the top one covers any area.
   */
  lemma TopOnlyBorder(box: Box)
    requires ResolveColor(box, BorderNames).Some?
    requires box.dimensions.border == EdgeSizes(1, 0, 0, 0)
    requires box.dimensions.borderArea.width > 0 && box.dimensions.borderArea.height > 0
    ensures |Borders(box)| == 4
    ensures Area(Borders(box)[0].rectangle) > 0
    ensures forall k :: 1 <= k < 4 ==> Area(Borders(box)[k].rectangle) == 0
  {
  }

  /** Boxes without style paint nothing themselves; their children still paint. */
  lemma UnstyledPaintsOnlyChildren(box: Box)
    requires box.style.None?
    ensures Own(box) == []
    ensures Paint(box) == PaintAll(box.children)
  {
  }

  /** A box paints at most one background and either zero or four borders. */
  lemma OwnCount(box: Box)
    ensures |Background(box)| <= 1
    ensures |Borders(box)| == 0 || |Borders(box)| == 4
    ensures |Own(box)| in {0, 1, 4, 5}
  {
  }

  /**
   * A styled box that declares `background` as a colour but neither
   * `border-color` nor `background-color` paints its padding area in that
   * colour and, through the border fallback, all four border edges in the
   * same colour; with no border thickness those edges cover no area.
   */
  lemma BackgroundOnlyBox(box: Box, decls: Declarations, c: Color)
    requires box.style == Some(decls)
    requires "border-color" !in decls && "background-color" !in decls
    requires "background" in decls && decls["background"] == ColorValue(c)
    ensures |Own(box)| == 5
    ensures Own(box)[0] == RectangleCmd(box.dimensions.paddingArea, c)
    ensures forall k :: 1 <= k < 5 ==> Own(box)[k] == RectangleCmd(BorderRects(box.dimensions)[k - 1], c)
    ensures box.dimensions.border == EdgeSizes(0, 0, 0, 0) ==>
              forall k :: 1 <= k < 5 ==> Area(Own(box)[k].rectangle) == 0
  {
    BackgroundFallback(box, decls);
    BorderFallback(box, decls);
  }
}
