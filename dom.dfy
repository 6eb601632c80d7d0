/**
 * The document model: the insertion-ordered attribute map, the three node
 * kinds (element, text, comment), deep cloning, and the views an element
 * derives from its reserved `id` and `class` attributes.
 */
module Dom {
  import opened Chars

  // ---------------------------------------------------------------------
  // Attribute map
  // ---------------------------------------------------------------------

  /**
   * The value of an attribute map: the name-to-value mapping `m` and the
   * names in the order they were first inserted. An element node holds this
   * value (the source copies the map into the node and into each clone).
   */
  datatype Attributes = Attributes(m: map<string, string>, order: seq<string>)

  /** No name is recorded twice in the insertion order. */
  predicate NoDuplicates(s: seq<string>) {
    forall i, j :: 0 <= i < j < |s| ==> s[i] != s[j]
  }

  /** The map's invariant: `order` lists each key of `m` exactly once. */
  predicate WellFormed(a: Attributes) {
    && NoDuplicates(a.order)
    && (forall k :: k in a.order ==> k in a.m)
    && (forall k :: k in a.m ==> k in a.order)
  }

  /** An attribute map value that keeps the invariant, as every map built by `Insert` from the empty map does (`InsertedWellFormed`, `Build`). */
  type AttributeValue = a: Attributes | WellFormed(a) witness Attributes(map[], [])

  /** The map with no attributes. */
  function EmptyAttributes(): (a: Attributes)
    ensures WellFormed(a) && a.m == map[] && a.order == []
  {
    Attributes(map[], [])
  }

  /**
   * What inserting `name` with `value` does to the map's value: nothing when
   * `name` is already present (first write wins); otherwise the pair is added
   * and `name` goes to the end of the insertion order.
   */
  function Inserted(a: Attributes, name: string, value: string): (r: Attributes)
    ensures name in r.m && r.m[name] == (if name in a.m then a.m[name] else value)
    ensures forall k :: k in a.m ==> k in r.m && r.m[k] == a.m[k]
    ensures forall k :: k in r.m ==> k in a.m || k == name
    ensures r.order == (if name in a.m then a.order else a.order + [name])
  {
    if name in a.m then a else Attributes(a.m[name := value], a.order + [name])
  }

  /** Insertion keeps the invariant. */
  lemma InsertedWellFormed(a: Attributes, name: string, value: string)
    requires WellFormed(a)
    ensures WellFormed(Inserted(a, name, value))
  {
    if name !in a.m {
      var o := a.order + [name];
      forall i, j | 0 <= i < j < |o| ensures o[i] != o[j] {
        if j == |a.order| {
          assert o[i] in a.order;
        }
      }
    }
  }

  /**
   * The attribute map as the source keeps it: a mapping and a parallel
   * vector of names in first-insertion order, mutated in place by `Insert`.
   */
  class AttributeMap {
    var m: map<string, string>
    var order: seq<string>

    ghost predicate Valid()
      reads this
    {
      WellFormed(Attributes(m, order))
    }

    /** The map's current value, as an element node stores it. */
    function Value(): (a: Attributes)
      reads this
      ensures a.m == m && a.order == order
    {
      Attributes(m, order)
    }

    constructor ()
      ensures Valid() && m == map[] && order == []
    {
      m := map[];
      order := [];
    }

    /**
     * `AttributeMap::insert`: a name already present is left alone with its
     * first value; a new name is added with its value and appended to the
     * insertion order. Nothing else changes.
     */
    method Insert(attribute: string, value: string)
      requires Valid()
      modifies this
      ensures Valid()
      ensures attribute in old(m) ==> m == old(m) && order == old(order)
      ensures attribute !in old(m) ==>
                m == old(m)[attribute := value] && order == old(order) + [attribute]
      ensures Value() == Inserted(old(Value()), attribute, value)
    {
      InsertedWellFormed(Value(), attribute, value);
      if attribute !in m {
        m := m[attribute := value];
        order := order + [attribute];
      }
    }
  }

  /** One serialised attribute, `name="value"`; the value is not escaped. */
  function Assign(name: string, value: string): string {
    name + "=\"" + value + "\""
  }

  /**
   * The fold of `AttributeMap::print`: the first name's pair, then for each
   * further name the accumulator, one space, and that name's pair.
   */
  function Accumulate(names: seq<string>, m: map<string, string>): string
    requires |names| > 0
    requires forall k :: k in names ==> k in m
    decreases |names|
  {
    var last := names[|names| - 1];
    if |names| == 1 then Assign(last, m[last])
    else Accumulate(names[..|names| - 1], m) + " " + Assign(last, m[last])
  }

  lemma NonEmptyMapHasOrder(a: Attributes)
    requires WellFormed(a) && a.m != map[]
    ensures a.order != []
  {
    var k :| k in a.m;
    assert k in a.order;
  }

  /** The first name in the insertion order, if any, is a key of the map. */
  lemma OrderStartsWithKey(a: Attributes)
    requires WellFormed(a)
    ensures a.order == [] || a.order[0] in a.m
  {
    if a.order != [] {
      assert a.order[0] in a.order;
    }
  }

  /** `AttributeMap::print`: empty for an empty map, otherwise the fold. */
  function Print(a: Attributes): (s: string)
    requires WellFormed(a)
    ensures s == "" <==> a.m == map[]
  {
    if a.m == map[] then ""
    else
      NonEmptyMapHasOrder(a);
      AccumulateNonEmpty(a.order, a.m);
      Accumulate(a.order, a.m)
  }

  /** The fold only reads the values of the names it is given. */
  lemma {:induction false} AccumulateAgrees(names: seq<string>, m: map<string, string>, m': map<string, string>)
    requires |names| > 0
    requires forall k :: k in names ==> k in m && k in m' && m[k] == m'[k]
    ensures Accumulate(names, m) == Accumulate(names, m')
    decreases |names|
  {
    if |names| > 1 {
      var init := names[..|names| - 1];
      assert forall k :: k in init ==> k in names;
      AccumulateAgrees(init, m, m');
    }
  }

  /** Every serialised pair is at least the three characters `="`+`"`. */
  lemma {:induction false} AccumulateNonEmpty(names: seq<string>, m: map<string, string>)
    requires |names| > 0
    requires forall k :: k in names ==> k in m
    ensures |Accumulate(names, m)| >= 3
    decreases |names|
  {
    if |names| > 1 {
      var init := names[..|names| - 1];
      assert forall k :: k in init ==> k in names;
      AccumulateNonEmpty(init, m);
    }
  }

  /**
   * Printing after inserting a new name: the old serialisation, a single
   * space (unless the map was empty), then the new pair. Inserting a name
   * already present leaves the serialisation as it was.
   */
  lemma PrintInserted(a: Attributes, name: string, value: string)
    requires WellFormed(a)
    ensures WellFormed(Inserted(a, name, value))
    ensures name in a.m ==> Print(Inserted(a, name, value)) == Print(a)
    ensures name !in a.m ==>
              Print(Inserted(a, name, value)) ==
              (if a.m == map[] then "" else Print(a) + " ") + Assign(name, value)
  {
    InsertedWellFormed(a, name, value);
    if name !in a.m {
      var b := Inserted(a, name, value);
      assert b.m != map[] by { assert name in b.m; }
      if a.m == map[] {
        OrderStartsWithKey(a);
        assert b.order == [name];
      } else {
        NonEmptyMapHasOrder(a);
        assert b.order[..|b.order| - 1] == a.order;
        AccumulateAgrees(a.order, a.m, b.m);
      }
    }
  }

  /** The map built by inserting each pair of `pairs` in turn. */
  function Build(pairs: seq<(string, string)>): (a: Attributes)
    ensures WellFormed(a)
    decreases |pairs|
  {
    if pairs == [] then EmptyAttributes()
    else
      var last := pairs[|pairs| - 1];
      var init := Build(pairs[..|pairs| - 1]);
      InsertedWellFormed(init, last.0, last.1);
      Inserted(init, last.0, last.1)
  }

  /** The names of a list of pairs, in order. */
  function Names(pairs: seq<(string, string)>): (names: seq<string>)
    ensures |names| == |pairs|
    ensures forall i :: 0 <= i < |pairs| ==> names[i] == pairs[i].0
    decreases |pairs|
  {
    if pairs == [] then [] else Names(pairs[..|pairs| - 1]) + [pairs[|pairs| - 1].0]
  }

  /** The pairs written out as attribute syntax, joined by single spaces. */
  function Declared(pairs: seq<(string, string)>): string
    decreases |pairs|
  {
    if pairs == [] then ""
    else
      var last := pairs[|pairs| - 1];
      (if |pairs| == 1 then "" else Declared(pairs[..|pairs| - 1]) + " ") + Assign(last.0, last.1)
  }

  /**
   * Building a map from pairs with distinct names keeps every pair, records
   * the names in declaration order, and prints the pairs in that order:
   * `id="a"` then `class="b"` prints as `id="a" class="b"`.
   */
  lemma {:induction false} BuildOrder(pairs: seq<(string, string)>)
    requires NoDuplicates(Names(pairs))
    ensures WellFormed(Build(pairs))
    ensures Build(pairs).order == Names(pairs)
    decreases |pairs|
  {
    if pairs != [] {
      var init := pairs[..|pairs| - 1];
      var last := pairs[|pairs| - 1];
      assert Names(init) == Names(pairs)[..|pairs| - 1];
      BuildOrder(init);
      BuildFresh(pairs);
      InsertedWellFormed(Build(init), last.0, last.1);
    }
  }

  /** With distinct names, the last pair's name is new to the map built from the others. */
  lemma BuildFresh(pairs: seq<(string, string)>)
    requires pairs != [] && NoDuplicates(Names(pairs))
    requires Build(pairs[..|pairs| - 1]).order == Names(pairs[..|pairs| - 1])
    requires WellFormed(Build(pairs[..|pairs| - 1]))
    ensures pairs[|pairs| - 1].0 !in Build(pairs[..|pairs| - 1]).m
  {
  }

  /**
   * Building a map from pairs with distinct names and printing it writes the
   * pairs in declaration order: `id="a"` then `class="b"` prints as
   * `id="a" class="b"`.
   */
  lemma {:induction false} PrintBuild(pairs: seq<(string, string)>)
    requires NoDuplicates(Names(pairs))
    ensures WellFormed(Build(pairs))
    ensures Print(Build(pairs)) == Declared(pairs)
    decreases |pairs|
  {
    BuildOrder(pairs);
    if pairs != [] {
      var init := pairs[..|pairs| - 1];
      var last := pairs[|pairs| - 1];
      assert Names(init) == Names(pairs)[..|pairs| - 1];
      PrintBuild(init);
      BuildOrder(init);
      BuildFresh(pairs);
      var a := Build(init);
      PrintInserted(a, last.0, last.1);
      assert a.m == map[] <==> |pairs| == 1 by {
        if |pairs| > 1 { assert a.order[0] in a.m; }
      }
    }
  }

  /**
   * First write wins across a whole declaration list: a name's value is the
   * one given at its first occurrence, whatever comes after.
   */
  lemma {:induction false} BuildFirstWins(pairs: seq<(string, string)>, i: nat)
    requires i < |pairs|
    requires forall j :: 0 <= j < i ==> pairs[j].0 != pairs[i].0
    ensures pairs[i].0 in Build(pairs).m
    ensures Build(pairs).m[pairs[i].0] == pairs[i].1
    decreases |pairs|
  {
    var init := pairs[..|pairs| - 1];
    if i < |pairs| - 1 {
      BuildFirstWins(init, i);
    } else {
      BuildLacks(init, pairs[i].0);
    }
  }

  /** A name that no pair declares is not in the built map. */
  lemma {:induction false} BuildLacks(pairs: seq<(string, string)>, name: string)
    requires forall j :: 0 <= j < |pairs| ==> pairs[j].0 != name
    ensures name !in Build(pairs).m
    decreases |pairs|
  {
    if pairs != [] {
      BuildLacks(pairs[..|pairs| - 1], name);
    }
  }

  // ---------------------------------------------------------------------
  // Nodes
  // ---------------------------------------------------------------------

  /** The fixed tag of every text node. */
  const TextTag: string := "TEXT NODE"
  /** The fixed tag of every comment node. */
  const CommentTag: string := "COMMENT NODE"

  /** An element: its tag, its attributes and the children it owns, in order. */
  datatype Element = Element(tag: string, attributes: AttributeValue, children: seq<Node>)

  /** The closed set of node kinds. */
  datatype Node =
    | ElementNode(element: Element)
    | TextNode(text: string)
    | CommentNode(comment: string)

  /** `Node::tagName`: the element's tag, or the sentinel of a text or comment node. */
  function TagName(n: Node): (t: string)
    ensures n.ElementNode? ==> t == n.element.tag
    ensures n.TextNode? ==> t == TextTag
    ensures n.CommentNode? ==> t == CommentTag
    ensures !n.ElementNode? ==> !PlainTag(t)
  {
    assert TextTag[4] == ' ' && CommentTag[7] == ' ';
    match n
    case ElementNode(e) => e.tag
    case TextNode(_) => TextTag
    case CommentNode(_) => CommentTag
  }

  /** `Node::is`: whether the node's tag is `cand`. */
  function Is(n: Node, cand: string): (b: bool)
    ensures n.ElementNode? ==> (b <==> cand == n.element.tag)
    ensures !n.ElementNode? && PlainTag(cand) ==> !b
  {
    TagName(n) == cand
  }

  /**
   * A tag without whitespace. That every element tag is one is the
   * assumption under which the sentinel tags tell the node kinds apart.
   */
  predicate PlainTag(tag: string) {
    forall i :: 0 <= i < |tag| ==> !IsSpace(tag[i])
  }

  /**
   * The sentinels tell the kinds apart: for a node whose element tag (if any)
   * is a plain tag, `Is(n, TextTag)` holds exactly for text nodes and
   * `Is(n, CommentTag)` exactly for comment nodes.
   */
  lemma SentinelsIdentifyKind(n: Node)
    requires n.ElementNode? ==> PlainTag(n.element.tag)
    ensures Is(n, TextTag) <==> n.TextNode?
    ensures Is(n, CommentTag) <==> n.CommentNode?
    ensures n.ElementNode? ==> Is(n, n.element.tag)
  {
    if n.ElementNode? {
      assert !PlainTag(TextTag) && !PlainTag(CommentTag) by {
        assert TextTag[4] == ' ' && CommentTag[7] == ' ';
      }
    }
  }

  /** A text node carries its content unchanged. */
  function GetText(n: Node): (t: string)
    requires n.TextNode?
    ensures TextNode(t) == n
  {
    n.text
  }

  /** A comment node carries its content unchanged. */
  function GetComment(n: Node): (c: string)
    requires n.CommentNode?
    ensures CommentNode(c) == n
  {
    n.comment
  }

  /**
   * `clone` of each node kind: a new text or comment node with the same
   * content, or for an element a new element built from its tag, attributes
   * and children (which clones every child again). The copy is structurally
   * equal to the original.
   */
  function Clone(n: Node): (c: Node)
    ensures c == n
  {
    match n
    case ElementNode(e) => ElementNode(CloneElement(e))
    case TextNode(t) => TextNode(t)
    case CommentNode(t) => CommentNode(t)
  }

  /** Cloning an element: same tag, a copy of the attributes, every child cloned. */
  function CloneElement(e: Element): (c: Element)
    ensures c == e
  {
    Element(e.tag, e.attributes, CloneAll(e.children))
  }

  /** Clones of a sequence of children, same order and count. */
  function CloneAll(ns: seq<Node>): (cs: seq<Node>)
    ensures cs == ns
  {
    if ns == [] then [] else [Clone(ns[0])] + CloneAll(ns[1..])
  }

  /**
   * The `ElementNode` constructor: keeps the tag and attributes and pushes a
   * clone of each given child, in order, into its own child list.
   */
  method NewElement(tag: string, attributes: AttributeValue, children: seq<Node>) returns (e: Element)
    ensures e.tag == tag && e.attributes == attributes
    ensures |e.children| == |children|
    ensures forall i :: 0 <= i < |children| ==> e.children[i] == children[i]
  {
    var owned: seq<Node> := [];
    for i := 0 to |children|
      invariant owned == children[..i]
    {
      owned := owned + [Clone(children[i])];
    }
    e := Element(tag, attributes, owned);
  }

  /**
   * `ElementNode::getChildren`: a fresh clone of each child, in order; under
   * value semantics the snapshot equals the child list.
   */
  method GetChildren(e: Element) returns (nodes: seq<Node>)
    ensures |nodes| == |e.children|
    ensures forall i :: 0 <= i < |nodes| ==> nodes[i] == e.children[i]
  {
    nodes := [];
    for i := 0 to |e.children|
      invariant nodes == e.children[..i]
    {
      nodes := nodes + [Clone(e.children[i])];
    }
  }

  /** `ElementNode::getAttributes`: the serialised attribute map. */
  function GetAttributes(e: Element): (s: string)
    ensures s == "" <==> e.attributes.m == map[]
  {
    Print(e.attributes)
  }

  /** `ElementNode::getId`: the `id` attribute, or the empty string without one. */
  function GetId(e: Element): (id: string)
    ensures "id" !in e.attributes.m ==> id == ""
    ensures "id" in e.attributes.m ==> id == e.attributes.m["id"]
  {
    if "id" in e.attributes.m then e.attributes.m["id"] else ""
  }

  /**
   * The `id` an element reports is the value of the first `id` among its
   * declared attributes, and the empty string when none declares `id`.
   */
  lemma GetIdDeclared(tag: string, pairs: seq<(string, string)>, children: seq<Node>, i: nat)
    ensures (forall j :: 0 <= j < |pairs| ==> pairs[j].0 != "id") ==>
              GetId(Element(tag, Build(pairs), children)) == ""
    ensures i < |pairs| && pairs[i].0 == "id" && (forall j :: 0 <= j < i ==> pairs[j].0 != "id") ==>
              GetId(Element(tag, Build(pairs), children)) == pairs[i].1
  {
    if forall j :: 0 <= j < |pairs| ==> pairs[j].0 != "id" {
      BuildLacks(pairs, "id");
    }
    if i < |pairs| && pairs[i].0 == "id" && (forall j :: 0 <= j < i ==> pairs[j].0 != "id") {
      BuildFirstWins(pairs, i);
    }
  }

  // ---------------------------------------------------------------------
  // Splitting the class attribute
  // ---------------------------------------------------------------------

  /** The number of whitespace characters `s` starts with. */
  function SpacePrefix(s: string): (n: nat)
    ensures n <= |s|
    ensures AllSpace(s[..n])
    ensures n == |s| || !IsSpace(s[n])
    decreases |s|
  {
    if s != [] && IsSpace(s[0]) then 1 + SpacePrefix(s[1..]) else 0
  }

  /** The number of non-whitespace characters `s` starts with. */
  function WordPrefix(s: string): (n: nat)
    ensures n <= |s|
    ensures forall i :: 0 <= i < n ==> !IsSpace(s[i])
    ensures n == |s| || IsSpace(s[n])
    decreases |s|
  {
    if s != [] && !IsSpace(s[0]) then 1 + WordPrefix(s[1..]) else 0
  }

  /**
   * Reading words from a string stream until it is exhausted: each read
   * skips leading whitespace and then takes the longest run of
   * non-whitespace. Every word produced is non-empty and whitespace-free.
   */
  function Split(s: string): (words: seq<string>)
    ensures forall i :: 0 <= i < |words| ==> IsWord(words[i])
    decreases |s|
  {
    var t := s[SpacePrefix(s)..];
    if t == [] then []
    else
      var n := WordPrefix(t);
      [t[..n]] + Split(t[n..])
  }

  /**
   * `gaps[0] + words[0] + gaps[1] + ... + words[k-1] + gaps[k]`: words laid
   * out between whitespace gaps.
   */
  function Interleave(gaps: seq<string>, words: seq<string>): string
    requires |gaps| == |words| + 1
    decreases |words|
  {
    if words == [] then gaps[0]
    else gaps[0] + words[0] + Interleave(gaps[1..], words[1..])
  }

  /**
   * Gaps that can separate `k` words: all whitespace, and all but the
   * outer two non-empty.
   */
  predicate ValidGaps(gaps: seq<string>, k: nat) {
    && |gaps| == k + 1
    && (forall i :: 0 <= i < |gaps| ==> AllSpace(gaps[i]))
    && (forall i :: 0 < i < |gaps| - 1 ==> gaps[i] != [])
  }

  /** The whitespace gaps around and between the words of `s`. */
  function Gaps(s: string): seq<string>
    decreases |s|
  {
    var p := SpacePrefix(s);
    var t := s[p..];
    if t == [] then [s]
    else [s[..p]] + Gaps(t[WordPrefix(t)..])
  }

  /** The gaps of a string: one more than its words, all of them whitespace. */
  lemma GapsShape(s: string)
    ensures |Gaps(s)| == |Split(s)| + 1
    ensures Gaps(s)[0] == s[..SpacePrefix(s)]
    ensures forall i :: 0 <= i < |Gaps(s)| ==> AllSpace(Gaps(s)[i])
  {
    GapsLength(s);
    GapsFirst(s);
    GapsAllSpace(s);
  }

  /** There is one more gap than there are words. */
  lemma {:induction false} GapsLength(s: string)
    ensures |Gaps(s)| == |Split(s)| + 1
    decreases |s|
  {
    if s[SpacePrefix(s)..] == [] {
      assert Gaps(s) == [s] && Split(s) == [];
    } else {
      var gap, word, rest := GapsStep(s);
      GapsLength(rest);
    }
  }

  /** The first gap is the leading whitespace. */
  lemma GapsFirst(s: string)
    ensures Gaps(s)[0] == s[..SpacePrefix(s)]
  {
    if s[SpacePrefix(s)..] == [] {
      assert s[..SpacePrefix(s)] == s;
    } else {
      var gap, word, rest := GapsStep(s);
    }
  }

  /** Every gap is whitespace. */
  lemma {:induction false} GapsAllSpace(s: string)
    ensures forall i :: 0 <= i < |Gaps(s)| ==> AllSpace(Gaps(s)[i])
    decreases |s|
  {
    if s[SpacePrefix(s)..] == [] {
      assert Gaps(s) == [s];
      assert s[..SpacePrefix(s)] == s;
    } else {
      var gap, word, rest := GapsStep(s);
      GapsAllSpace(rest);
      var g := Gaps(s);
      forall i | 0 <= i < |g|
        ensures AllSpace(g[i])
      {
        if i > 0 {
          assert g[i] == Gaps(rest)[i - 1];
        }
      }
    }
  }

  /** Between two words there is always at least one whitespace character. */
  lemma {:induction false} GapsInnerNonEmpty(s: string)
    ensures forall i :: 0 < i < |Gaps(s)| - 1 ==> Gaps(s)[i] != []
    decreases |s|
  {
    if s[SpacePrefix(s)..] != [] {
      var gap, word, rest := GapsStep(s);
      if rest == [] {
        assert Gaps(rest) == [rest];
      } else {
        GapsInnerNonEmpty(rest);
        GapsFirst(rest);
        var g := Gaps(s);
        forall i | 0 < i < |g| - 1
          ensures g[i] != []
        {
          assert g[i] == Gaps(rest)[i - 1];
          if i == 1 {
            // the rest starts with whitespace, so its first gap does
            assert SpacePrefix(rest) > 0;
            assert Gaps(rest)[0][0] == rest[0];
          }
        }
      }
    }
  }

  /** Putting the words back between the gaps restores the string. */
  lemma {:induction false} GapsInterleave(s: string)
    ensures |Gaps(s)| == |Split(s)| + 1
    ensures Interleave(Gaps(s), Split(s)) == s
    decreases |s|
  {
    if s[SpacePrefix(s)..] == [] {
      assert Gaps(s) == [s] && Split(s) == [];
    } else {
      var gap, word, rest := GapsStep(s);
      GapsInterleave(rest);
      InterleaveCons(gap, word, Gaps(rest), Split(rest));
    }
  }

  /** One step of `Gaps` and `Split` on a string that still holds a word. */
  lemma GapsStep(s: string) returns (gap: string, word: string, rest: string)
    requires s[SpacePrefix(s)..] != []
    ensures |rest| < |s|
    ensures gap == s[..SpacePrefix(s)]
    ensures Gaps(s) == [gap] + Gaps(rest)
    ensures Split(s) == [word] + Split(rest)
    ensures s == gap + (word + rest)
    ensures rest == [] || IsSpace(rest[0])
  {
    var p := SpacePrefix(s);
    var t := s[p..];
    var n := WordPrefix(t);
    gap, word, rest := s[..p], t[..n], t[n..];
    assert t == word + rest;
    assert s == gap + t;
  }

  /** `Interleave` of a gap and a word in front of a layout. */
  lemma InterleaveCons(g: string, w: string, gaps: seq<string>, words: seq<string>)
    requires |gaps| == |words| + 1
    ensures Interleave([g] + gaps, [w] + words) == g + (w + Interleave(gaps, words))
  {
    assert ([g] + gaps)[1..] == gaps;
    assert ([w] + words)[1..] == words;
  }

  /**
   * Every string is its words laid out between valid whitespace gaps: no
   * character is lost, and consecutive words are separated by whitespace.
   */
  lemma SplitDecomposes(s: string)
    ensures ValidGaps(Gaps(s), |Split(s)|)
    ensures Interleave(Gaps(s), Split(s)) == s
  {
    GapsShape(s);
    GapsInnerNonEmpty(s);
    GapsInterleave(s);
  }

  /** `Interleave` starts with its first gap. */
  lemma InterleaveStart(gaps: seq<string>, words: seq<string>)
    requires |gaps| == |words| + 1
    ensures gaps[0] <= Interleave(gaps, words)
  {
  }

  /**
   * The converse: laying non-empty whitespace-free words out between valid
   * gaps and splitting gives back exactly those words. With
   * `SplitDecomposes`, the words of `Split(s)` are the maximal runs of
   * non-whitespace of `s`, in order.
   */
  lemma {:induction false} SplitInterleave(gaps: seq<string>, words: seq<string>)
    requires ValidGaps(gaps, |words|)
    requires forall i :: 0 <= i < |words| ==> IsWord(words[i])
    ensures Split(Interleave(gaps, words)) == words
    decreases |words|
  {
    if words == [] {
      var s := Interleave(gaps, words);
      SpacePrefixOf(s, []);
      assert s + [] == s;
    } else {
      SplitInterleaveStep(gaps, words);
      SplitInterleave(gaps[1..], words[1..]);
      assert words == [words[0]] + words[1..];
    }
  }

  /** One step of the converse: the first word comes out, then the rest of the layout is split. */
  lemma SplitInterleaveStep(gaps: seq<string>, words: seq<string>)
    requires ValidGaps(gaps, |words|) && words != []
    requires forall i :: 0 <= i < |words| ==> IsWord(words[i])
    ensures ValidGaps(gaps[1..], |words| - 1)
    ensures Split(Interleave(gaps, words)) == [words[0]] + Split(Interleave(gaps[1..], words[1..]))
  {
    var gs, ws := gaps[1..], words[1..];
    ValidGapsTail(gaps, |words|);
    var rest := Interleave(gs, ws);
    InterleaveHeadSpace(gs, ws);
    SplitWordFirst(gaps[0], words[0], rest);
  }

  /** Dropping the first gap leaves valid gaps for the remaining words. */
  lemma ValidGapsTail(gaps: seq<string>, k: nat)
    requires ValidGaps(gaps, k) && k > 0
    ensures ValidGaps(gaps[1..], k - 1)
    ensures k > 1 ==> gaps[1..][0] != []
  {
    if k > 1 {
      assert gaps[1..][0] == gaps[1];
    }
  }

  /**
   * Words laid out between valid gaps whose first gap is not empty when a
   * word follows it: the layout is empty or starts with whitespace.
   */
  lemma InterleaveHeadSpace(gaps: seq<string>, words: seq<string>)
    requires ValidGaps(gaps, |words|)
    requires words != [] ==> gaps[0] != []
    ensures var s := Interleave(gaps, words); s == [] || IsSpace(s[0])
  {
    InterleaveStart(gaps, words);
    if gaps[0] != [] {
      assert Interleave(gaps, words)[0] == gaps[0][0];
    }
  }

  /** Whitespace followed by something that does not start with whitespace. */
  lemma SpacePrefixOf(g: string, t: string)
    requires AllSpace(g)
    requires t == [] || !IsSpace(t[0])
    ensures SpacePrefix(g + t) == |g|
  {
    var s := g + t;
    var p := SpacePrefix(s);
    assert |g| == |s| || !IsSpace(s[|g|]);
  }

  /** A word followed by something that does not start with a word character. */
  lemma WordPrefixOf(w: string, t: string)
    requires IsWord(w)
    requires t == [] || IsSpace(t[0])
    ensures WordPrefix(w + t) == |w|
  {
    var s := w + t;
    var n := WordPrefix(s);
    assert |w| == |s| || IsSpace(s[|w|]);
  }

  /** One step of the split: skip the gap, take the word, continue after it. */
  lemma SplitWordFirst(g: string, w: string, rest: string)
    requires AllSpace(g) && IsWord(w)
    requires rest == [] || IsSpace(rest[0])
    ensures Split(g + w + rest) == [w] + Split(rest)
  {
    var s := g + w + rest;
    assert s == g + (w + rest);
    SpacePrefixOf(g, w + rest);
    assert s[|g|..] == w + rest;
    WordPrefixOf(w, rest);
    assert (w + rest)[..|w|] == w && (w + rest)[|w|..] == rest;
  }

  /** A string of whitespace only has no words. */
  lemma SplitAllSpace(s: string)
    requires AllSpace(s)
    ensures Split(s) == []
  {
    SplitInterleave([s], []);
  }

  /**
   * `ElementNode::getClasses`: no classes without a `class` attribute,
   * otherwise the whitespace-separated words of its value.
   */
  function GetClasses(e: Element): (classes: seq<string>)
    ensures "class" !in e.attributes.m ==> classes == []
    ensures forall i :: 0 <= i < |classes| ==> IsWord(classes[i])
  {
    if "class" !in e.attributes.m then [] else Split(e.attributes.m["class"])
  }

  /**
   * The classes of an element whose `class` value lays words out between
   * whitespace gaps are exactly those words: separators of any length
   * collapse and leading or trailing whitespace yields no empty class.
   */
  lemma GetClassesWords(e: Element, gaps: seq<string>, words: seq<string>)
    requires "class" in e.attributes.m
    requires ValidGaps(gaps, |words|)
    requires forall i :: 0 <= i < |words| ==> IsWord(words[i])
    requires e.attributes.m["class"] == Interleave(gaps, words)
    ensures GetClasses(e) == words
  {
    SplitInterleave(gaps, words);
  }

  // ---------------------------------------------------------------------
  // Visitors
  // ---------------------------------------------------------------------

  /** A visitor: one operation per node kind. */
  datatype Visitor<R> = Visitor(
    visitElement: Element -> R,
    visitText: string -> R,
    visitComment: string -> R)

  /** `acceptVisitor`: the node hands itself to the visitor's operation for its kind. */
  function AcceptVisitor<R>(n: Node, v: Visitor<R>): (r: R)
    ensures n.ElementNode? ==> r == v.visitElement(n.element)
    ensures n.TextNode? ==> r == v.visitText(n.text)
    ensures n.CommentNode? ==> r == v.visitComment(n.comment)
  {
    match n
    case ElementNode(e) => v.visitElement(e)
    case TextNode(t) => v.visitText(t)
    case CommentNode(c) => v.visitComment(c)
  }

  /**
   * Each kind reaches its own operation with its own content: a visitor that
   * rebuilds the node from what it is given rebuilds the node exactly, and
   * one that reports the kind's tag reports `TagName`.
   */
  lemma AcceptVisitorDispatch(n: Node)
    ensures AcceptVisitor(n, Visitor(e => ElementNode(e), t => TextNode(t), c => CommentNode(c))) == n
    ensures AcceptVisitor(n, Visitor((e: Element) => e.tag, _ => TextTag, _ => CommentTag)) == TagName(n)
  {
  }
}
