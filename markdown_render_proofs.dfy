/**
 * Properties of the chat markdown renderer: one node per token in order,
 * paragraph wrapping, table alignment, list layout, literal HTML, the
 * visible fallback, and the fact that every leaf token at any depth of the
 * token tree is rendered exactly once, in document order.
 */
module MarkdownRenderProofs {
  import opened Wrappers
  import opened MarkdownRender

  // ---------------------------------------------------------------------
  // Sequence rendering
  // ---------------------------------------------------------------------

  /** Rendering a concatenation renders each part on its own: siblings never interact. */
  lemma {:induction false} RenderAllAppend(a: seq<Token>, b: seq<Token>, nested: bool)
    ensures RenderAll(a + b, nested) == RenderAll(a, nested) + RenderAll(b, nested)
  {
    if a == [] {
      assert a + b == b;
    } else {
      assert (a + b)[1..] == a[1..] + b;
      RenderAllAppend(a[1..], b, nested);
    }
  }

  /** Only paragraphs see the `nested` flag; any other token renders the same in both contexts. */
  lemma NestedOnlyAffectsParagraphs(t: Token)
    ensures !t.Paragraph? ==> Render(t, true) == Render(t, false)
    ensures t.Paragraph? ==> Render(t, false) == P(Render(t, true).children)
  {
  }

  // ---------------------------------------------------------------------
  // Paragraphs
  // ---------------------------------------------------------------------

  /** Number of paragraph wrappers at the top of a rendered node. */
  function PWrappers(n: Node): nat {
    if n.P? then 1 else 0
  }

  /**
   * A paragraph renders its children in order, each outside the nested
   * context; it is wrapped in exactly one paragraph element when not
   * nested and returned unwrapped when nested.
   */
  lemma ParagraphWrapping(ts: seq<Token>, nested: bool)
    ensures var n := Render(Paragraph(ts), nested);
      && (n.P? || n.Fragment?)
      && PWrappers(n) == (if nested then 0 else 1)
      && |n.children| == |ts|
      && (forall i :: 0 <= i < |ts| ==> n.children[i] == Render(ts[i], false))
  {
  }

  // ---------------------------------------------------------------------
  // Tables
  // ---------------------------------------------------------------------

  /** A column's alignment is its truthy `align` entry, or "left" when the entry is missing or falsy. */
  lemma AlignRule(align: seq<Option<string>>, j: nat)
    ensures AlignAt(align, j) != ""
    ensures j < |align| && AlignTruthy(align[j]) ==> AlignAt(align, j) == align[j].value
    ensures j >= |align| ==> AlignAt(align, j) == DefaultAlign
    ensures j < |align| && !AlignTruthy(align[j]) ==> AlignAt(align, j) == DefaultAlign
  {
  }

  /**
   * A table renders one header cell per header entry and one body row per
   * entry of `rows`, each row keeping its own cell count; every cell keeps
   * its raw text and takes the alignment of its column position.
   */
  lemma TableLayout(header: seq<TableCell>, align: seq<Option<string>>, rows: seq<seq<TableCell>>, nested: bool)
    ensures var n := Render(Table(header, align, rows), nested);
      && n.TableTag?
      && |n.head| == |header|
      && (forall j :: 0 <= j < |header| ==> n.head[j] == Cell(AlignAt(align, j), header[j].raw))
      && |n.body| == |rows|
      && (forall r :: 0 <= r < |rows| ==> |n.body[r]| == |rows[r]|)
      && (forall r, j :: 0 <= r < |rows| && 0 <= j < |rows[r]| ==>
            n.body[r][j] == Cell(AlignAt(align, j), rows[r][j].raw))
  {
  }

  /** A header cell and a body cell in the same column are aligned alike. */
  lemma ColumnsAlignAlike(header: seq<TableCell>, align: seq<Option<string>>, rows: seq<seq<TableCell>>,
                          nested: bool, r: nat, j: nat)
    requires r < |rows| && j < |rows[r]| && j < |header|
    ensures var n := Render(Table(header, align, rows), nested);
      n.body[r][j].textAlign == n.head[j].textAlign
  {
    TableLayout(header, align, rows, nested);
  }

  /** Three header cells with two alignment entries: the third column is aligned left. */
  lemma ShortAlignDefaultsLeft(a: string, b: string, c: string, x: string, y: string)
    ensures var n := Render(Table([TableCell(a), TableCell(b), TableCell(c)], [Some(x), Some(y)], []), false);
      n.TableTag? && |n.head| == 3 && n.head[2] == Cell("left", c)
  {
  }

  // ---------------------------------------------------------------------
  // Lists
  // ---------------------------------------------------------------------

  /**
   * A list keeps its ordered flag, keeps `start` only when truthy, and
   * renders one item element per item in order: a read-only checkbox with
   * the item's checked state exactly for task items, then the item's
   * lexed text rendered in the nested context.
   */
  lemma ListLayout(ordered: bool, start: Option<int>, items: seq<ListItem>, nested: bool)
    ensures var n := Render(List(ordered, start, items), nested);
      && n.ListTag?
      && n.ordered == ordered
      && (n.start.Some? <==> StartTruthy(start))
      && (n.start.Some? ==> n.start == start)
      && |n.lis| == |items|
      && (forall i :: 0 <= i < |items| ==>
            && (n.lis[i].checkbox.Some? <==> items[i].task)
            && (items[i].task ==> n.lis[i].checkbox == Some(items[i].checked))
            && n.lis[i].content == RenderAll(items[i].lexed, true))
  {
  }

  /**
   * Inside a list item a paragraph is not wrapped: the item shows the
   * paragraph's inline content directly.
   */
  lemma ListItemParagraphUnwrapped(ordered: bool, start: Option<int>, items: seq<ListItem>, nested: bool, i: nat, k: nat)
    requires i < |items| && k < |items[i].lexed| && items[i].lexed[k].Paragraph?
    ensures var n := Render(List(ordered, start, items), nested);
      && n.ListTag?
      && n.lis[i].content[k] == Fragment(RenderAll(items[i].lexed[k].tokens, false))
  {
    ListLayout(ordered, start, items, nested);
  }

  // ---------------------------------------------------------------------
  // Raw HTML, definitions, the fallback
  // ---------------------------------------------------------------------

  /** Raw HTML is shown as literal preformatted text between the markers, never as markup. */
  lemma HtmlIsLiteral(raw: string, nested: bool)
    ensures var n := Render(Html(raw), nested);
      n.Pre? && n.parts == [HtmlOpen, raw, HtmlClose]
      && n.parts[0] + n.parts[1] + n.parts[2] == "<html>" + raw + "</html>"
  {
  }

  /**
   * The remaining block-level and plain-text branches, the same in both
   * contexts: whitespace and text show their raw text, a heading keeps its
   * depth and text, a blockquote its text, and a rule or a line break
   * carries nothing.
   */
  lemma PlainBranches(nested: bool, raw: string, text: string, depth: int)
    ensures Render(Space(raw), nested) == Span(raw)
    ensures Render(Text(raw), nested) == Span(raw)
    ensures Render(Escape(raw), nested) == Span(raw)
    ensures Render(Heading(depth, text), nested) == HeadingTag(depth, text)
    ensures Render(Blockquote(text), nested) == Quote(text)
    ensures Render(Hr, nested) == Rule
    ensures Render(Br, nested) == LineBreak
  {
  }

  /**
   * The inline branches, the same in both contexts: styles keep their
   * text, a link keeps its href, title and text, and an image takes its
   * source from the href and its alt text from the text.
   */
  lemma InlineBranches(nested: bool, text: string, href: string, title: Option<string>)
    ensures Render(Strong(text), nested) == Bold(text)
    ensures Render(Em(text), nested) == Italic(text)
    ensures Render(Codespan(text), nested) == CodeSpan(text)
    ensures Render(Del(text), nested) == Struck(text)
    ensures Render(Link(href, title, text), nested) == Anchor(href, title, text)
    ensures Render(Image(href, title, text), nested) == Img(href, text, title)
  {
  }

  /** A link/image reference definition renders as nothing. */
  lemma DefRendersNothing(nested: bool)
    ensures Render(Def, nested) == Empty
  {
  }

  /**
   * The fallback appears exactly for unknown token types, with the visible
   * label and the token's raw text.
   */
  lemma FallbackExactlyForUnknown(t: Token, nested: bool)
    ensures Render(t, nested).Fallback? <==> t.Unknown?
    ensures t.Unknown? ==> Render(t, nested) == Fallback("Unknown type:", t.raw)
  {
  }

  /**
   * For a token whose `Unknown` arm is used only for tags outside the
   * known set, the fallback is chosen by the `type` tag alone: exactly
   * when no branch of the dispatch matches it.
   */
  lemma FallbackExactlyForUnknownTags(t: Token, nested: bool)
    requires WellTagged(t)
    ensures Render(t, nested).Fallback? <==> TypeOf(t) !in KnownTags
  {
  }

  /** A code block node appears exactly for code tokens, its controller acting on the code's own text. */
  lemma CodeBlockExactlyForCode(t: Token, nested: bool)
    ensures Render(t, nested).BlockCode? <==> t.Code?
    ensures t.Code? ==> Render(t, nested) == BlockCode(t.text, t.text)
  {
  }

  /** A bare string handed to the token renderer is not lexed: it degrades to an empty fallback. */
  lemma BareStringIsNotLexed(s: string, nested: bool)
    ensures RenderInput(AString(s), nested) == Fallback(UnknownLabel, "")
    ensures forall t :: RenderInput(AToken(t), nested) == Render(t, nested)
  {
  }

  // ---------------------------------------------------------------------
  // Leaves: every token at every depth is rendered exactly once, in order
  // ---------------------------------------------------------------------

  /** Non-container tokens of a token sequence, in document order, through paragraphs and list items. */
  function LeafTokens(ts: seq<Token>): seq<Token>
    decreases ts
  {
    if ts == [] then [] else TokenLeaves(ts[0]) + LeafTokens(ts[1..])
  }

  function TokenLeaves(t: Token): seq<Token>
    decreases t
  {
    match t
    case Paragraph(tokens) => LeafTokens(tokens)
    case List(_, _, items) => ItemLeaves(items)
    case _ => [t]
  }

  function ItemLeaves(items: seq<ListItem>): seq<Token>
    decreases items
  {
    if items == [] then [] else LeafTokens(items[0].lexed) + ItemLeaves(items[1..])
  }

  /** Non-container nodes of a node sequence, in document order, through paragraphs, fragments and list items. */
  function LeafNodes(ns: seq<Node>): seq<Node>
    decreases ns
  {
    if ns == [] then [] else NodeLeaves(ns[0]) + LeafNodes(ns[1..])
  }

  function NodeLeaves(n: Node): seq<Node>
    decreases n
  {
    match n
    case P(children) => LeafNodes(children)
    case Fragment(children) => LeafNodes(children)
    case ListTag(_, _, lis) => LiLeaves(lis)
    case _ => [n]
  }

  function LiLeaves(lis: seq<Li>): seq<Node>
    decreases lis
  {
    if lis == [] then [] else LeafNodes(lis[0].content) + LiLeaves(lis[1..])
  }

  /**
   * Flattening commutes with rendering: the leaves of the rendered tree are
   * exactly the leaf tokens, at whatever depth, each rendered on its own,
   * in the same order. So nothing nested in a paragraph or a list item is
   * dropped, duplicated or reordered.
   */
  lemma {:induction false} LeavesPreserved(ts: seq<Token>, nested: bool)
    decreases ts
    ensures LeafNodes(RenderAll(ts, nested)) == RenderAll(LeafTokens(ts), false)
  {
    if ts != [] {
      var r := RenderAll(ts, nested);
      assert r == [Render(ts[0], nested)] + RenderAll(ts[1..], nested);
      assert r[1..] == RenderAll(ts[1..], nested);
      calc {
        LeafNodes(r);
        NodeLeaves(Render(ts[0], nested)) + LeafNodes(RenderAll(ts[1..], nested));
        { TokenLeavesPreserved(ts[0], nested); LeavesPreserved(ts[1..], nested); }
        RenderAll(TokenLeaves(ts[0]), false) + RenderAll(LeafTokens(ts[1..]), false);
        { RenderAllAppend(TokenLeaves(ts[0]), LeafTokens(ts[1..]), false); }
        RenderAll(LeafTokens(ts), false);
      }
    }
  }

  lemma {:induction false} TokenLeavesPreserved(t: Token, nested: bool)
    decreases t
    ensures NodeLeaves(Render(t, nested)) == RenderAll(TokenLeaves(t), false)
  {
    if t.Paragraph? {
      LeavesPreserved(t.tokens, false);
    } else if t.List? {
      ItemLeavesPreserved(t.items);
    } else {
      LeafTokenIsLeafNode(t, nested);
      assert RenderAll([t], false) == [Render(t, false)];
    }
  }

  /** A token that is neither a paragraph nor a list renders, in either context, to a node that is its own only leaf. */
  lemma LeafTokenIsLeafNode(t: Token, nested: bool)
    requires !t.Paragraph? && !t.List?
    ensures NodeLeaves(Render(t, nested)) == [Render(t, false)]
  {
  }

  lemma {:induction false} ItemLeavesPreserved(items: seq<ListItem>)
    decreases items
    ensures LiLeaves(RenderItems(items)) == RenderAll(ItemLeaves(items), false)
  {
    if items != [] {
      var r := RenderItems(items);
      assert r == [RenderItem(items[0])] + RenderItems(items[1..]);
      assert r[1..] == RenderItems(items[1..]);
      calc {
        LiLeaves(r);
        LeafNodes(RenderAll(items[0].lexed, true)) + LiLeaves(RenderItems(items[1..]));
        { LeavesPreserved(items[0].lexed, true); ItemLeavesPreserved(items[1..]); }
        RenderAll(LeafTokens(items[0].lexed), false) + RenderAll(ItemLeaves(items[1..]), false);
        { RenderAllAppend(LeafTokens(items[0].lexed), ItemLeaves(items[1..]), false); }
        RenderAll(ItemLeaves(items), false);
      }
    }
  }

  /**
   * At every position of the flattened trees: a fallback appears exactly
   * where an unknown token was, with its raw text, and a code block
   * appears exactly where a code token was, its controller acting on the
   * same text.
   */
  lemma LeafCorrespondence(ts: seq<Token>, nested: bool, j: nat)
    requires j < |LeafTokens(ts)|
    ensures var leaves := LeafNodes(RenderAll(ts, nested));
      var t := LeafTokens(ts)[j];
      && |leaves| == |LeafTokens(ts)|
      && (leaves[j].Fallback? <==> t.Unknown?)
      && (t.Unknown? ==> leaves[j] == Fallback(UnknownLabel, t.raw))
      && (leaves[j].BlockCode? <==> t.Code?)
      && (t.Code? ==> leaves[j].initValue == t.text && leaves[j].buttonsText == t.text)
  {
    LeavesPreserved(ts, nested);
    var t := LeafTokens(ts)[j];
    assert LeafNodes(RenderAll(ts, nested))[j] == Render(t, false);
    FallbackExactlyForUnknown(t, false);
    CodeBlockExactlyForCode(t, false);
  }

  /**
   * Nested markdown in a list item is rendered as markdown: given the
   * lexer's output for an item whose text is `**word**` (a paragraph
   * holding one strong token), the item shows a bold node, not literal
   * asterisks. The renderer reads only the lexed tokens, never `text`.
   */
  lemma NestedBoldRendersBold(word: string, nested: bool)
    ensures var n := Render(List(false, None, [ListItem("**" + word + "**", false, false, [Paragraph([Strong(word)])])]), nested);
      n.ListTag? && n.lis[0].content == [Fragment([Bold(word)])]
      && LeafNodes([n]) == [Bold(word)]
  {
    var p := Paragraph([Strong(word)]);
    var list := List(false, None, [ListItem("**" + word + "**", false, false, [p])]);
    assert RenderAll([Strong(word)], false) == [Bold(word)];
    assert RenderAll([p], true) == [Render(p, true)];
    assert LeafTokens([Strong(word)]) == [Strong(word)];
    assert LeafTokens([p]) == [Strong(word)];
    assert ItemLeaves(list.items) == LeafTokens([p]) + ItemLeaves([]);
    assert TokenLeaves(list) == [Strong(word)];
    assert LeafTokens([list]) == TokenLeaves(list) + LeafTokens([]);
    assert RenderAll([list], nested) == [Render(list, nested)];
    LeavesPreserved([list], nested);
  }
}
