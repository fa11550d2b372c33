/**
 * The chat markdown renderer: a total dispatch from lexed markdown tokens to
 * an abstract tree of UI nodes.
 *
 * The lexer is not part of this model. Its output is the `Token` datatype,
 * and a list item carries, in `lexed`, the tokens the lexer returns for the
 * item's `text` (the renderer re-lexes an item's text and renders those).
 *
 * JavaScript truthiness is written out: an `align` entry is a string or
 * `null` (`Option<string>`) and is truthy when present and non-empty; a
 * list's `start` is a number or `''` (`Option<int>`) and is truthy when
 * present and non-zero.
 */
module MarkdownRender {
  import opened Wrappers

  /** The text-align used for a table column without a truthy alignment. */
  const DefaultAlign: string := "left"
  /** The visible label of the fallback for token types the renderer does not know. */
  const UnknownLabel: string := "Unknown type:"
  /** The literal markers around raw HTML, which is shown and never interpreted. */
  const HtmlOpen: string := "<html>"
  const HtmlClose: string := "</html>"

  // ---------------------------------------------------------------------
  // Tokens (the lexer's output)
  // ---------------------------------------------------------------------

  /** A table cell; only its raw text is rendered. */
  datatype TableCell = TableCell(raw: string)

  /**
   * One item of a list token. `lexed` is the lexer's output for `text`;
   * the renderer reads only `lexed`, as the source re-lexes `text`.
   */
  datatype ListItem = ListItem(text: string, task: bool, checked: bool, lexed: seq<Token>)

  /** The token types the renderer dispatches on, plus `Unknown` for any other tag. */
  datatype Token =
    | Space(raw: string)
    | Code(text: string, lang: string)
    | Heading(depth: int, text: string)
    | Table(header: seq<TableCell>, align: seq<Option<string>>, rows: seq<seq<TableCell>>)
    | Hr
    | Blockquote(text: string)
    | List(ordered: bool, start: Option<int>, items: seq<ListItem>)
    | Paragraph(tokens: seq<Token>)
    | Html(raw: string)
    | Text(raw: string)
    | Escape(raw: string)
    | Def
    | Link(href: string, title: Option<string>, text: string)
    | Image(href: string, title: Option<string>, text: string)
    | Strong(text: string)
    | Em(text: string)
    | Codespan(text: string)
    | Br
    | Del(text: string)
    | Unknown(tag: string, raw: string)

  /** The `type` tags the renderer has a branch for. */
  const KnownTags: set<string> := {
    "space", "code", "heading", "table", "hr", "blockquote", "list", "paragraph", "html",
    "text", "escape", "def", "link", "image", "strong", "em", "codespan", "br", "del"
  }

  /** The token's `type` discriminant. */
  function TypeOf(t: Token): string {
    match t
    case Space(_) => "space"
    case Code(_, _) => "code"
    case Heading(_, _) => "heading"
    case Table(_, _, _) => "table"
    case Hr => "hr"
    case Blockquote(_) => "blockquote"
    case List(_, _, _) => "list"
    case Paragraph(_) => "paragraph"
    case Html(_) => "html"
    case Text(_) => "text"
    case Escape(_) => "escape"
    case Def => "def"
    case Link(_, _, _) => "link"
    case Image(_, _, _) => "image"
    case Strong(_) => "strong"
    case Em(_) => "em"
    case Codespan(_) => "codespan"
    case Br => "br"
    case Del(_) => "del"
    case Unknown(tag, _) => tag
  }

  /** An `Unknown` token really carries a tag outside the known set (so no branch would match it). */
  predicate WellTagged(t: Token) {
    t.Unknown? ==> t.tag !in KnownTags
  }

  /**
   * What `RenderToken` may be handed according to its signature: a token or
   * a bare string. Only tokens are ever passed to it.
   */
  datatype Input = AToken(token: Token) | AString(s: string)

  // ---------------------------------------------------------------------
  // Nodes (the rendered tree)
  // ---------------------------------------------------------------------

  /** A table cell element with its text-align style. */
  datatype Cell = Cell(textAlign: string, content: string)

  /** A list item element: an optional read-only checkbox (its checked state) and the item's rendered content. */
  datatype Li = Li(checkbox: Option<bool>, content: seq<Node>)

  datatype Node =
    | Span(text: string)
    | BlockCode(initValue: string, buttonsText: string)  // code editor plus a copy/apply controller for `buttonsText`
    | HeadingTag(level: int, text: string)
    | TableTag(head: seq<Cell>, body: seq<seq<Cell>>)
    | Rule
    | Quote(text: string)
    | ListTag(ordered: bool, start: Option<int>, lis: seq<Li>)
    | Fragment(children: seq<Node>)
    | P(children: seq<Node>)
    | Pre(parts: seq<string>)
    | Empty
    | Anchor(href: string, title: Option<string>, text: string)  // clicking opens `href` in a new window
    | Img(src: string, alt: string, title: Option<string>)
    | Bold(text: string)
    | Italic(text: string)
    | CodeSpan(text: string)
    | LineBreak
    | Struck(text: string)
    | Fallback(caption: string, raw: string)

  // ---------------------------------------------------------------------
  // Rendering
  // ---------------------------------------------------------------------

  /** JavaScript truthiness of an alignment entry (`null` and `''` are falsy). */
  predicate AlignTruthy(a: Option<string>) {
    a.Some? && a.value != ""
  }

  /** JavaScript truthiness of a list's `start` (`''` and `0` are falsy). */
  predicate StartTruthy(s: Option<int>) {
    s.Some? && s.value != 0
  }

  /** `align[i] || "left"`, where reading past the end of `align` gives `undefined`. */
  function AlignAt(align: seq<Option<string>>, i: nat): (r: string)
    ensures r != ""
    ensures r == DefaultAlign || (i < |align| && align[i] == Some(r))
    ensures i < |align| && AlignTruthy(align[i]) ==> r == align[i].value
  {
    if i < |align| && AlignTruthy(align[i]) then align[i].value else DefaultAlign
  }

  /** One table row (header or body), aligned column by column. */
  function RenderCells(cells: seq<TableCell>, align: seq<Option<string>>): (r: seq<Cell>)
    ensures |r| == |cells|
    ensures forall j :: 0 <= j < |cells| ==> r[j].content == cells[j].raw && r[j].textAlign == AlignAt(align, j)
  {
    seq(|cells|, j requires 0 <= j < |cells| => Cell(AlignAt(align, j), cells[j].raw))
  }

  /** The body rows: one per entry of `rows`, each keeping its own cell count. */
  function RenderRows(rows: seq<seq<TableCell>>, align: seq<Option<string>>): (r: seq<seq<Cell>>)
    ensures |r| == |rows|
    ensures forall k :: 0 <= k < |rows| ==> |r[k]| == |rows[k]| && r[k] == RenderCells(rows[k], align)
  {
    seq(|rows|, r requires 0 <= r < |rows| => RenderCells(rows[r], align))
  }

  /** One token, in the context `nested` (inside a list item or not). */
  function Render(t: Token, nested: bool): (r: Node)
    decreases t
    ensures r.Fallback? <==> t.Unknown?
    ensures r.BlockCode? <==> t.Code?
    ensures r.P? <==> t.Paragraph? && !nested
    ensures r.Fragment? <==> t.Paragraph? && nested
    ensures t.Paragraph? ==> |r.children| == |t.tokens|
    ensures r.TableTag? <==> t.Table?
    ensures t.Table? ==> |r.head| == |t.header| && |r.body| == |t.rows|
    ensures r.ListTag? <==> t.List?
    ensures t.List? ==> r.ordered == t.ordered && |r.lis| == |t.items|
    ensures r.Pre? <==> t.Html?
    ensures r.Empty? <==> t.Def?
  {
    match t
    case Space(raw) => Span(raw)
    case Code(text, _) => BlockCode(text, text)
    case Heading(depth, text) => HeadingTag(depth, text)
    case Table(header, align, rows) => TableTag(RenderCells(header, align), RenderRows(rows, align))
    case Hr => Rule
    case Blockquote(text) => Quote(text)
    case List(ordered, start, items) =>
      ListTag(ordered, if StartTruthy(start) then start else None, RenderItems(items))
    case Paragraph(tokens) =>
      var contents := RenderAll(tokens, false);
      if nested then Fragment(contents) else P(contents)
    case Html(raw) => Pre([HtmlOpen, raw, HtmlClose])
    case Text(raw) => Span(raw)
    case Escape(raw) => Span(raw)
    case Def => Empty
    case Link(href, title, text) => Anchor(href, title, text)
    case Image(href, title, text) => Img(href, text, title)
    case Strong(text) => Bold(text)
    case Em(text) => Italic(text)
    case Codespan(text) => CodeSpan(text)
    case Br => LineBreak
    case Del(text) => Struck(text)
    case Unknown(_, raw) => Fallback(UnknownLabel, raw)
  }

  /** A sequence of tokens, every one in the same context `nested`. */
  function RenderAll(ts: seq<Token>, nested: bool): (r: seq<Node>)
    decreases ts
    ensures |r| == |ts|
    ensures forall i :: 0 <= i < |ts| ==> r[i] == Render(ts[i], nested)
  {
    if ts == [] then [] else [Render(ts[0], nested)] + RenderAll(ts[1..], nested)
  }

  /** One list item: its checkbox only for task items, its re-lexed text rendered nested. */
  function RenderItem(item: ListItem): (r: Li)
    decreases item
    ensures r.checkbox.Some? <==> item.task
    ensures item.task ==> r.checkbox == Some(item.checked)
    ensures |r.content| == |item.lexed|
  {
    Li(if item.task then Some(item.checked) else None, RenderAll(item.lexed, true))
  }

  function RenderItems(items: seq<ListItem>): (r: seq<Li>)
    decreases items
    ensures |r| == |items|
    ensures forall i :: 0 <= i < |items| ==> r[i] == RenderItem(items[i])
  {
    if items == [] then [] else [RenderItem(items[0])] + RenderItems(items[1..])
  }

  /**
   * `RenderToken` on whatever its loose signature admits. A bare string is
   * not lexed: it has no `type`, falls through to the fallback, and its
   * (undefined) `raw` shows nothing.
   */
  function RenderInput(v: Input, nested: bool): (r: Node)
    ensures r.Fallback? <==> v.AString? || v.token.Unknown?
    ensures v.AString? ==> r.raw == ""
    ensures v.AToken? && v.token.Unknown? ==> r.raw == v.token.raw
  {
    match v
    case AToken(t) => Render(t, nested)
    case AString(_) => Fallback(UnknownLabel, "")
  }
}
