/**
 * Written documents: the texts that the parser accepts, with all that may vary in them, and the trees that
 * they denote.
 */
module Grammar {
  import opened Text
  import opened CharRefs
  import opened Parser
  import opened NormalForm
  import opened Translation

  // ---- What may be written ----

  /** An attribute with the white space in front of it and around its equals sign. */
  datatype WAttribute = WAttribute(before: string, name: string, beforeEquals: string, afterEquals: string,
                                   quote: char, raw: string)

  /** Text between tags, a CDATA section, what leaves no node, and elements. */
  datatype WNode =
    | WText(raw: string)
    | WCData(text: string)
    | WComment(text: string)
    | WInstruction(text: string)
    | WDoctype(blank: char, text: string)
    | WOther(text: string)
    | WElement(name: string, attributes: seq<WAttribute>, space: string, body: WBody)

  /** An element ends at once, or with a tag that may carry any name. */
  datatype WBody = EmptyTag | Open(children: seq<WNode>, closing: string, closingSpace: string)

  datatype WDocument = WDocument(bom: bool, nodes: seq<WNode>)

  // ---- How it is written ----

  function RenderAttribute(a: WAttribute): string {
    a.before + (a.name + (a.beforeEquals + ("=" + (a.afterEquals + ([a.quote] + (a.raw + [a.quote]))))))
  }

  function RenderAttributes(attributes: seq<WAttribute>): string {
    if attributes == [] then [] else RenderAttribute(attributes[0]) + RenderAttributes(attributes[1..])
  }

  function RenderClosing(closing: string, space: string): string {
    "</" + (closing + (space + ">"))
  }

  function RenderOpening(name: string, attributes: seq<WAttribute>, space: string): string {
    "<" + (name + (RenderAttributes(attributes) + space))
  }

  function RenderNode(w: WNode): string
    decreases w, 0
  {
    match w
    case WText(raw) => raw
    case WCData(text) => "<![CDATA[" + (text + "]]>")
    case WComment(text) => "<!--" + (text + "-->")
    case WInstruction(text) => "<?" + (text + "?>")
    case WDoctype(blank, text) => "<!DOCTYPE" + ([blank] + (text + ">"))
    case WOther(text) => "<!" + (text + ">")
    case WElement(name, attributes, space, EmptyTag) => RenderOpening(name, attributes, space) + "/>"
    case WElement(name, attributes, space, Open(children, closing, closingSpace)) =>
      RenderOpening(name, attributes, space) + (">" + (RenderAll(children) + RenderClosing(closing, closingSpace)))
  }

  function RenderAll(nodes: seq<WNode>): string
    decreases nodes, 1
  {
    if nodes == [] then [] else RenderNode(nodes[0]) + RenderAll(nodes[1..])
  }

  const BOM := [0xEF as char, 0xBB as char, 0xBF as char]

  function Render(w: WDocument): string {
    (if w.bom then BOM else []) + RenderAll(w.nodes)
  }

  // ---- What is well formed ----

  /** Behind `text`, the mark stands for the first time. */
  predicate EndsWith(text: string, mark: string) {
    NulFree(text) && forall k :: 0 <= k < |text| ==> !Has(text + mark, k, mark)
  }

  predicate GoodAttribute(a: WAttribute) {
    && White(a.before) && a.name != [] && All(a.name, AttributeName) && White(a.beforeEquals) && White(a.afterEquals)
    && IsQuote(a.quote) && All(a.raw, AttributeValue(a.quote))
  }

  /** There is white space between the element's name and the first attribute. */
  predicate GoodAttributes(attributes: seq<WAttribute>) {
    && (forall k :: 0 <= k < |attributes| ==> GoodAttribute(attributes[k]))
    && (attributes != [] ==> attributes[0].before != [])
  }

  /** What may follow `<!` without being a comment, a section or a document type. */
  predicate IsOther(text: string) {
    && !("--" <= text) && !("[CDATA[" <= text) && !("DOCTYPE" <= text && |text| > 7 && IsSpace(text[7]))
  }

  /** Every `>` of a document type stands inside square brackets, which are all closed at the end. */
  predicate Bracketed(text: string) {
    && NulFree(text) && Depth(text, 0, |text|) == 0
    && forall k :: 0 <= k < |text| && text[k] == '>' ==> Depth(text, 0, k) > 0
  }

  predicate WellFormed(w: WNode)
    decreases w, 0
  {
    match w
    case WText(raw) => raw != [] && All(raw, CharData)
    case WCData(text) => EndsWith(text, "]]>")
    case WComment(text) => EndsWith(text, "-->")
    case WInstruction(text) => EndsWith(text, "?>")
    case WDoctype(blank, text) => IsSpace(blank) && Bracketed(text)
    case WOther(text) => EndsWith(text, ">") && IsOther(text)
    case WElement(name, attributes, space, body) =>
      && name != [] && All(name, NodeName) && name[0] != '!' && GoodAttributes(attributes) && White(space)
      && (body.Open? ==> WellFormedAll(body.children) && All(body.closing, NodeName) && White(body.closingSpace))
  }

  /** No two texts stand side by side. */
  predicate WellFormedAll(nodes: seq<WNode>)
    decreases nodes, 1
  {
    && (forall k :: 0 <= k < |nodes| ==> WellFormed(nodes[k]))
    && (forall k :: 0 < k < |nodes| ==> !(nodes[k - 1].WText? && nodes[k].WText?))
  }

  /** Outside all elements there is no text but white space. */
  predicate WellFormedDocument(w: WDocument) {
    WellFormedAll(w.nodes) && forall k :: 0 <= k < |w.nodes| && w.nodes[k].WText? ==> White(w.nodes[k].raw)
  }

  /** The text, up to its terminator, is the written document. */
  predicate IsWritten(t: string, w: WDocument) {
    WellFormedDocument(w) && Has(t, 0, Render(w)) && At(t, |Render(w)|) == '\0'
  }

  // ---- What it denotes ----

  /** A raw value with its references expanded, unless they are to be left alone. */
  function Value(raw: string, fl: Flags): Option<string> {
    if fl.nonDestructive then Some(raw) else Translated(raw)
  }

  function DenotedAttributes(attributes: seq<WAttribute>, fl: Flags): Option<seq<Attribute>> {
    if attributes == [] then Some([])
    else
      match (Value(attributes[0].raw, fl), DenotedAttributes(attributes[1..], fl))
      case (Some(value), Some(rest)) => Some([Attribute(attributes[0].name, value)] + rest)
      case _ => None
  }

  /** The nodes that a part of the document leaves behind, none or one; `None` is an error. */
  function Denoted(w: WNode, fl: Flags): (r: Option<seq<Node>>)
    ensures r.Some? ==> |r.value| <= 1
    ensures r.Some? && r.value != [] ==> (r.value[0].Data? <==> w.WText?)
    decreases w, 0
  {
    match w
    case WText(raw) =>
      if White(raw) then Some([])
      else (match Value(raw, fl) case None => None case Some(text) => Some([Data(text)]))
    case WCData(text) => Some([CData(text)])
    case WComment(_) => Some([])
    case WInstruction(_) => Some([])
    case WDoctype(_, _) => Some([])
    case WOther(_) => Some([])
    case WElement(name, attributes, _, body) =>
      match (DenotedAttributes(attributes, fl), DenotedBody(name, body, fl))
      case (Some(list), Some(children)) => Some([Element(name, ValueOf(children), list, children)])
      case _ => None
  }

  /** A closing tag with another name is an error only if it is validated. */
  function DenotedBody(name: string, body: WBody, fl: Flags): Option<seq<Node>>
    decreases body, 0
  {
    match body
    case EmptyTag => Some([])
    case Open(children, closing, _) =>
      if fl.validateClosingTags && closing != name then None else DenotedAll(children, fl)
  }

  function DenotedAll(nodes: seq<WNode>, fl: Flags): Option<seq<Node>>
    decreases nodes, 1
  {
    if nodes == [] then Some([])
    else
      match (Denoted(nodes[0], fl), DenotedAll(nodes[1..], fl))
      case (Some(first), Some(rest)) => Some(first + rest)
      case _ => None
  }
}
