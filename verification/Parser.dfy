/** The document tree, and what the parser computes from a text, without its buffer. */
module Parser {
  import opened Text
  import opened CharRefs

  datatype Attribute = Attribute(name: string, value: string)

  /** A node; only elements carry a name, a value of their own, attributes and children. */
  datatype Node =
    | Element(name: string, value: string, attributes: seq<Attribute>, children: seq<Node>)
    | Data(text: string)
    | CData(text: string)

  /** `parse_non_destructive` and `parse_validate_closing_tags`; every other flag is off. */
  datatype Flags = Flags(nonDestructive: bool, validateClosingTags: bool)

  datatype AttributeHead = Head(nameEnd: nat, open: nat) | BadHead(error: ParseError)
  datatype AttributeResult = ParsedAttribute(attribute: Attribute, next: nat) | BadAttribute(error: ParseError)
  datatype AttributesResult = ParsedAttributes(attributes: seq<Attribute>, next: nat) | BadAttributes(error: ParseError)
  datatype NodeResult = ParsedNode(node: Option<Node>, next: nat) | BadNode(error: ParseError)
  datatype OpeningResult = Opening(nameEnd: nat, attributes: seq<Attribute>, next: nat) | BadOpening(error: ParseError)
  datatype ContentsResult = ParsedContents(value: string, children: seq<Node>, next: nat) | BadContents(error: ParseError)
  datatype ClosingResult = Closed(next: nat) | BadClosing(error: ParseError)
  datatype DocumentResult = ParsedDocument(children: seq<Node>) | BadDocument(error: ParseError)

  predicate IsQuote(c: char) {
    c == '\'' || c == '"'
  }

  /** The text of a value from `i` to the first character that `p` rejects. */
  function ScanValue(t: string, i: nat, p: Pred, fl: Flags): (r: Expansion)
    requires i <= |t|
    ensures r.Expanded? ==> i <= r.next <= |t| && !p.Test(At(t, r.next))
    ensures r.Expanded? && p.Test(At(t, i)) ==> i < r.next && r.text != []
  {
    if fl.nonDestructive then
      var j := Skip(t, i, p);
      Expanded(t[i..j], j)
    else
      ExpandBounds(t, i, p, i, []);
      Expand(t, i, p, i, [])
  }

  /** The name of the attribute at `i` up to and with the opening quote, which stands at `open`. */
  function ParseAttributeHead(t: string, i: nat): (r: AttributeHead)
    requires i < |t|
    ensures r.Head? ==> i < r.nameEnd < r.open < |t| && IsQuote(t[r.open])
  {
    var nameEnd := Skip(t, i + 1, AttributeName);
    var equals := Skip(t, nameEnd, Whitespace);
    if At(t, equals) != '=' then BadHead(ParseError("expected =", equals))
    else
      var open := Skip(t, equals + 1, Whitespace);
      if IsQuote(At(t, open)) then Head(nameEnd, open) else BadHead(ParseError("expected ' or \"", open))
  }

  function ParseAttribute(t: string, i: nat, fl: Flags): (r: AttributeResult)
    requires i < |t|
    ensures r.ParsedAttribute? ==> i < r.next <= |t|
  {
    match ParseAttributeHead(t, i)
    case BadHead(e) => BadAttribute(e)
    case Head(nameEnd, open) =>
      match ScanValue(t, open + 1, AttributeValue(t[open]), fl)
      case BadRef(e) => BadAttribute(e)
      case Expanded(value, close) =>
        if At(t, close) != t[open] then BadAttribute(ParseError("expected ' or \"", close))
        else ParsedAttribute(Attribute(t[i..nameEnd], value), Skip(t, close + 1, Whitespace))
  }

  function ParseAttributes(t: string, i: nat, fl: Flags, done: seq<Attribute>): (r: AttributesResult)
    requires i <= |t|
    ensures r.ParsedAttributes? ==> i <= r.next <= |t|
    decreases |t| - i
  {
    if !AttributeName.Test(At(t, i)) then ParsedAttributes(done, i)
    else
      match ParseAttribute(t, i, fl)
      case BadAttribute(e) => BadAttributes(e)
      case ParsedAttribute(a, next) => ParseAttributes(t, next, fl, done + [a])
  }

  /** Skips a construct that yields no node and ends with `mark`. */
  function SkipPast(t: string, i: nat, mark: string): (r: NodeResult)
    requires i <= |t|
    ensures r.ParsedNode? ==> r.node == None && i + |mark| <= r.next <= |t|
  {
    match FindMark(t, i, mark)
    case Err(e) => BadNode(e)
    case Ok(j) => ParsedNode(None, j + |mark|)
  }

  /** Skips a document type from `i`, at the given depth of square brackets. */
  function SkipDoctype(t: string, i: nat, depth: nat): (r: NodeResult)
    requires i <= |t|
    ensures r.ParsedNode? ==> r.node == None && i < r.next <= |t|
    decreases |t| - i
  {
    if At(t, i) == '\0' then BadNode(ParseError("unexpected end of data", i))
    else if depth == 0 && t[i] == '>' then ParsedNode(None, i + 1)
    else if t[i] == '[' then SkipDoctype(t, i + 1, depth + 1)
    else if t[i] == ']' && depth > 0 then SkipDoctype(t, i + 1, depth - 1)
    else SkipDoctype(t, i + 1, depth)
  }

  function ParseCData(t: string, i: nat): (r: NodeResult)
    requires i <= |t|
    ensures r.ParsedNode? ==> i < r.next <= |t|
  {
    match FindMark(t, i, "]]>")
    case Err(e) => BadNode(e)
    case Ok(j) => ParsedNode(Some(CData(t[i..j])), j + 3)
  }

  predicate IsXmlDeclaration(t: string, i: nat) {
    && (At(t, i) == 'x' || At(t, i) == 'X')
    && (At(t, i + 1) == 'm' || At(t, i + 1) == 'M')
    && (At(t, i + 2) == 'l' || At(t, i + 2) == 'L')
    && IsSpace(At(t, i + 3))
  }

  predicate IsDoctype(t: string, i: nat) {
    Has(t, i, "DOCTYPE") && IsSpace(At(t, i + 7))
  }

  /** The constructs that start with `<!`; `i` is the offset behind the exclamation mark. */
  function ParseBang(t: string, i: nat): (r: NodeResult)
    requires i <= |t|
    ensures r.ParsedNode? ==> i < r.next <= |t|
  {
    if Has(t, i, "--") then SkipPast(t, i + 2, "-->")
    else if Has(t, i, "[CDATA[") then ParseCData(t, i + 7)
    else if IsDoctype(t, i) then SkipDoctype(t, i + 8, 0)
    else SkipPast(t, i, ">")
  }

  /** Whatever follows a `<` that opens no closing tag; `None` for what leaves no node behind. */
  function ParseNode(t: string, i: nat, fl: Flags): (r: NodeResult)
    requires i <= |t|
    ensures r.ParsedNode? ==> i < r.next <= |t|
    decreases |t| - i, 1
  {
    if At(t, i) == '?' then
      if IsXmlDeclaration(t, i + 1) then SkipPast(t, i + 5, "?>") else SkipPast(t, i + 1, "?>")
    else if At(t, i) == '!' then ParseBang(t, i + 1)
    else ParseElement(t, i, fl)
  }

  /** The name and the attributes of an element, up to what ends its opening. */
  function ParseOpening(t: string, i: nat, fl: Flags): (r: OpeningResult)
    requires i <= |t|
    ensures r.Opening? ==> i < r.nameEnd <= r.next <= |t|
  {
    var nameEnd := Skip(t, i, NodeName);
    if nameEnd == i then BadOpening(ParseError("expected element name", i))
    else
      match ParseAttributes(t, Skip(t, nameEnd, Whitespace), fl, [])
      case BadAttributes(e) => BadOpening(e)
      case ParsedAttributes(attributes, next) => Opening(nameEnd, attributes, next)
  }

  function ParseElement(t: string, i: nat, fl: Flags): (r: NodeResult)
    requires i <= |t|
    ensures r.ParsedNode? ==> i < r.next <= |t|
    decreases |t| - i, 0
  {
    match ParseOpening(t, i, fl)
    case BadOpening(e) => BadNode(e)
    case Opening(nameEnd, attributes, k) =>
      match ParseBody(t, k, fl, t[i..nameEnd])
      case BadContents(e) => BadNode(e)
      case ParsedContents(value, children, next) =>
        ParsedNode(Some(Element(t[i..nameEnd], value, attributes, children)), next)
  }

  /** From the end of the opening to the end of the element. */
  function ParseBody(t: string, i: nat, fl: Flags, name: string): (r: ContentsResult)
    requires i <= |t|
    ensures r.ParsedContents? ==> i < r.next <= |t|
    decreases |t| - i, 2
  {
    if At(t, i) == '>' then ParseContents(t, i + 1, fl, name, [], [])
    else if At(t, i) == '/' then
      if At(t, i + 1) != '>' then BadContents(ParseError("expected >", i + 1)) else ParsedContents([], [], i + 2)
    else BadContents(ParseError("expected >", i))
  }

  /** An element value gives way to later text while its first byte reads as a terminator. */
  predicate Unset(value: string) {
    value == [] || value[0] == '\0'
  }

  function Adopt(value: string, text: string): string {
    if Unset(value) then text else value
  }

  /** The contents of the element `name` from `i` on; `value` and `children` are what it has so far. */
  function ParseContents(t: string, i: nat, fl: Flags, name: string, value: string, children: seq<Node>)
    : (r: ContentsResult)
    requires i <= |t|
    ensures r.ParsedContents? ==> i < r.next <= |t|
    decreases |t| - i, 1
  {
    var j := Skip(t, i, Whitespace);
    if At(t, j) == '<' then ParseMarkup(t, j, fl, name, value, children)
    else if At(t, j) == '\0' then BadContents(ParseError("unexpected end of data", j))
    else
      match ScanValue(t, i, CharData, fl)
      case BadRef(e) => BadContents(e)
      case Expanded(text, k) =>
        if At(t, k) == '<' then ParseMarkup(t, k, fl, name, Adopt(value, text), children + [Data(text)])
        else BadContents(ParseError("unexpected end of data", k))
  }

  /** The rest of the closing tag of `name`, from behind its `</`. */
  function ParseClosingTag(t: string, i: nat, fl: Flags, name: string): (r: ClosingResult)
    requires i <= |t|
    ensures r.Closed? ==> i < r.next <= |t|
  {
    var nameEnd := Skip(t, i, NodeName);
    var close := Skip(t, nameEnd, Whitespace);
    if fl.validateClosingTags && t[i..nameEnd] != name then
      BadClosing(ParseError("invalid closing tag name", nameEnd))
    else if At(t, close) != '>' then BadClosing(ParseError("expected >", close))
    else Closed(close + 1)
  }

  /** A `<` inside contents: the closing tag, or one more child. */
  function ParseMarkup(t: string, i: nat, fl: Flags, name: string, value: string, children: seq<Node>)
    : (r: ContentsResult)
    requires i < |t|
    ensures r.ParsedContents? ==> i < r.next <= |t|
    decreases |t| - i, 0
  {
    if At(t, i + 1) == '/' then
      match ParseClosingTag(t, i + 2, fl, name)
      case BadClosing(e) => BadContents(e)
      case Closed(next) => ParsedContents(value, children, next)
    else
      match ParseNode(t, i + 1, fl)
      case BadNode(e) => BadContents(e)
      case ParsedNode(None, next) => ParseContents(t, next, fl, name, value, children)
      case ParsedNode(Some(child), next) => ParseContents(t, next, fl, name, value, children + [child])
  }

  function SkipBom(t: string): (i: nat)
    ensures i <= |t|
  {
    if At(t, 0) as int == 0xEF && At(t, 1) as int == 0xBB && At(t, 2) as int == 0xBF then 3 else 0
  }

  function ParseTopLevel(t: string, i: nat, fl: Flags, done: seq<Node>): DocumentResult
    requires i <= |t|
    decreases |t| - i
  {
    var j := Skip(t, i, Whitespace);
    if At(t, j) == '\0' then ParsedDocument(done)
    else if At(t, j) != '<' then BadDocument(ParseError("expected <", j))
    else
      match ParseNode(t, j + 1, fl)
      case BadNode(e) => BadDocument(e)
      case ParsedNode(None, next) => ParseTopLevel(t, next, fl, done)
      case ParsedNode(Some(node), next) => ParseTopLevel(t, next, fl, done + [node])
  }

  function ParseDocument(t: string, fl: Flags): DocumentResult {
    ParseTopLevel(t, SkipBom(t), fl, [])
  }

  // ---- What the skipping amounts to ----

  /** How many square brackets are open in `t[i..k]`; a closing bracket with no partner counts for nothing. */
  function Depth(t: string, i: nat, k: nat): nat
    requires i <= k <= |t|
  {
    if k == i then 0
    else
      var d := Depth(t, i, k - 1);
      if t[k - 1] == '[' then d + 1 else if t[k - 1] == ']' && d > 0 then d - 1 else d
  }

  /** A document type ends with the first `>` outside all brackets, and fails if the text ends before it. */
  lemma DoctypeEnds(t: string, i: nat)
    requires i <= |t|
    ensures var r := SkipDoctype(t, i, 0);
            r.ParsedNode? ==> r.node == None && i < r.next <= |t| && FirstOutside(t, i, r.next - 1)
    ensures var r := SkipDoctype(t, i, 0);
            r.BadNode? ==> i <= r.error.where <= |t| && At(t, r.error.where) == '\0' && NoneOutside(t, i, r.error.where)
  {
    DoctypeScan(t, i, i);
  }

  predicate NoneOutside(t: string, i: nat, end: nat)
    requires i <= end <= |t|
  {
    forall k :: i <= k < end && t[k] == '>' ==> Depth(t, i, k) > 0
  }

  predicate FirstOutside(t: string, i: nat, end: nat)
    requires i <= end < |t|
  {
    t[end] == '>' && Depth(t, i, end) == 0 && NoneOutside(t, i, end)
  }

  lemma {:induction false} DoctypeScan(t: string, i: nat, k: nat)
    requires i <= k <= |t| && NoneOutside(t, i, k)
    ensures var r := SkipDoctype(t, k, Depth(t, i, k));
            r.ParsedNode? ==> r.node == None && k < r.next <= |t| && FirstOutside(t, i, r.next - 1)
    ensures var r := SkipDoctype(t, k, Depth(t, i, k));
            r.BadNode? ==> k <= r.error.where <= |t| && At(t, r.error.where) == '\0' && NoneOutside(t, i, r.error.where)
    decreases |t| - k
  {
    hide Depth;
    if At(t, k) != '\0' && !(Depth(t, i, k) == 0 && t[k] == '>') {
      DoctypeGoesOn(t, i, k);
      DoctypeScan(t, i, k + 1);
    }
  }

  lemma DoctypeGoesOn(t: string, i: nat, k: nat)
    requires i <= k <= |t| && NoneOutside(t, i, k) && At(t, k) != '\0' && !(Depth(t, i, k) == 0 && t[k] == '>')
    ensures NoneOutside(t, i, k + 1)
    ensures SkipDoctype(t, k, Depth(t, i, k)) == SkipDoctype(t, k + 1, Depth(t, i, k + 1))
  {
    hide SkipDoctype;
    hide Depth;
    OneDeeper(t, i, k);
    DoctypeUnfolds(t, k, Depth(t, i, k));
  }

  lemma OneDeeper(t: string, i: nat, k: nat)
    requires i <= k < |t|
    ensures var d := Depth(t, i, k);
            Depth(t, i, k + 1) == if t[k] == '[' then d + 1 else if t[k] == ']' && d > 0 then d - 1 else d
  {
  }

  lemma DoctypeUnfolds(t: string, k: nat, d: nat)
    requires k < |t| && At(t, k) != '\0' && !(d == 0 && t[k] == '>')
    ensures SkipDoctype(t, k, d)
         == SkipDoctype(t, k + 1, if t[k] == '[' then d + 1 else if t[k] == ']' && d > 0 then d - 1 else d)
  {
  }

  /** A closing tag that has been validated carries the element's name, then whitespace, then `>`. */
  lemma ClosingTagMatches(t: string, i: nat, fl: Flags, name: string)
    requires i <= |t| && fl.validateClosingTags && ParseClosingTag(t, i, fl, name).Closed?
    ensures var next := ParseClosingTag(t, i, fl, name).next;
            && Has(t, i, name) && i + |name| < next <= |t| && t[next - 1] == '>'
            && (forall k :: i + |name| <= k < next - 1 ==> IsSpace(t[k]))
  {
    var nameEnd := Skip(t, i, NodeName);
    var close := Skip(t, nameEnd, Whitespace);
    assert t[i..nameEnd] == name && t[i..i + |name|] == name;
    assert forall k :: nameEnd <= k < close ==> Whitespace.Test(t[k]);
  }
}
