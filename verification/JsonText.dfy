/** JSON as RFC 8259 writes it (sections 2 and 7), with comments and trailing commas allowed:
    trees, their texts and their values. Its bytes are its own, not the stripper's. */
module JsonText {
  import opened ByteStrings

  const QUOTATION_MARK: byte := 34
  const ASTERISK: byte := 42
  const VALUE_SEPARATOR: byte := 44
  const SOLIDUS: byte := 47
  const NAME_SEPARATOR: byte := 58
  const BEGIN_ARRAY: byte := 91
  const ESCAPE: byte := 92
  const END_ARRAY: byte := 93
  const BEGIN_OBJECT: byte := 123
  const END_OBJECT: byte := 125

  /** Line feed and carriage return. */
  predicate LineBreak(c: byte) {
    c == 10 || c == 13
  }

  /** Space, tab and line breaks. */
  predicate Blank(c: byte) {
    c == 32 || c == 9 || LineBreak(c)
  }

  /** A piece of what may stand between two tokens. */
  datatype Trivia = White(c: byte) | Line(body: Bytes, end: byte) | Block(body: Bytes)

  datatype Key = NoKey | Key(chars: Bytes, before: seq<Trivia>, after: seq<Trivia>)

  datatype Doc =
    | Scalar(text: Bytes)
    | Text(chars: Bytes)
    | Container(curly: bool, items: Items)

  /** `Done` right after a comma is a trailing comma. */
  datatype Items =
    | Done(gap: seq<Trivia>)
    | More(before: seq<Trivia>, key: Key, value: Doc, after: seq<Trivia>, tail: Tail)

  datatype Tail = Close | Comma(items: Items)

  /** A whole file; its last comment may lack a line break. */
  datatype File = File(before: seq<Trivia>, doc: Doc, after: seq<Trivia>, last: seq<Bytes>)

  // ---------------------------------------------------------------------------
  // Which trees are texts
  // ---------------------------------------------------------------------------

  /** Stars are followed by white space, so that the body does not close early and what a star hides is white space. */
  predicate SpacedBody(body: Bytes) {
    if body == [] then true
    else if body[0] == ASTERISK then |body| > 1 && Blank(body[1]) && SpacedBody(body[2..])
    else SpacedBody(body[1..])
  }

  predicate NoBreak(body: Bytes) {
    forall i :: 0 <= i < |body| ==> !LineBreak(body[i])
  }

  predicate ValidTrivia(p: Trivia) {
    match p
    case White(c) => Blank(c)
    case Line(body, end) => NoBreak(body) && LineBreak(end)
    case Block(body) => SpacedBody(body)
  }

  predicate ValidGap(g: seq<Trivia>) {
    forall i :: 0 <= i < |g| ==> ValidTrivia(g[i])
  }

  /** No quote outside an escape, no escape cut short. */
  predicate ValidChars(t: Bytes) {
    if t == [] then true
    else if t[0] == ESCAPE then |t| >= 2 && ValidChars(t[2..])
    else t[0] != QUOTATION_MARK && ValidChars(t[1..])
  }

  /** A byte of a number or a literal name. */
  predicate Plain(c: byte) {
    !Blank(c) && c != QUOTATION_MARK && c != SOLIDUS
    && c != BEGIN_ARRAY && c != BEGIN_OBJECT && c != END_ARRAY && c != END_OBJECT
    && c != NAME_SEPARATOR && c != VALUE_SEPARATOR
  }

  predicate ValidKey(k: Key) {
    k.Key? ==> ValidChars(k.chars) && ValidGap(k.before) && ValidGap(k.after)
  }

  predicate ValidDoc(d: Doc) {
    match d
    case Scalar(text) => text != [] && forall i :: 0 <= i < |text| ==> Plain(text[i])
    case Text(chars) => ValidChars(chars)
    case Container(curly, items) => ValidItems(items, curly)
  }

  predicate ValidItems(items: Items, curly: bool) {
    match items
    case Done(gap) => ValidGap(gap)
    case More(before, key, value, after, tail) =>
      ValidGap(before) && ValidKey(key) && key.Key? == curly && ValidDoc(value) && ValidGap(after)
          && ValidTail(tail, curly)
  }

  predicate ValidTail(tail: Tail, curly: bool) {
    tail.Comma? ==> ValidItems(tail.items, curly)
  }

  predicate ValidFile(f: File) {
    ValidGap(f.before) && ValidDoc(f.doc) && ValidGap(f.after) && |f.last| <= 1
    && forall i :: 0 <= i < |f.last| ==> NoBreak(f.last[i])
  }

  /** The grammar of RFC 8259: white space only between tokens, a comma only between items. */
  predicate StrictGap(g: seq<Trivia>) {
    forall i :: 0 <= i < |g| ==> g[i].White?
  }

  predicate StrictKey(k: Key) {
    k.Key? ==> StrictGap(k.before) && StrictGap(k.after)
  }

  predicate StrictDoc(d: Doc) {
    d.Container? ==> StrictItems(d.items)
  }

  predicate StrictItems(items: Items) {
    match items
    case Done(gap) => StrictGap(gap)
    case More(before, key, value, after, tail) =>
      StrictGap(before) && StrictKey(key) && StrictDoc(value) && StrictGap(after)
      && (tail.Comma? ==> tail.items.More? && StrictItems(tail.items))
  }

  predicate StrictFile(f: File) {
    StrictGap(f.before) && StrictDoc(f.doc) && StrictGap(f.after) && f.last == []
  }

  // ---------------------------------------------------------------------------
  // The text of a tree
  // ---------------------------------------------------------------------------

  function RenderTrivia(p: Trivia): Bytes {
    match p
    case White(c) => [c]
    case Line(body, end) => [SOLIDUS, SOLIDUS] + body + [end]
    case Block(body) => [SOLIDUS, ASTERISK] + body + [ASTERISK, SOLIDUS]
  }

  function RenderGap(g: seq<Trivia>): Bytes {
    if g == [] then [] else RenderTrivia(g[0]) + RenderGap(g[1..])
  }

  function Quoted(chars: Bytes): Bytes {
    [QUOTATION_MARK] + chars + [QUOTATION_MARK]
  }

  function RenderKey(k: Key): Bytes {
    if k.NoKey? then [] else Quoted(k.chars) + (RenderGap(k.before) + ([NAME_SEPARATOR] + RenderGap(k.after)))
  }

  function Closer(curly: bool): byte {
    if curly then END_OBJECT else END_ARRAY
  }

  function RenderDoc(d: Doc): Bytes {
    match d
    case Scalar(text) => text
    case Text(chars) => Quoted(chars)
    case Container(curly, items) =>
      [if curly then BEGIN_OBJECT else BEGIN_ARRAY] + (RenderItems(items) + [Closer(curly)])
  }

  function RenderItems(items: Items): Bytes {
    match items
    case Done(gap) => RenderGap(gap)
    case More(before, key, value, after, tail) =>
      RenderGap(before) + (RenderKey(key) + (RenderDoc(value) + (RenderGap(after) + RenderTail(tail))))
  }

  function RenderTail(tail: Tail): Bytes {
    if tail.Close? then [] else [VALUE_SEPARATOR] + RenderItems(tail.items)
  }

  function RenderLast(last: seq<Bytes>): Bytes {
    if last == [] then [] else [SOLIDUS, SOLIDUS] + last[0]
  }

  function Render(f: File): Bytes {
    RenderGap(f.before) + (RenderDoc(f.doc) + (RenderGap(f.after) + RenderLast(f.last)))
  }

  // ---------------------------------------------------------------------------
  // The value of a tree
  // ---------------------------------------------------------------------------

  datatype Value = Atom(text: Bytes) | String(chars: Bytes) | Array(curly: bool, members: seq<Member>)

  datatype Member = Member(key: seq<Bytes>, value: Value)

  function ValueOf(d: Doc): Value {
    match d
    case Scalar(text) => Atom(text)
    case Text(chars) => String(chars)
    case Container(curly, items) => Array(curly, Members(items))
  }

  function Members(items: Items): seq<Member> {
    match items
    case Done(_) => []
    case More(_, key, value, _, tail) =>
      [Member(if key.Key? then [key.chars] else [], ValueOf(value))] + TailMembers(tail)
  }

  function TailMembers(tail: Tail): seq<Member> {
    if tail.Close? then [] else Members(tail.items)
  }
}
