// The bounded grammar of the parser: what each of its routines answers at a
// position of the text, as functions to a value and the position after it.
module XmlGrammar {
  import opened Wrappers
  import opened XmlPrinter

  datatype Refusal = TooLarge | InvalidCharacter | Malformed | Doctype | Entity | Depth | TooManyElements

  datatype Parse<+T> = Got(value: T, at: nat) | Refused(reason: Refusal)

  datatype ParsedElement = ParsedElement(name: string, ns: string, text: string, children: seq<ParsedElement>)

  datatype Declaration = Declaration(prefix: string, uri: string)

  datatype Limits = Limits(maxBytes: nat, maxDepth: nat, maxElements: nat)

  const XML_MAX_DEPTH_CEILING: nat := 256
  const XML_PREFIX_NS: string := "http://www.w3.org/XML/1998/namespace"

  type Scope = map<string, string>

  const ROOT_SCOPE: Scope := map["xml" := XML_PREFIX_NS]

  // ---------- scanning ----------

  predicate IsSpace(c: char) { c == ' ' || c == '\t' || c == '\n' || c == '\r' }

  predicate IsNameStart(c: char)
  {
    'A' <= c <= 'Z' || 'a' <= c <= 'z' || c == '_' || c == ':' || c as int >= 0x80
  }

  predicate IsNameChar(c: char) { IsNameStart(c) || '0' <= c <= '9' || c == '-' || c == '.' }

  predicate Is(s: string, at: nat, c: char) { at < |s| && s[at] == c }

  predicate Starts(s: string, at: nat, what: string) { at + |what| <= |s| && s[at..at + |what|] == what }

  function SkipSpace(s: string, at: nat): (r: nat)
    requires at <= |s|
    ensures at <= r <= |s|
    ensures at < |s| && IsSpace(s[at]) ==> at < r
    ensures at == |s| || !IsSpace(s[at]) ==> r == at
    ensures r < |s| ==> !IsSpace(s[r])
    decreases |s| - at
  {
    if at < |s| && IsSpace(s[at]) then SkipSpace(s, at + 1) else at
  }

  // The first place a string occurs from here on, or -1.
  function Find(s: string, at: nat, what: string): (r: int)
    ensures r == -1 || (at <= r && Starts(s, r, what))
    ensures forall i: nat :: at <= i && Starts(s, i, what) ==> 0 <= r <= i
    decreases |s| - at
  {
    if Starts(s, at, what) then at
    else if at >= |s| then -1
    else Find(s, at + 1, what)
  }

  // Everything up to and past a terminator, looked for `skip` characters in.
  function Past(s: string, at: nat, skip: nat, terminator: string): (r: Parse<string>)
    requires 0 < skip && at + skip <= |s|
    ensures r.Got? ==> at < r.at <= |s|
  {
    var end := Find(s, at + skip, terminator);
    if end == -1 then Refused(Malformed) else Got(s[at + skip..end], end + |terminator|)
  }

  function Upper(s: string): string
  {
    if s == "" then ""
    else [if 'a' <= s[0] <= 'z' then (s[0] as int - 32) as char else s[0]] + Upper(s[1..])
  }

  function MarkupRefusal(s: string, at: nat): Refusal
  {
    if at + 9 <= |s| && Upper(s[at..at + 9]) == "<!DOCTYPE" then Doctype else Malformed
  }

  // Whatever may stand around the root element and mean nothing.
  function SkipMisc(s: string, at: nat): (r: Parse<()>)
    requires at <= |s|
    ensures r.Got? ==> at <= r.at <= |s|
    decreases |s| - at
  {
    var t := SkipSpace(s, at);
    if Starts(s, t, "<!--") then
      var r := Past(s, t, 4, "-->");
      if r.Refused? then Refused(r.reason) else SkipMisc(s, r.at)
    else if Starts(s, t, "<?") then
      var r := Past(s, t, 2, "?>");
      if r.Refused? then Refused(r.reason) else SkipMisc(s, r.at)
    else if Starts(s, t, "<!") then Refused(MarkupRefusal(s, t))
    else Got((), t)
  }

  function NameEnd(s: string, at: nat): (r: nat)
    requires at <= |s|
    ensures at <= r <= |s| && forall i :: at <= i < r ==> IsNameChar(s[i])
    ensures r < |s| ==> !IsNameChar(s[r])
    decreases |s| - at
  {
    if at < |s| && IsNameChar(s[at]) then NameEnd(s, at + 1) else at
  }

  function QName(s: string, at: nat): (r: Parse<string>)
    requires at <= |s|
    ensures r.Got? <==> at < |s| && IsNameStart(s[at])
    ensures r.Got? ==> at < r.at <= |s| && r.value == s[at..r.at]
    ensures r.Got? ==> forall i :: 0 <= i < |r.value| ==> IsNameChar(r.value[i])
    ensures r.Got? && r.at < |s| ==> !IsNameChar(s[r.at])
  {
    if at == |s| || !IsNameStart(s[at]) then Refused(Malformed)
    else Got(s[at..NameEnd(s, at + 1)], NameEnd(s, at + 1))
  }

  // ---------- character references ----------

  predicate IsDigit(c: char) { '0' <= c <= '9' }

  predicate IsHex(c: char) { IsDigit(c) || 'a' <= c <= 'f' || 'A' <= c <= 'F' }

  function DigitValue(c: char): nat
  {
    if IsDigit(c) then c as int - '0' as int
    else if 'a' <= c <= 'f' then c as int - 'a' as int + 10
    else if 'A' <= c <= 'F' then c as int - 'A' as int + 10
    else 0
  }

  function NumberValue(digits: string, radix: nat): nat
  {
    if digits == "" then 0
    else NumberValue(digits[..|digits| - 1], radix) * radix + DigitValue(digits[|digits| - 1])
  }

  // The character a reference to a code point stands for: one this codec carries.
  function CharOf(code: nat): (c: Option<char>)
    ensures c.Some? ==> IsXmlChar(c.value as int)
  {
    if code > 0x10_FFFF || !IsXmlChar(code) then None else Some(code as char)
  }

  // What an entity body stands for: one of five names, or a bounded reference.
  function EntityValue(body: string): (c: Option<char>)
    ensures c.Some? ==> IsXmlChar(c.value as int)
  {
    if body == "amp" then Some('&')
    else if body == "lt" then Some('<')
    else if body == "gt" then Some('>')
    else if body == "quot" then Some('\"')
    else if body == "apos" then Some('\'')
    else if body == "" || body[0] != '#' then None
    else
      var hex := |body| >= 2 && (body[1] == 'x' || body[1] == 'X');
      var digits := body[if hex then 2 else 1..];
      if !(1 <= |digits| <= 10) then None
      else if !(forall i :: 0 <= i < |digits| ==> if hex then IsHex(digits[i]) else IsDigit(digits[i])) then None
      else CharOf(NumberValue(digits, if hex then 16 else 10))
  }

  // At `&`; consumes through `;`, looking no further than a reference can reach.
  function TakeEntity(s: string, at: nat): (r: Parse<char>)
    requires Is(s, at, '&')
    ensures r.Got? ==> at < r.at <= |s| && IsXmlChar(r.value as int)
  {
    var semicolon := Find(s, at + 1, ";");
    if semicolon == -1 || semicolon - at > 13 then Refused(Entity)
    else
      var c := EntityValue(s[at + 1..semicolon]);
      if c.None? then Refused(Entity) else Got(c.value, semicolon + 1)
  }

  // ---------- text and attributes ----------

  function Prefixed(c: char, r: Parse<string>): Parse<string>
  {
    if r.Refused? then r else Got([c] + r.value, r.at)
  }

  // Text up to the next `<`, references resolved.
  function TextRun(s: string, at: nat): (r: Parse<string>)
    requires at <= |s|
    ensures r.Got? ==> at <= r.at <= |s|
    ensures r.Got? && at < |s| && s[at] != '<' ==> at < r.at
    decreases |s| - at
  {
    if at == |s| || s[at] == '<' then Got("", at)
    else if s[at] == '&' then
      var e := TakeEntity(s, at);
      if e.Refused? then Refused(e.reason) else Prefixed(e.value, TextRun(s, e.at))
    else Prefixed(s[at], TextRun(s, at + 1))
  }

  // An attribute value up to and past its closing quote, references resolved.
  function AttributeValue(s: string, at: nat, quote: char): (r: Parse<string>)
    requires at <= |s|
    ensures r.Got? ==> at < r.at <= |s|
    decreases |s| - at
  {
    if at == |s| then Refused(Malformed)
    else if s[at] == quote then Got("", at + 1)
    else if s[at] == '&' then
      var e := TakeEntity(s, at);
      if e.Refused? then Refused(e.reason) else Prefixed(e.value, AttributeValue(s, e.at, quote))
    else if s[at] == '<' then Refused(Malformed)
    else Prefixed(s[at], AttributeValue(s, at + 1, quote))
  }

  // The namespace declaration an attribute is, if it is one.
  function DeclarationOf(name: string, value: string): Option<Declaration>
  {
    if name == "xmlns" then Some(Declaration("", value))
    else if "xmlns:" <= name then Some(Declaration(name[6..], value))
    else None
  }

  // At an attribute's name: through its closing quote.
  function TakeAttribute(s: string, at: nat): (r: Parse<Option<Declaration>>)
    requires at <= |s|
    ensures r.Got? ==> at < r.at <= |s|
  {
    var name := QName(s, at);
    if name.Refused? then Refused(name.reason) else
    var t := SkipSpace(s, name.at);
    if !Is(s, t, '=') then Refused(Malformed) else
    var u := SkipSpace(s, t + 1);
    if !Is(s, u, '\"') && !Is(s, u, '\'') then Refused(Malformed) else
    var value := AttributeValue(s, u + 1, s[u]);
    if value.Refused? then Refused(value.reason) else Got(DeclarationOf(name.value, value.value), value.at)
  }

  datatype Tag = Tag(declarations: seq<Declaration>, empty: bool)

  function Declared(d: Option<Declaration>, others: Parse<Tag>): Parse<Tag>
  {
    if others.Refused? || d.None? then others
    else Got(others.value.(declarations := [d.value] + others.value.declarations), others.at)
  }

  // The rest of a start tag: its declarations, and whether it closed itself.
  function TakeAttributes(s: string, at: nat): (r: Parse<Tag>)
    requires at <= |s|
    ensures r.Got? ==> at < r.at <= |s|
    decreases |s| - at
  {
    var spaced := at < |s| && IsSpace(s[at]);
    var t := SkipSpace(s, at);
    if Is(s, t, '>') then Got(Tag([], false), t + 1)
    else if Is(s, t, '/') then
      if Is(s, t + 1, '>') then Got(Tag([], true), t + 2) else Refused(Malformed)
    else if t == |s| || !spaced then Refused(Malformed)
    else
      var first := TakeAttribute(s, t);
      if first.Refused? then Refused(first.reason) else Declared(first.value, TakeAttributes(s, first.at))
  }

  // ---------- namespaces ----------

  function ScopeStep(scope: Scope, d: Declaration): Scope
  {
    if d.prefix == "xmlns" || d.prefix == "xml" then scope
    else if d.uri == "" then scope - {d.prefix}
    else scope[d.prefix := d.uri]
  }

  function ScopeWith(inherited: Scope, declarations: seq<Declaration>): Scope
    decreases |declarations|
  {
    if declarations == [] then inherited else ScopeWith(ScopeStep(inherited, declarations[0]), declarations[1..])
  }

  function LastColon(name: string): (at: int)
    ensures -1 <= at < |name|
    ensures at >= 0 ==> name[at] == ':'
    ensures forall i :: at < i < |name| ==> name[i] != ':'
  {
    if name == "" then -1
    else if name[|name| - 1] == ':' then |name| - 1
    else LastColon(name[..|name| - 1])
  }

  function LocalName(qname: string): (name: string)
    ensures ':' !in name
  {
    qname[LastColon(qname) + 1..]
  }

  function Bound(prefix: string, scope: Scope): string { if prefix in scope then scope[prefix] else "" }

  function NamespaceOf(qname: string, scope: Scope): string
  {
    var colon := LastColon(qname);
    Bound(if colon == -1 then "" else qname[..colon], scope)
  }

  // ---------- elements ----------

  // An element's inside: its text, its children, and the elements seen so far.
  datatype Inside = Inside(text: string, children: seq<ParsedElement>, count: nat)

  datatype Counted = Counted(element: ParsedElement, count: nat)

  function Element(qname: string, scope: Scope, text: string, children: seq<ParsedElement>): ParsedElement
  {
    ParsedElement(LocalName(qname), NamespaceOf(qname, scope), text, children)
  }

  // At `<`: one element, and how many have been seen, itself included.
  function TakeElement(s: string, at: nat, depth: nat, scope: Scope, count: nat, limits: Limits): (r: Parse<Counted>)
    requires Is(s, at, '<')
    ensures r.Got? ==> at < r.at <= |s|
    decreases |s| - at, 0
  {
    if depth > limits.maxDepth then Refused(Depth)
    else if count + 1 > limits.maxElements then Refused(TooManyElements)
    else
      var name := QName(s, at + 1);
      if name.Refused? then Refused(name.reason) else
      var tag := TakeAttributes(s, name.at);
      if tag.Refused? then Refused(tag.reason) else
      var inner := ScopeWith(scope, tag.value.declarations);
      if tag.value.empty then Got(Counted(Element(name.value, inner, "", []), count + 1), tag.at)
      else Closed(name.value, inner, TakeContent(s, tag.at, name.value, depth, inner, count + 1, limits))
  }

  function Closed(qname: string, scope: Scope, r: Parse<Inside>): Parse<Counted>
  {
    if r.Refused? then Refused(r.reason)
    else Got(Counted(Element(qname, scope, r.value.text, r.value.children), r.value.count), r.at)
  }

  // From after a start tag, through the matching end tag.
  function TakeContent(s: string, at: nat, qname: string, depth: nat, scope: Scope, count: nat,
                    limits: Limits): (r: Parse<Inside>)
    requires at <= |s|
    ensures r.Got? ==> at < r.at <= |s|
    decreases |s| - at, 1
  {
    if at == |s| then Refused(Malformed)
    else if Starts(s, at, "</") then TakeEndTag(s, at, qname, count)
    else if Starts(s, at, "<!--") then
      var r := Past(s, at, 4, "-->");
      if r.Refused? then Refused(r.reason) else TakeContent(s, r.at, qname, depth, scope, count, limits)
    else if Starts(s, at, "<![CDATA[") then
      var r := Past(s, at, 9, "]]>");
      if r.Refused? then Refused(r.reason)
      else AfterText(r.value, TakeContent(s, r.at, qname, depth, scope, count, limits))
    else if Starts(s, at, "<!") then Refused(MarkupRefusal(s, at))
    else if Starts(s, at, "<?") then
      var r := Past(s, at, 2, "?>");
      if r.Refused? then Refused(r.reason) else TakeContent(s, r.at, qname, depth, scope, count, limits)
    else if s[at] == '<' then
      var child := TakeElement(s, at, depth + 1, scope, count, limits);
      if child.Refused? then Refused(child.reason) else
      AfterChild(child.value.element, TakeContent(s, child.at, qname, depth, scope, child.value.count, limits))
    else
      var text := TextRun(s, at);
      if text.Refused? then Refused(text.reason) else
      AfterText(text.value, TakeContent(s, text.at, qname, depth, scope, count, limits))
  }

  function TakeEndTag(s: string, at: nat, qname: string, count: nat): (r: Parse<Inside>)
    requires Starts(s, at, "</")
    ensures r.Got? ==> at < r.at <= |s|
  {
    var closing := QName(s, at + 2);
    if closing.Refused? then Refused(closing.reason) else
    var t := SkipSpace(s, closing.at);
    if !Is(s, t, '>') || closing.value != qname then Refused(Malformed) else Got(Inside("", [], count), t + 1)
  }

  function AfterText(text: string, r: Parse<Inside>): Parse<Inside>
  {
    if r.Refused? then r else Got(r.value.(text := text + r.value.text), r.at)
  }

  function AfterChild(child: ParsedElement, r: Parse<Inside>): Parse<Inside>
  {
    if r.Refused? then r else Got(r.value.(children := [child] + r.value.children), r.at)
  }

  // No caller can raise the depth past the ceiling that guards the stack.
  function Capped(limits: Limits): Limits
  {
    if limits.maxDepth > XML_MAX_DEPTH_CEILING then limits.(maxDepth := XML_MAX_DEPTH_CEILING) else limits
  }

  // A whole body, its byte-order mark already gone.
  function ParseBody(s: string, limits: Limits): Parse<ParsedElement> { ParseRest(s, Capped(limits)) }

  // One element, with comments and instructions around it.
  function ParseRest(s: string, limits: Limits): Parse<ParsedElement>
  {
    var start := SkipMisc(s, 0);
    if start.Refused? then Refused(start.reason)
    else if !Is(s, start.at, '<') then Refused(Malformed)
    else
      var root := TakeElement(s, start.at, 1, ROOT_SCOPE, 0, limits);
      if root.Refused? then Refused(root.reason)
      else
        var end := SkipMisc(s, root.at);
        if end.Refused? then Refused(end.reason)
        else if end.at < |s| then Refused(Malformed)
        else Got(root.value.element, end.at)
  }

  function BodyOf(input: string): string { if input != "" && input[0] == '\U{FEFF}' then input[1..] else input }

  function ParseXml(input: string, limits: Limits): Parse<ParsedElement>
  {
    if Units(input) > limits.maxBytes then Refused(TooLarge)
    else if !AllXmlChars(BodyOf(input)) then Refused(InvalidCharacter)
    else ParseBody(BodyOf(input), limits)
  }
}
