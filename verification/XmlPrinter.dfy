// The document builder the HTTP transports share, over strings of code points:
// which characters a document may carry, how text is escaped, how a tree prints.
module XmlPrinter {
  import opened Wrappers

  // ---------- characters ----------

  const REPLACEMENT: char := '\U{FFFD}'

  predicate IsXmlChar(code: int)
  {
    if code < 0x20 then code == 0x09 || code == 0x0A || code == 0x0D
    else if code < 0x7F then true
    else if code <= 0x9F then false
    else if 0xD800 <= code <= 0xDFFF then false
    else code % 0x1_0000 < 0xFFFE
  }

  predicate AllXmlChars(s: string) { forall i :: 0 <= i < |s| ==> IsXmlChar(s[i] as int) }

  function EscapeChar(c: char): (s: string)
    ensures s != "" && s[0] != '<'
  {
    if c == '&' then "&amp;"
    else if c == '<' then "&lt;"
    else if c == '>' then "&gt;"
    else if c == '\"' then "&quot;"
    else if c == '\'' then "&apos;"
    else if c == '\r' then "&#13;"
    else if IsXmlChar(c as int) then [c]
    else [REPLACEMENT]
  }

  function Escape(s: string): (escaped: string)
    ensures escaped == "" <==> s == ""
    ensures s != "" ==> escaped[0] != '<'
  {
    if s == "" then "" else EscapeChar(s[0]) + Escape(s[1..])
  }

  function Clean(c: char): char { if IsXmlChar(c as int) then c else REPLACEMENT }

  // A text as a reader of the document sees it: only characters no document can
  // carry have changed.
  function Sanitized(s: string): string
  {
    if s == "" then "" else [Clean(s[0])] + Sanitized(s[1..])
  }

  lemma {:induction false} SanitizedAt(s: string)
    ensures |Sanitized(s)| == |s| && AllXmlChars(Sanitized(s))
    ensures forall i :: 0 <= i < |s| ==> Sanitized(s)[i] == Clean(s[i])
  {
    if s != "" { SanitizedAt(s[1..]); }
  }

  lemma SanitizedIsSame(s: string)
    requires AllXmlChars(s)
    ensures Sanitized(s) == s
  {
    SanitizedAt(s);
  }

  lemma {:induction false} EscapeIsXml(s: string)
    ensures AllXmlChars(Escape(s))
  {
    if s != "" {
      EscapeIsXml(s[1..]);
      assert AllXmlChars(EscapeChar(s[0]));
    }
  }

  lemma EscapeSnoc(s: string, i: nat)
    requires i < |s|
    ensures Escape(s[i..]) == EscapeChar(s[i]) + Escape(s[i + 1..])
  {
    hide EscapeChar;
    assert s[i..][1..] == s[i + 1..];
  }

  method EscapeXmlText(value: string) returns (escaped: string)
    ensures escaped == Escape(value)
  {
    hide EscapeChar, Escape;
    escaped := "";
    var i := 0;
    assert value[0..] == value;
    while i < |value|
      invariant 0 <= i <= |value|
      invariant escaped + Escape(value[i..]) == Escape(value)
    {
      EscapeSnoc(value, i);
      escaped := escaped + EscapeChar(value[i]);
      i := i + 1;
    }
    assert Escape(value[i..]) == "";
  }

  // ---------- the document builder ----------

  datatype XmlNode = XmlNode(name: string, ns: Option<string>, text: Option<string>, children: seq<Option<XmlNode>>)

  const XML_DECLARATION: string := "<?xml version=\"1.0\" encoding=\"UTF-8\"?>"

  predicate Declares(node: XmlNode, inherited: string) { node.ns.Some? && node.ns.value != inherited }

  // The namespace an element ends up in: its own, or the one around it.
  function Effective(node: XmlNode, inherited: string): string { node.ns.GetOr(inherited) }

  function Attributes(node: XmlNode, inherited: string): string
  {
    if Declares(node, inherited) then " xmlns=\"" + (Escape(Effective(node, inherited)) + "\"") else ""
  }

  function TextOf(node: XmlNode): string { node.text.GetOr("") }

  function Render(node: XmlNode, inherited: string): string
    decreases node, 1
  {
    "<" + (node.name + (Attributes(node, inherited) + (">" +
      (Escape(TextOf(node)) + (RenderFrom(node, 0, Effective(node, inherited)) + ("</" + (node.name + ">")))))))
  }

  // The children of a node from the k-th on, absent ones dropped.
  function RenderFrom(node: XmlNode, k: nat, ns: string): string
    requires k <= |node.children|
    decreases node, 0, |node.children| - k
  {
    if k == |node.children| then ""
    else
      match node.children[k]
      case Some(child) => Render(child, ns) + RenderFrom(node, k + 1, ns)
      case None => RenderFrom(node, k + 1, ns)
  }

  // The root's own namespace gives way to the one asked for.
  function Rooted(root: XmlNode, xmlns: Option<string>): XmlNode { if xmlns.None? then root else root.(ns := xmlns) }

  function XmlDocument(root: XmlNode, xmlns: Option<string>): string
  {
    XML_DECLARATION + Render(Rooted(root, xmlns), "")
  }

  // UTF-16 code units, which is how long a string input is.
  function Units(s: string): nat
  {
    if s == "" then 0 else (if s[0] as int > 0xFFFF then 2 else 1) + Units(s[1..])
  }
}
