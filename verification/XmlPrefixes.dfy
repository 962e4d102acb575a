// Documents as clients write them: prefixes and declarations, empty elements, CDATA,
// comments and instructions; what the parser makes of each, and which namespace a
// prefix means.
module XmlPrefixes {
  import opened Wrappers
  import opened XmlPrinter
  import opened XmlGrammar
  import opened XmlRoundTrip

  // ---------- a tree with prefixes, and how it is written ----------

  // A declaration (of the default namespace where the prefix is empty), or any other
  // attribute.
  datatype Attribute = Binds(prefix: string, uri: string) | Other(name: string, value: string)

  datatype Item =
    | Text(text: string)
    | Cdata(cdata: string)
    | Comment(comment: string)
    | Instruction(body: string)
    | Child(element: Tagged)

  // `closed` is an element that ends with its start tag.
  datatype Tagged = Tagged(prefix: string, local: string, attributes: seq<Attribute>, closed: bool, items: seq<Item>)

  function QNameOf(t: Tagged): string { if t.prefix == "" then t.local else t.prefix + ":" + t.local }

  function AttributeName(a: Attribute): string
  {
    match a
    case Binds(prefix, _) => if prefix == "" then "xmlns" else "xmlns:" + prefix
    case Other(name, _) => name
  }

  function ValueOf(a: Attribute): string { if a.Binds? then a.uri else a.value }

  function PrintAttribute(a: Attribute): string { AttributeName(a) + ("=\"" + (Escape(ValueOf(a)) + "\"")) }

  function PrintAttributes(attributes: seq<Attribute>): string
  {
    if attributes == [] then "" else " " + (PrintAttribute(attributes[0]) + PrintAttributes(attributes[1..]))
  }

  function Print(t: Tagged): string
    decreases t, 1
  {
    "<" + (QNameOf(t) + (PrintAttributes(t.attributes) + (if t.closed then "/>" else ">" + PrintFrom(t, 0))))
  }

  // The inside of an element from its k-th item on, with its end tag.
  function PrintFrom(t: Tagged, k: nat): string
    requires k <= |t.items|
    decreases t, 0, |t.items| - k
  {
    if k == |t.items| then "</" + (QNameOf(t) + ">")
    else
      match t.items[k]
      case Text(text) => Escape(text) + PrintFrom(t, k + 1)
      case Cdata(cdata) => "<![CDATA[" + ((cdata + "]]>") + PrintFrom(t, k + 1))
      case Comment(comment) => "<!--" + ((comment + "-->") + PrintFrom(t, k + 1))
      case Instruction(body) => "<?" + ((body + "?>") + PrintFrom(t, k + 1))
      case Child(element) => Print(element) + PrintFrom(t, k + 1)
  }

  // ---------- what is well written ----------

  predicate NameLike(name: string)
  {
    name != "" && IsNameStart(name[0]) && AllXmlChars(name) && forall i :: 0 <= i < |name| ==> IsNameChar(name[i])
  }

  // The terminator does not occur before its own place.
  ghost predicate EndsAtFirst(body: string, terminator: string)
  {
    forall i: nat :: i < |body| ==> !Starts(body + terminator, i, terminator)
  }

  predicate GoodAttribute(a: Attribute)
  {
    NameLike(AttributeName(a)) && (a.Other? ==> a.name != "xmlns" && !("xmlns:" <= a.name))
  }

  // Texts stand apart: two side by side would be one.
  ghost predicate Good(t: Tagged)
  {
    && NameLike(QNameOf(t)) && ':' !in t.local
    && (forall i :: 0 <= i < |t.attributes| ==> GoodAttribute(t.attributes[i]))
    && (t.closed ==> t.items == [])
    && (forall k :: 0 <= k < |t.items| ==> GoodItem(t, k))
    && (forall k :: 0 <= k < |t.items| && t.items[k].Text? && k + 1 < |t.items| ==> !t.items[k + 1].Text?)
  }

  ghost predicate GoodItem(t: Tagged, k: nat)
    requires k < |t.items|
    decreases t, 0
  {
    match t.items[k]
    case Text(text) => text != ""
    case Cdata(cdata) => AllXmlChars(cdata) && EndsAtFirst(cdata, "]]>")
    case Comment(comment) => AllXmlChars(comment) && EndsAtFirst(comment, "-->")
    case Instruction(body) => AllXmlChars(body) && EndsAtFirst(body, "?>")
    case Child(element) => Good(element)
  }

  function Elements(t: Tagged): nat
    decreases t, 1
  {
    1 + ElementsFrom(t, 0)
  }

  function ElementsFrom(t: Tagged, k: nat): nat
    requires k <= |t.items|
    decreases t, 0, |t.items| - k
  {
    if k == |t.items| then 0
    else (match t.items[k] case Child(element) => Elements(element) case _ => 0) + ElementsFrom(t, k + 1)
  }

  function Levels(t: Tagged): nat
    decreases t, 1
  {
    1 + LevelsFrom(t, 0)
  }

  function LevelsFrom(t: Tagged, k: nat): nat
    requires k <= |t.items|
    decreases t, 0, |t.items| - k
  {
    if k == |t.items| then 0
    else
      var here := match t.items[k] case Child(element) => Levels(element) case _ => 0;
      var others := LevelsFrom(t, k + 1);
      if here > others then here else others
  }

  // ---------- what it means ----------

  // The declarations around a place, outermost first: the last one of a prefix counts.
  function Innermost(around: seq<Declaration>, prefix: string): Option<string>
  {
    if around == [] then None
    else if around[|around| - 1].prefix == prefix then Some(around[|around| - 1].uri)
    else Innermost(around[..|around| - 1], prefix)
  }

  // Two prefixes mean what they always mean, any other what it was last declared to be;
  // undeclared, or declared empty, it means no namespace.
  function Meaning(around: seq<Declaration>, prefix: string): string
  {
    if prefix == "xml" then "http://www.w3.org/XML/1998/namespace"
    else if prefix == "xmlns" then ""
    else Innermost(around, prefix).GetOr("")
  }

  function DeclaredBy(a: Attribute): Option<Declaration>
  {
    if a.Binds? then Some(Declaration(a.prefix, Sanitized(a.uri))) else None
  }

  function DeclaredIn(attributes: seq<Attribute>): seq<Declaration>
  {
    if attributes == [] then []
    else
      var d := DeclaredBy(attributes[0]);
      if d.None? then DeclaredIn(attributes[1..]) else [d.value] + DeclaredIn(attributes[1..])
  }

  // What an item adds to the text of its element.
  function TextIn(item: Item): string
  {
    match item
    case Text(text) => Sanitized(text)
    case Cdata(cdata) => cdata
    case _ => ""
  }

  function TextFrom(t: Tagged, k: nat): string
    requires k <= |t.items|
    decreases |t.items| - k
  {
    if k == |t.items| then "" else TextIn(t.items[k]) + TextFrom(t, k + 1)
  }

  // What a reader is to see of the element, inside those declarations.
  function Seen(t: Tagged, around: seq<Declaration>): ParsedElement
    decreases t, 1
  {
    var inner := around + DeclaredIn(t.attributes);
    ParsedElement(t.local, Meaning(inner, t.prefix), TextFrom(t, 0), SeenFrom(t, 0, inner))
  }

  function SeenFrom(t: Tagged, k: nat, around: seq<Declaration>): seq<ParsedElement>
    requires k <= |t.items|
    decreases t, 0, |t.items| - k
  {
    if k == |t.items| then []
    else
      match t.items[k]
      case Child(element) => [Seen(element, around)] + SeenFrom(t, k + 1, around)
      case _ => SeenFrom(t, k + 1, around)
  }

  // ---------- scopes ----------

  ghost predicate Agrees(scope: Scope, around: seq<Declaration>)
  {
    forall p: string :: Meaning(around, p) == if p in scope then scope[p] else ""
  }

  lemma RootAgrees()
    ensures Agrees(ROOT_SCOPE, [])
  {
  }

  lemma OneMoreAgrees(scope: Scope, around: seq<Declaration>, d: Declaration)
    requires Agrees(scope, around)
    ensures Agrees(ScopeStep(scope, d), around + [d])
  {
    forall p: string
      ensures Meaning(around + [d], p) == if p in ScopeStep(scope, d) then ScopeStep(scope, d)[p] else ""
    {
      assert (around + [d])[..|around|] == around;
      assert Meaning(around, p) == if p in scope then scope[p] else "";
    }
  }

  // The map the parser carries means the list of declarations around it.
  lemma {:induction false} ScopeAgrees(scope: Scope, around: seq<Declaration>, declarations: seq<Declaration>)
    requires Agrees(scope, around)
    ensures Agrees(ScopeWith(scope, declarations), around + declarations)
    decreases |declarations|
  {
    hide Agrees, ScopeStep;
    if declarations == [] {
      assert around + declarations == around;
    } else {
      OneMoreAgrees(scope, around, declarations[0]);
      ScopeAgrees(ScopeStep(scope, declarations[0]), around + [declarations[0]], declarations[1..]);
      assert around + [declarations[0]] + declarations[1..] == around + declarations;
    }
  }

  lemma LastColonIs(name: string, at: nat)
    requires at < |name| && name[at] == ':' && forall i :: at < i < |name| ==> name[i] != ':'
    ensures LastColon(name) == at
  {
    hide LastColon;
  }

  lemma ColonAt(prefix: string, local: string)
    requires ':' !in local
    ensures LastColon(prefix + ":" + local) == |prefix|
  {
    hide *;
    var name := prefix + ":" + local;
    NoColonAfter(prefix + ":", local);
    assert (prefix + ":")[|prefix|] == ':';
    LastColonIs(name, |prefix|);
  }

  lemma NoColonAfter(front: string, local: string)
    requires ':' !in local
    ensures forall i :: |front| <= i < |front + local| ==> (front + local)[i] != ':'
  {
    forall i | |front| <= i < |front + local| ensures (front + local)[i] != ':' {
      assert (front + local)[i] == local[i - |front|];
    }
  }

  // The two halves of a name.
  lemma HalvesOf(t: Tagged, scope: Scope)
    requires ':' !in t.local
    ensures LocalName(QNameOf(t)) == t.local && NamespaceOf(QNameOf(t), scope) == Bound(t.prefix, scope)
  {
    if t.prefix == "" {
      LocalIsWhole(t.local, scope);
    } else {
      var name := QNameOf(t);
      ColonAt(t.prefix, t.local);
      assert name[..|t.prefix|] == t.prefix && name[|t.prefix| + 1..] == t.local;
    }
  }

  // ---------- one written piece at a time ----------

  lemma NameAt(s: string, at: nat, name: string)
    requires NameLike(name) && Starts(s, at, name)
    requires at + |name| < |s| && !IsNameChar(s[at + |name|])
    ensures QName(s, at) == Got(name, at + |name|)
  {
    StartsAt(s, at, name, 0);
    forall i | at + 1 <= i < at + |name| ensures IsNameChar(s[i]) { StartsAt(s, at, name, i - at); }
    NameEndIs(s, at + 1, at + |name|);
  }

  lemma DeclarationIs(a: Attribute)
    requires GoodAttribute(a)
    ensures DeclarationOf(AttributeName(a), Sanitized(ValueOf(a))) == DeclaredBy(a)
  {
    if a.Binds? && a.prefix != "" {
      assert ("xmlns:" + a.prefix)[6..] == a.prefix;
    }
  }

  lemma AttributeAt(s: string, at: nat, a: Attribute)
    requires GoodAttribute(a) && Starts(s, at, PrintAttribute(a))
    ensures at <= |s| && TakeAttribute(s, at) == Got(DeclaredBy(a), at + |PrintAttribute(a)|)
  {
    hide Escape, Sanitized, AttributeValue, Starts, NameLike, QName, DeclarationOf, DeclaredBy, AttributeName;
    var name, value := AttributeName(a), ValueOf(a);
    var u := at + |name|;
    StartsBoth(s, at, name, "=\"" + (Escape(value) + "\""));
    StartsBoth(s, u, "=\"", Escape(value) + "\"");
    StartsBoth(s, u + 2, Escape(value), "\"");
    StartsAt(s, u, "=\"", 0);
    StartsAt(s, u, "=\"", 1);
    StartsAt(s, u + 2 + |Escape(value)|, "\"", 0);
    StartsInside(s, u + 2 + |Escape(value)|, "\"");
    NameAt(s, at, name);
    AttributeValueAt(s, u + 2, value);
    DeclarationIs(a);
  }

  // How a start tag ends.
  function TagEnd(closed: bool): string { if closed then "/>" else ">" }

  lemma TagEndAt(s: string, at: nat, closed: bool)
    requires Starts(s, at, TagEnd(closed))
    ensures at <= |s| && TakeAttributes(s, at) == Got(Tag([], closed), at + |TagEnd(closed)|)
  {
    StartsAt(s, at, TagEnd(closed), 0);
    assert SkipSpace(s, at) == at;
    if closed { StartsAt(s, at, TagEnd(closed), 1); }
  }

  lemma AttributeStep(s: string, at: nat, d: Option<Declaration>, end: nat, others: Parse<Tag>)
    requires at + 1 < end <= |s| && s[at] == ' ' && IsNameStart(s[at + 1])
    requires TakeAttribute(s, at + 1) == Got(d, end) && TakeAttributes(s, end) == others
    ensures TakeAttributes(s, at) == XmlGrammar.Declared(d, others)
  {
    assert SkipSpace(s, at) == at + 1;
    hide TakeAttribute, SkipSpace;
  }

  lemma PrintAttributesParts(s: string, at: nat, attributes: seq<Attribute>)
    requires attributes != [] && Starts(s, at, PrintAttributes(attributes))
    ensures Is(s, at, ' ') && Starts(s, at + 1, PrintAttribute(attributes[0]))
    ensures Starts(s, at + 1 + |PrintAttribute(attributes[0])|, PrintAttributes(attributes[1..]))
    ensures |PrintAttributes(attributes)| == 1 + |PrintAttribute(attributes[0])| + |PrintAttributes(attributes[1..])|
  {
    hide PrintAttribute, Starts;
    var first, others := PrintAttribute(attributes[0]), PrintAttributes(attributes[1..]);
    StartsBoth(s, at, " ", first + others);
    StartsBoth(s, at + 1, first, others);
    StartsIs(s, at, " ");
  }

  lemma AttributeHead(s: string, at: nat, a: Attribute)
    requires GoodAttribute(a) && Starts(s, at, PrintAttribute(a))
    ensures at + |PrintAttribute(a)| <= |s| && |PrintAttribute(a)| > 0 && IsNameStart(s[at])
  {
    hide Escape, AttributeName, Starts;
    StartsInside(s, at, PrintAttribute(a));
    StartsAt(s, at, PrintAttribute(a), 0);
  }

  lemma {:induction false} AttributesAt(s: string, at: nat, attributes: seq<Attribute>, closed: bool)
    requires forall i :: 0 <= i < |attributes| ==> GoodAttribute(attributes[i])
    requires Starts(s, at, PrintAttributes(attributes))
    requires Starts(s, at + |PrintAttributes(attributes)|, TagEnd(closed))
    ensures at <= |s| && TakeAttributes(s, at) ==
            Got(Tag(DeclaredIn(attributes), closed), at + |PrintAttributes(attributes)| + |TagEnd(closed)|)
    decreases |attributes|
  {
    hide TakeAttribute, TakeAttributes, Starts, PrintAttribute, TagEnd, GoodAttribute;
    if attributes == [] {
      TagEndAt(s, at, closed);
    } else {
      PrintAttributesParts(s, at, attributes);
      var a := attributes[0];
      var end := at + 1 + |PrintAttribute(a)|;
      AttributeHead(s, at + 1, a);
      AttributeAt(s, at + 1, a);
      AttributesAt(s, end, attributes[1..], closed);
      AttributeStep(s, at, DeclaredBy(a), end, TakeAttributes(s, end));
    }
  }

  lemma PastAt(s: string, at: nat, opening: string, body: string, terminator: string)
    requires opening != "" && Starts(s, at, opening + (body + terminator)) && EndsAtFirst(body, terminator)
    ensures at + |opening| <= |s|
    ensures Past(s, at, |opening|, terminator) == Got(body, at + |opening| + |body| + |terminator|)
  {
    var from := at + |opening|;
    StartsBoth(s, at, opening, body + terminator);
    StartsBoth(s, from, body, terminator);
    forall j: nat | from <= j < from + |body| ensures !Starts(s, j, terminator) {
      StartsWithin(s, from, body + terminator, j - from, terminator);
    }
    FirstAt(s, from, from + |body|, terminator);
  }

  lemma FirstAt(s: string, from: nat, end: nat, what: string)
    requires from <= end && Starts(s, end, what) && forall j: nat :: from <= j < end ==> !Starts(s, j, what)
    ensures Find(s, from, what) == end
  {
    hide Find, Starts;
  }

  lemma StartsWithin(s: string, at: nat, what: string, i: nat, part: string)
    requires Starts(s, at, what) && i + |part| <= |what|
    ensures Starts(s, at + i, part) <==> Starts(what, i, part)
  {
    var x, y := what[i..i + |part|], s[at + i..at + i + |part|];
    forall k | 0 <= k < |part| ensures x[k] == y[k] { StartsAt(s, at, what, i + k); }
    assert x == y;
  }

  // ---------- the inside of an element ----------

  lemma CdataStep(s: string, at: nat, body: string, end: nat, qname: string, depth: nat, scope: Scope, count: nat,
                    limits: Limits)
    requires Starts(s, at, "<![CDATA[") && Past(s, at, 9, "]]>") == Got(body, end) && end <= |s|
    ensures TakeContent(s, at, qname, depth, scope, count, limits) ==
            AfterText(body, TakeContent(s, end, qname, depth, scope, count, limits))
  {
    hide TextRun, Past, TakeElement, TakeEndTag, AfterText, Starts;
    StartsAt(s, at, "<![CDATA[", 1);
    StartsAt(s, at, "<![CDATA[", 2);
    StartsInside(s, at, "<![CDATA[");
    StartsOnly(s, at, "</", 1);
    StartsOnly(s, at, "<!--", 2);
  }

  lemma CommentStep(s: string, at: nat, body: string, end: nat, qname: string, depth: nat, scope: Scope, count: nat,
                    limits: Limits)
    requires Starts(s, at, "<!--") && Past(s, at, 4, "-->") == Got(body, end) && end <= |s|
    ensures TakeContent(s, at, qname, depth, scope, count, limits) ==
            TakeContent(s, end, qname, depth, scope, count, limits)
  {
    hide TextRun, Past, TakeElement, TakeEndTag, AfterText, Starts;
    StartsAt(s, at, "<!--", 1);
    StartsInside(s, at, "<!--");
    StartsOnly(s, at, "</", 1);
  }

  lemma InstructionStep(s: string, at: nat, body: string, end: nat, qname: string, depth: nat, scope: Scope, count: nat,
                    limits: Limits)
    requires Starts(s, at, "<?") && Past(s, at, 2, "?>") == Got(body, end) && end <= |s|
    ensures TakeContent(s, at, qname, depth, scope, count, limits) ==
            TakeContent(s, end, qname, depth, scope, count, limits)
  {
    hide TextRun, Past, TakeElement, TakeEndTag, AfterText, Starts;
    StartsAt(s, at, "<?", 1);
    StartsInside(s, at, "<?");
    StartsOnly(s, at, "</", 1);
    StartsOnly(s, at, "<!--", 1);
    StartsOnly(s, at, "<![CDATA[", 1);
    StartsOnly(s, at, "<!", 1);
  }

  lemma CloseAt(s: string, at: nat, t: Tagged, count: nat)
    requires NameLike(QNameOf(t)) && Starts(s, at, "</" + (QNameOf(t) + ">"))
    ensures Starts(s, at, "</") &&
            TakeEndTag(s, at, QNameOf(t), count) == Got(Inside("", [], count), at + 3 + |QNameOf(t)|)
  {
    var name := QNameOf(t);
    StartsBoth(s, at, "</", name + ">");
    StartsBoth(s, at + 2, name, ">");
    StartsAt(s, at + 2 + |name|, ">", 0);
    NameAt(s, at + 2, name);
  }

  // Unless text comes next, markup does.
  lemma {:induction false} FromHead(t: Tagged, k: nat)
    requires k <= |t.items| && (k < |t.items| ==> !t.items[k].Text?)
    ensures PrintFrom(t, k) != "" && PrintFrom(t, k)[0] == '<'
  {
    hide Escape, PrintAttributes;
  }

  lemma PrintShape(t: Tagged)
    ensures Print(t) ==
            "<" + (QNameOf(t) + (PrintAttributes(t.attributes) +
                (TagEnd(t.closed) + if t.closed then "" else PrintFrom(t, 0))))
  {
    hide PrintAttributes, PrintFrom;
    assert "/>" + "" == "/>";
  }

  lemma PrintParts(s: string, at: nat, t: Tagged)
    requires Starts(s, at, Print(t))
    ensures Is(s, at, '<') && Starts(s, at + 1, QNameOf(t))
    ensures var a := at + 1 + |QNameOf(t)|; var b := a + |PrintAttributes(t.attributes)|;
            var inside := b + |TagEnd(t.closed)|;
            && Starts(s, a, PrintAttributes(t.attributes)) && Starts(s, b, TagEnd(t.closed)) && inside <= |s|
            && (if t.closed then at + |Print(t)| == inside
                else Starts(s, inside, PrintFrom(t, 0)) && at + |Print(t)| == inside + |PrintFrom(t, 0)|)
  {
    hide PrintAttributes, Print, PrintFrom, Starts, TagEnd, QNameOf;
    var tail := TagEnd(t.closed) + if t.closed then "" else PrintFrom(t, 0);
    var a := at + 1 + |QNameOf(t)|;
    var b := a + |PrintAttributes(t.attributes)|;
    PrintShape(t);
    StartsBoth(s, at, "<", QNameOf(t) + (PrintAttributes(t.attributes) + tail));
    StartsIs(s, at, "<");
    StartsBoth(s, at + 1, QNameOf(t), PrintAttributes(t.attributes) + tail);
    StartsBoth(s, a, PrintAttributes(t.attributes), tail);
    StartsBoth(s, b, TagEnd(t.closed), if t.closed then "" else PrintFrom(t, 0));
    StartsInside(s, b, TagEnd(t.closed));
  }

  lemma NameStops(s: string, at: nat, attributes: seq<Attribute>, closed: bool)
    requires Starts(s, at, PrintAttributes(attributes)) && Starts(s, at + |PrintAttributes(attributes)|, TagEnd(closed))
    ensures at < |s| && !IsNameChar(s[at])
  {
    if attributes == [] {
      StartsAt(s, at, TagEnd(closed), 0);
    } else {
      PrintAttributesParts(s, at, attributes);
    }
  }

  lemma StartAt(s: string, at: nat, t: Tagged)
    requires Good(t) && Starts(s, at, Print(t))
    ensures at < |s| && QName(s, at + 1) == Got(QNameOf(t), at + 1 + |QNameOf(t)|)
    ensures TakeAttributes(s, at + 1 + |QNameOf(t)|) ==
            Got(Tag(DeclaredIn(t.attributes), t.closed),
                at + 1 + |QNameOf(t)| + |PrintAttributes(t.attributes)| + |TagEnd(t.closed)|)
  {
    hide PrintAttributes, Print, PrintFrom, Starts, TagEnd, QNameOf, NameLike, GoodAttribute, GoodItem, DeclaredIn,
         TakeAttributes, QName;
    PrintParts(s, at, t);
    NameStops(s, at + 1 + |QNameOf(t)|, t.attributes, t.closed);
    NameAt(s, at + 1, QNameOf(t));
    AttributesAt(s, at + 1 + |QNameOf(t)|, t.attributes, t.closed);
  }

  lemma ClosedStep(s: string, at: nat, depth: nat, scope: Scope, count: nat, limits: Limits, name: string, from: nat,
                    declarations: seq<Declaration>, end: nat)
    requires Is(s, at, '<') && depth <= limits.maxDepth && count + 1 <= limits.maxElements
    requires QName(s, at + 1) == Got(name, from) && TakeAttributes(s, from) == Got(Tag(declarations, true), end)
    ensures TakeElement(s, at, depth, scope, count, limits) ==
            Got(Counted(XmlGrammar.Element(name, ScopeWith(scope, declarations), "", []), count + 1), end)
  {
    hide QName, TakeAttributes, TakeContent, ScopeWith, XmlGrammar.Closed, XmlGrammar.Element;
  }

  lemma SeenShape(t: Tagged, around: seq<Declaration>, scope: Scope)
    requires ':' !in t.local && Agrees(scope, around + DeclaredIn(t.attributes))
    ensures XmlGrammar.Element(QNameOf(t), scope, TextFrom(t, 0), SeenFrom(t, 0, around + DeclaredIn(t.attributes)))
            == Seen(t, around)
  {
    hide Meaning, QNameOf, SeenFrom, TextFrom, DeclaredIn, LocalName, NamespaceOf;
    HalvesOf(t, scope);
    assert Bound(t.prefix, scope) == Meaning(around + DeclaredIn(t.attributes), t.prefix);
  }

  lemma GoodIs(t: Tagged)
    requires Good(t)
    ensures NameLike(QNameOf(t)) && ':' !in t.local && (t.closed ==> t.items == [])
  {
  }

  lemma FitsWithin(t: Tagged, depth: nat, count: nat, limits: Limits)
    requires Fits(Levels(t), Elements(t), depth, count, limits)
    ensures depth <= limits.maxDepth && count + 1 <= limits.maxElements && Elements(t) == 1 + ElementsFrom(t, 0)
    ensures Fits(LevelsFrom(t, 0), ElementsFrom(t, 0), depth + 1, count + 1, limits)
  {
  }

  lemma FitsOn(t: Tagged, k: nat, depth: nat, count: nat, limits: Limits)
    requires k < |t.items| && Fits(LevelsFrom(t, k), ElementsFrom(t, k), depth, count, limits)
    ensures match t.items[k]
            case Child(element) =>
              && Fits(Levels(element), Elements(element), depth, count, limits)
              && Fits(LevelsFrom(t, k + 1), ElementsFrom(t, k + 1), depth, count + Elements(element), limits)
              && ElementsFrom(t, k) == Elements(element) + ElementsFrom(t, k + 1)
            case _ =>
              && Fits(LevelsFrom(t, k + 1), ElementsFrom(t, k + 1), depth, count, limits)
              && ElementsFrom(t, k) == ElementsFrom(t, k + 1)
  {
  }

  lemma Emptied(t: Tagged, around: seq<Declaration>)
    requires t.items == []
    ensures TextFrom(t, 0) == "" && SeenFrom(t, 0, around) == [] && ElementsFrom(t, 0) == 0
  {
  }

  // An element as a client writes it is reported by its local name, in the namespace the
  // innermost declaration of its prefix gives, with its text and its elements in order.
  lemma {:induction false} PrefixedElementAt(s: string, at: nat, t: Tagged, around: seq<Declaration>, depth: nat,
                    scope: Scope, count: nat, limits: Limits)
    requires Good(t) && Starts(s, at, Print(t)) && Agrees(scope, around)
    requires Fits(Levels(t), Elements(t), depth, count, limits)
    ensures Is(s, at, '<')
    ensures TakeElement(s, at, depth, scope, count, limits) ==
            Got(Counted(Seen(t, around), count + Elements(t)), at + |Print(t)|)
    decreases t, 1
  {
    hide *;
    var declarations := DeclaredIn(t.attributes);
    var inner, within := around + declarations, ScopeWith(scope, declarations);
    var from := at + 1 + |QNameOf(t)|;
    var inside := from + |PrintAttributes(t.attributes)| + |TagEnd(t.closed)|;
    GoodIs(t);
    FitsWithin(t, depth, count, limits);
    PrintParts(s, at, t);
    StartAt(s, at, t);
    ScopeAgrees(scope, around, declarations);
    SeenShape(t, around, within);
    if t.closed {
      Emptied(t, inner);
      ClosedStep(s, at, depth, scope, count, limits, QNameOf(t), from, declarations, inside);
    } else {
      ItemsAt(s, inside, t, 0, inner, depth, within, count + 1, limits);
      var r := TakeContent(s, inside, QNameOf(t), depth, within, count + 1, limits);
      ElementStep(s, at, depth, scope, count, limits, QNameOf(t), from, declarations, inside, r);
      ClosedIs(QNameOf(t), within, r);
    }
  }

  lemma ClosedIs(qname: string, scope: Scope, r: Parse<Inside>)
    requires r.Got?
    ensures XmlGrammar.Closed(qname, scope, r) ==
            Got(Counted(XmlGrammar.Element(qname, scope, r.value.text, r.value.children), r.value.count), r.at)
  {
  }

  lemma {:induction false} ItemsAt(s: string, at: nat, t: Tagged, k: nat, around: seq<Declaration>, depth: nat,
                    scope: Scope, count: nat, limits: Limits)
    requires Good(t) && k <= |t.items| && at <= |s| && Starts(s, at, PrintFrom(t, k)) && Agrees(scope, around)
    requires Fits(LevelsFrom(t, k), ElementsFrom(t, k), depth + 1, count, limits)
    ensures TakeContent(s, at, QNameOf(t), depth, scope, count, limits) ==
            Got(Inside(TextFrom(t, k), SeenFrom(t, k, around), count + ElementsFrom(t, k)), at + |PrintFrom(t, k)|)
    decreases t, 0, |t.items| - k
  {
    hide *;
    FromShape(t, k, around);
    if k == |t.items| {
      GoodIs(t);
      CloseAt(s, at, t, count);
      EndTagStep(s, at, QNameOf(t), depth, scope, count, limits);
    } else {
      FitsOn(t, k, depth + 1, count, limits);
      ItemIs(t, k);
      SeenNext(t, k, around);
      if t.items[k].Child? {
        var element := t.items[k].element;
        StartsBoth(s, at, Print(element), PrintFrom(t, k + 1));
        StartsInside(s, at, Print(element));
        PrefixedElementAt(s, at, element, around, depth + 1, scope, count, limits);
        ItemsAt(s, at + |Print(element)|, t, k + 1, around, depth, scope, count + Elements(element), limits);
        PrintOpens(s, at, element);
        ChildStep(s, at, QNameOf(t), depth, scope, count, limits);
        AfterOneChild(Seen(element, around),
            TakeContent(s, at + |Print(element)|, QNameOf(t), depth, scope, count + Elements(element), limits));
      } else {
        var end := ItemAt(s, at, t, k, depth, scope, count, limits);
        ItemsAt(s, end, t, k + 1, around, depth, scope, count, limits);
        AfterTextIs(TextIn(t.items[k]), TakeContent(s, end, QNameOf(t), depth, scope, count, limits));
      }
    }
  }

  // Text, a CDATA section, a comment or an instruction, and what it adds to the text.
  lemma ItemAt(s: string, at: nat, t: Tagged, k: nat, depth: nat, scope: Scope, count: nat, limits: Limits)
    returns (end: nat)
    requires Good(t) && k < |t.items| && !t.items[k].Child? && at <= |s| && Starts(s, at, PrintFrom(t, k))
    ensures end <= |s| && Starts(s, end, PrintFrom(t, k + 1))
    ensures end + |PrintFrom(t, k + 1)| == at + |PrintFrom(t, k)|
    ensures TakeContent(s, at, QNameOf(t), depth, scope, count, limits) ==
            AfterText(TextIn(t.items[k]), TakeContent(s, end, QNameOf(t), depth, scope, count, limits))
  {
    hide *;
    FromShape(t, k, []);
    ItemIs(t, k);
    match t.items[k] {
      case Text(text) =>
        end := TextAt(s, at, t, k);
        TextStep(s, at, Sanitized(text), end, QNameOf(t), depth, scope, count, limits);
      case Cdata(cdata) =>
        end := MarkAt(s, at, "<![CDATA[", cdata, "]]>", PrintFrom(t, k + 1));
        CdataStep(s, at, cdata, end, QNameOf(t), depth, scope, count, limits);
      case Comment(comment) =>
        end := MarkAt(s, at, "<!--", comment, "-->", PrintFrom(t, k + 1));
        CommentStep(s, at, comment, end, QNameOf(t), depth, scope, count, limits);
        AfterNoText(TakeContent(s, end, QNameOf(t), depth, scope, count, limits));
      case Instruction(body) =>
        end := MarkAt(s, at, "<?", body, "?>", PrintFrom(t, k + 1));
        InstructionStep(s, at, body, end, QNameOf(t), depth, scope, count, limits);
        AfterNoText(TakeContent(s, end, QNameOf(t), depth, scope, count, limits));
    }
  }

  lemma AfterNoText(r: Parse<Inside>)
    ensures AfterText("", r) == r
  {
    assert r.Got? ==> "" + r.value.text == r.value.text;
  }

  lemma AfterTextIs(text: string, r: Parse<Inside>)
    requires r.Got?
    ensures AfterText(text, r) == Got(Inside(text + r.value.text, r.value.children, r.value.count), r.at)
  {
  }

  lemma FromShape(t: Tagged, k: nat, around: seq<Declaration>)
    requires k <= |t.items|
    ensures if k == |t.items| then
              PrintFrom(t, k) == "</" + (QNameOf(t) + ">") && |PrintFrom(t, k)| == 3 + |QNameOf(t)| &&
              TextFrom(t, k) == "" && SeenFrom(t, k, around) == [] && ElementsFrom(t, k) == 0
            else match t.items[k]
                 case Text(text) =>
                   PrintFrom(t, k) == Escape(text) + PrintFrom(t, k + 1) && TextIn(t.items[k]) == Sanitized(text)
                 case Cdata(cdata) =>
                   PrintFrom(t, k) == "<![CDATA[" + ((cdata + "]]>") + PrintFrom(t, k + 1)) &&
                       TextIn(t.items[k]) == cdata
                 case Comment(comment) =>
                   PrintFrom(t, k) == "<!--" + ((comment + "-->") + PrintFrom(t, k + 1)) && TextIn(t.items[k]) == ""
                 case Instruction(body) =>
                   PrintFrom(t, k) == "<?" + ((body + "?>") + PrintFrom(t, k + 1)) && TextIn(t.items[k]) == ""
                 case Child(element) => PrintFrom(t, k) == Print(element) + PrintFrom(t, k + 1)
  {
    hide Print, Escape, Sanitized, Seen, QNameOf;
  }

  lemma SeenNext(t: Tagged, k: nat, around: seq<Declaration>)
    requires k < |t.items|
    ensures if t.items[k].Child? then
              TextFrom(t, k) == TextFrom(t, k + 1) &&
              SeenFrom(t, k, around) == [Seen(t.items[k].element, around)] + SeenFrom(t, k + 1, around)
            else
              TextFrom(t, k) == TextIn(t.items[k]) + TextFrom(t, k + 1) &&
              SeenFrom(t, k, around) == SeenFrom(t, k + 1, around)
  {
    hide Seen, Sanitized;
    assert "" + TextFrom(t, k + 1) == TextFrom(t, k + 1);
  }

  lemma ItemIs(t: Tagged, k: nat)
    requires Good(t) && k < |t.items|
    ensures match t.items[k]
            case Text(text) => text != "" && (k + 1 < |t.items| ==> !t.items[k + 1].Text?)
            case Cdata(cdata) => EndsAtFirst(cdata, "]]>")
            case Comment(comment) => EndsAtFirst(comment, "-->")
            case Instruction(body) => EndsAtFirst(body, "?>")
            case Child(element) => Good(element)
  {
    hide EndsAtFirst, NameLike;
    assert GoodItem(t, k);
  }

  // A written text is one run, up to the markup behind it.
  lemma TextAt(s: string, at: nat, t: Tagged, k: nat) returns (end: nat)
    requires k < |t.items| && t.items[k].Text? && t.items[k].text != ""
    requires k + 1 < |t.items| ==> !t.items[k + 1].Text?
    requires Starts(s, at, Escape(t.items[k].text) + PrintFrom(t, k + 1))
    ensures end == at + |Escape(t.items[k].text)| && at < end <= |s| && s[at] != '<'
    ensures Starts(s, end, PrintFrom(t, k + 1)) && TextRun(s, at) == Got(Sanitized(t.items[k].text), end)
  {
    hide *;
    var text := t.items[k].text;
    end := at + |Escape(text)|;
    StartsBoth(s, at, Escape(text), PrintFrom(t, k + 1));
    StartsInside(s, at, Escape(text));
    StartsAt(s, at, Escape(text), 0);
    FromHead(t, k + 1);
    StartsIs(s, end, PrintFrom(t, k + 1));
    TextRunAt(s, at, text);
  }

  lemma MarkAt(s: string, at: nat, opening: string, body: string, terminator: string, rest: string) returns (end: nat)
    requires opening != "" && EndsAtFirst(body, terminator)
    requires Starts(s, at, opening + ((body + terminator) + rest))
    ensures end == at + |opening| + |body| + |terminator| && end <= |s|
    ensures Starts(s, at, opening) && Starts(s, end, rest) && at + |opening| <= |s|
    ensures Past(s, at, |opening|, terminator) == Got(body, end)
  {
    hide *;
    var marked := body + terminator;
    end := at + |opening| + |marked|;
    assert opening + (marked + rest) == (opening + marked) + rest;
    StartsBoth(s, at, opening + marked, rest);
    StartsInside(s, at, opening + marked);
    StartsBoth(s, at, opening, marked);
    PastAt(s, at, opening, body, terminator);
  }

  lemma PrintOpens(s: string, at: nat, t: Tagged)
    requires Good(t) && Starts(s, at, Print(t))
    ensures Opens(s, at)
  {
    hide Print, PrintFrom, PrintAttributes, Starts, QNameOf, TagEnd;
    PrintParts(s, at, t);
    StartsAt(s, at + 1, QNameOf(t), 0);
    StartsInside(s, at + 1, QNameOf(t));
  }
}
