// What comes out of the parser: it can always be carried by a document, it is
// within the caps, and it prints and parses back to itself exactly when every
// name in it begins the way a name must.
module XmlReprint {
  import opened Wrappers
  import opened XmlPrinter
  import opened XmlGrammar
  import opened XmlRoundTrip
  import opened XmlTheorems

  // ---------- parsed trees ----------

  predicate CleanName(name: string)
  {
    && ':' !in name && AllXmlChars(name)
    && forall i :: 0 <= i < |name| ==> IsNameChar(name[i])
  }

  predicate CleanTree(t: ParsedElement)
  {
    && CleanName(t.name) && AllXmlChars(t.ns) && AllXmlChars(t.text)
    && forall i :: 0 <= i < |t.children| ==> CleanTree(t.children[i])
  }

  predicate CleanTrees(ts: seq<ParsedElement>) { forall t :: t in ts ==> CleanTree(t) }

  function TreeSize(t: ParsedElement): nat
    decreases t, 1
  {
    1 + TreesSize(t, 0)
  }

  function TreesSize(t: ParsedElement, k: nat): nat
    requires k <= |t.children|
    decreases t, 0, |t.children| - k
  {
    if k == |t.children| then 0 else TreeSize(t.children[k]) + TreesSize(t, k + 1)
  }

  // Every name in the tree begins with a name-start character.
  predicate StartsWell(t: ParsedElement)
  {
    && t.name != "" && IsNameStart(t.name[0])
    && forall i :: 0 <= i < |t.children| ==> StartsWell(t.children[i])
  }

  function AsNode(t: ParsedElement): XmlNode
  {
    XmlNode(t.name, Some(t.ns), Some(t.text),
            seq(|t.children|, i requires 0 <= i < |t.children| => Some(AsNode(t.children[i]))))
  }

  // ---------- what the parser hands out ----------

  predicate CleanScope(scope: Scope) { forall p :: p in scope ==> AllXmlChars(scope[p]) }

  lemma {:induction false} TextIsClean(s: string, at: nat)
    requires AllXmlChars(s) && at <= |s| && TextRun(s, at).Got?
    ensures AllXmlChars(TextRun(s, at).value)
    decreases |s| - at
  {
    hide IsXmlChar, TakeEntity;
    if at < |s| && s[at] != '<' {
      if s[at] == '&' {
        TextIsClean(s, TakeEntity(s, at).at);
      } else {
        TextIsClean(s, at + 1);
      }
    }
  }

  lemma {:induction false} AttributeIsClean(s: string, at: nat, quote: char)
    requires AllXmlChars(s) && at <= |s| && AttributeValue(s, at, quote).Got?
    ensures AllXmlChars(AttributeValue(s, at, quote).value)
    decreases |s| - at
  {
    hide IsXmlChar, TakeEntity;
    if s[at] != quote {
      if s[at] == '&' {
        AttributeIsClean(s, TakeEntity(s, at).at, quote);
      } else {
        AttributeIsClean(s, at + 1, quote);
      }
    }
  }

  predicate CleanDeclarations(ds: seq<Declaration>) { forall d :: d in ds ==> AllXmlChars(d.uri) }

  lemma OneAttributeIsClean(s: string, at: nat)
    requires AllXmlChars(s) && at <= |s| && TakeAttribute(s, at).Got?
    ensures TakeAttribute(s, at).value.Some? ==> AllXmlChars(TakeAttribute(s, at).value.value.uri)
  {
    hide IsXmlChar, AttributeValue, QName;
    var t := SkipSpace(s, QName(s, at).at);
    var u := SkipSpace(s, t + 1);
    AttributeIsClean(s, u + 1, s[u]);
  }

  lemma {:induction false} TagIsClean(s: string, at: nat)
    requires AllXmlChars(s) && at <= |s| && TakeAttributes(s, at).Got?
    ensures CleanDeclarations(TakeAttributes(s, at).value.declarations)
    decreases |s| - at
  {
    hide IsXmlChar, TakeAttribute;
    var t := SkipSpace(s, at);
    if !Is(s, t, '>') && !Is(s, t, '/') {
      OneAttributeIsClean(s, t);
      TagIsClean(s, TakeAttribute(s, t).at);
    }
  }

  lemma {:induction false} ScopeIsClean(scope: Scope, ds: seq<Declaration>)
    requires CleanScope(scope) && CleanDeclarations(ds)
    ensures CleanScope(ScopeWith(scope, ds))
    decreases |ds|
  {
    hide AllXmlChars;
    if ds != [] {
      assert ds[0] in ds;
      ScopeIsClean(ScopeStep(scope, ds[0]), ds[1..]);
    }
  }

  lemma SliceIsXml(s: string, from: nat, to: nat)
    requires AllXmlChars(s) && from <= to <= |s|
    ensures AllXmlChars(s[from..to])
  {
  }

  lemma LocalIsClean(s: string, at: nat)
    requires AllXmlChars(s) && at <= |s| && QName(s, at).Got?
    ensures CleanName(LocalName(QName(s, at).value))
  {
    hide IsXmlChar, IsNameChar, LastColon;
    SliceIsXml(s, at, QName(s, at).at);
  }

  lemma BoundIsClean(prefix: string, scope: Scope)
    requires CleanScope(scope)
    ensures AllXmlChars(Bound(prefix, scope))
  {
  }

  // Sizes and heights of a list of parsed children.
  function SizeOf(ts: seq<ParsedElement>): nat
  {
    if ts == [] then 0 else TreeSize(ts[0]) + SizeOf(ts[1..])
  }

  predicate Shallow(ts: seq<ParsedElement>, bound: int) { forall t :: t in ts ==> Height(AsNode(t)) <= bound }

  lemma {:induction false} TreesSizeIs(t: ParsedElement, k: nat)
    requires k <= |t.children|
    ensures TreesSize(t, k) == SizeOf(t.children[k..])
    decreases |t.children| - k
  {
    hide TreeSize;
    if k < |t.children| {
      TreesSizeIs(t, k + 1);
      assert t.children[k..][1..] == t.children[k + 1..];
    }
  }

  lemma {:induction false} HeightWithin(t: ParsedElement, k: nat, bound: nat)
    requires k <= |t.children| && Shallow(t.children, bound)
    ensures HeightFrom(AsNode(t), k) <= bound
    decreases |t.children| - k
  {
    hide Height;
    if k < |t.children| {
      HeightWithin(t, k + 1, bound);
      assert t.children[k] in t.children;
      assert AsNode(t).children[k] == Some(AsNode(t.children[k]));
    }
  }

  // What a parsed element must be, given where the parser was.
  predicate GoodElement(t: ParsedElement, depth: nat, before: nat, after: nat, limits: Limits)
  {
    && CleanTree(t) && after == before + TreeSize(t) && after <= limits.maxElements
    && depth + Height(AsNode(t)) <= limits.maxDepth + 1
  }

  predicate GoodInside(r: Inside, depth: nat, before: nat, limits: Limits)
  {
    && AllXmlChars(r.text) && CleanTrees(r.children) && Shallow(r.children, limits.maxDepth - depth)
    && r.count == before + SizeOf(r.children) && (before <= limits.maxElements ==> r.count <= limits.maxElements)
  }

  lemma GoodElementMade(qname: string, scope: Scope, inside: Inside, depth: nat, before: nat, limits: Limits)
    requires CleanName(LocalName(qname)) && CleanScope(scope) && GoodInside(inside, depth, before + 1, limits)
    requires depth <= limits.maxDepth && before + 1 <= limits.maxElements
    ensures GoodElement(Element(qname, scope, inside.text, inside.children), depth, before, inside.count, limits)
  {
    hide CleanName, AllXmlChars, LocalName;
    var t := Element(qname, scope, inside.text, inside.children);
    var colon := LastColon(qname);
    BoundIsClean(if colon == -1 then "" else qname[..colon], scope);
    TreesSizeIs(t, 0);
    assert t.children[0..] == t.children;
    HeightWithin(t, 0, limits.maxDepth - depth);
    forall i | 0 <= i < |t.children| ensures CleanTree(t.children[i]) { assert t.children[i] in t.children; }
    assert CleanTree(t);
    assert TreeSize(t) == 1 + TreesSize(t, 0);
    assert Height(AsNode(t)) == 1 + HeightFrom(AsNode(t), 0);
  }

  lemma GoodNothing(depth: nat, before: nat, limits: Limits)
    ensures GoodInside(Inside("", [], before), depth, before, limits)
  {
  }

  lemma GoodAfterText(text: string, r: Inside, depth: nat, before: nat, limits: Limits)
    requires AllXmlChars(text) && GoodInside(r, depth, before, limits)
    ensures GoodInside(r.(text := text + r.text), depth, before, limits)
  {
    hide AllXmlChars, CleanTrees, Shallow, SizeOf;
    JoinIsXml(text, r.text);
  }

  lemma GoodAfterChild(t: ParsedElement, r: Inside, depth: nat, before: nat, middle: nat, limits: Limits)
    requires GoodElement(t, depth + 1, before, middle, limits) && GoodInside(r, depth, middle, limits)
    ensures GoodInside(r.(children := [t] + r.children), depth, before, limits)
  {
    hide AllXmlChars, CleanTree, TreeSize, Height;
    var ts := [t] + r.children;
    assert ts[1..] == r.children;
  }

  lemma {:induction false} ElementIsGood(s: string, at: nat, depth: nat, scope: Scope, count: nat, limits: Limits)
    requires AllXmlChars(s) && CleanScope(scope) && Is(s, at, '<')
    requires TakeElement(s, at, depth, scope, count, limits).Got?
    ensures var r := TakeElement(s, at, depth, scope, count, limits).value;
            GoodElement(r.element, depth, count, r.count, limits)
    decreases |s| - at, 0
  {
    hide AllXmlChars, CleanScope, CleanDeclarations, GoodElement, GoodInside, TakeAttributes, QName;
    hide TakeContent, Element, LocalName, CleanName;
    var name := QName(s, at + 1);
    var tag := TakeAttributes(s, name.at);
    var inner := ScopeWith(scope, tag.value.declarations);
    TagIsClean(s, name.at);
    ScopeIsClean(scope, tag.value.declarations);
    LocalIsClean(s, at + 1);
    if tag.value.empty {
      GoodNothing(depth, count + 1, limits);
      GoodElementMade(name.value, inner, Inside("", [], count + 1), depth, count, limits);
    } else {
      ContentIsGood(s, tag.at, name.value, depth, inner, count + 1, limits);
      GoodElementMade(name.value, inner, TakeContent(s, tag.at, name.value, depth, inner, count + 1, limits).value,
          depth, count, limits);
    }
  }

  lemma {:induction false} ContentIsGood(s: string, at: nat, qname: string, depth: nat, scope: Scope,
                    count: nat, limits: Limits)
    requires AllXmlChars(s) && CleanScope(scope) && at <= |s|
    requires TakeContent(s, at, qname, depth, scope, count, limits).Got?
    ensures GoodInside(TakeContent(s, at, qname, depth, scope, count, limits).value, depth, count, limits)
    decreases |s| - at, 1
  {
    hide AllXmlChars, CleanScope, GoodElement, GoodInside, QName, TakeElement, TextRun, Find, SkipSpace, Starts;
    if Starts(s, at, "</") {
      GoodNothing(depth, count, limits);
    } else if Starts(s, at, "<!--") {
      StartsInside(s, at, "<!--");
      ContentIsGood(s, Past(s, at, 4, "-->").at, qname, depth, scope, count, limits);
    } else if Starts(s, at, "<![CDATA[") {
      StartsInside(s, at, "<![CDATA[");
      var r := Past(s, at, 9, "]]>");
      SliceIsXml(s, at + 9, Find(s, at + 9, "]]>"));
      ContentIsGood(s, r.at, qname, depth, scope, count, limits);
      GoodAfterText(r.value, TakeContent(s, r.at, qname, depth, scope, count, limits).value, depth, count, limits);
    } else if Starts(s, at, "<?") {
      StartsInside(s, at, "<?");
      ContentIsGood(s, Past(s, at, 2, "?>").at, qname, depth, scope, count, limits);
    } else if Is(s, at, '<') {
      var r := TakeElement(s, at, depth + 1, scope, count, limits);
      ElementIsGood(s, at, depth + 1, scope, count, limits);
      ContentIsGood(s, r.at, qname, depth, scope, r.value.count, limits);
      GoodAfterChild(r.value.element, TakeContent(s, r.at, qname, depth, scope, r.value.count, limits).value, depth,
          count, r.value.count, limits);
    } else {
      var r := TextRun(s, at);
      TextIsClean(s, at);
      ContentIsGood(s, r.at, qname, depth, scope, count, limits);
      GoodAfterText(r.value, TakeContent(s, r.at, qname, depth, scope, count, limits).value, depth, count, limits);
    }
  }

  // Whatever the parser accepts, the printer can emit unchanged: names, namespaces
  // and texts hold only characters a document carries, and the tree is within the
  // caps it was parsed under.
  lemma ParsedIsGood(input: string, limits: Limits)
    requires ParseXml(input, limits).Got?
    ensures var t := ParseXml(input, limits).value;
            && CleanTree(t) && TreeSize(t) <= limits.maxElements
            && Height(AsNode(t)) <= limits.maxDepth && Height(AsNode(t)) <= XML_MAX_DEPTH_CEILING
  {
    hide AllXmlChars, TakeElement, SkipMisc, Units, CleanTree, TreeSize, Height;
    var s := BodyOf(input);
    var start := SkipMisc(s, 0).at;
    XmlPrefixIsXml();
    ElementIsGood(s, start, 1, ROOT_SCOPE, 0, Capped(limits));
  }

  lemma XmlPrefixIsXml()
    ensures CleanScope(ROOT_SCOPE)
  {
    PrefixUriIsXml();
  }

  lemma PrefixUriIsXml()
    ensures AllXmlChars(XML_PREFIX_NS)
  {
  }

  // ---------- printing a parsed tree ----------

  lemma {:induction false} NodeSize(t: ParsedElement)
    ensures Size(AsNode(t)) == TreeSize(t)
    decreases t, 1
  {
    NodesSize(t, 0);
  }

  lemma {:induction false} NodesSize(t: ParsedElement, k: nat)
    requires k <= |t.children|
    ensures SizeFrom(AsNode(t), k) == TreesSize(t, k)
    decreases t, 0, |t.children| - k
  {
    if k < |t.children| {
      NodeSize(t.children[k]);
      NodesSize(t, k + 1);
    }
  }

  lemma {:induction false} NodeShown(t: ParsedElement, inherited: string)
    requires CleanTree(t)
    ensures Shown(AsNode(t), inherited) == t
    decreases t, 1
  {
    SanitizedIsSame(t.ns);
    SanitizedIsSame(t.text);
    NodesShown(t, 0);
    assert t.children[0..] == t.children;
    hide Sanitized, AllXmlChars, ShownFrom, CleanTree;
  }

  lemma {:induction false} NodesShown(t: ParsedElement, k: nat)
    requires CleanTree(t) && k <= |t.children|
    ensures ShownFrom(AsNode(t), k, t.ns) == t.children[k..]
    decreases t, 0, |t.children| - k
  {
    hide Sanitized, AllXmlChars, CleanName, Shown;
    if k < |t.children| {
      NodeShown(t.children[k], t.ns);
      NodesShown(t, k + 1);
      assert t.children[k..] == [t.children[k]] + t.children[k + 1..];
    }
  }

  lemma {:induction false} NodePrintable(t: ParsedElement)
    requires CleanTree(t)
    ensures Printable(AsNode(t)) <==> StartsWell(t)
  {
    hide AllXmlChars;
    forall i | 0 <= i < |t.children|
      ensures Printable(AsNode(t).children[i].value) <==> StartsWell(t.children[i])
    {
      NodePrintable(t.children[i]);
    }
  }

  // A name that starts badly is refused where it is read back.
  lemma {:induction false} BadElementRefused(s: string, at: nat, t: ParsedElement, inherited: string,
                    depth: nat, scope: Scope, count: nat, limits: Limits)
    requires CleanTree(t) && !StartsWell(t) && Starts(s, at, Render(AsNode(t), inherited))
    requires Bound("", scope) == Sanitized(inherited)
    requires Fits(Height(AsNode(t)), Size(AsNode(t)), depth, count, limits)
    ensures Is(s, at, '<') && TakeElement(s, at, depth, scope, count, limits).Refused?
    decreases t, 1
  {
    hide Render, Attributes, Starts, Rest, Escape, Sanitized, AllXmlChars, TakeContent, TakeAttributes;
    hide TakeElement, Height, Size, Declarations, ScopeWith, Bound, QName, Fits;
    var node := AsNode(t);
    RenderOpens(s, at, node, inherited);
    if t.name == "" || !IsNameStart(t.name[0]) {
      BadNameRefused(s, at, depth, scope, count, limits);
    } else {
      assert WellFormedName(node.name);
      hide WellFormedName;
      var inner := ScopeWith(scope, Declarations(node, inherited));
      var inside := at + 2 + |node.name| + |Attributes(node, inherited)|;
      RenderParts(s, at, node, inherited);
      StartTagAt(s, at, node, inherited);
      ScopeAt(node, inherited, scope);
      FitsInside(node, depth, count, limits);
      StartsInside(s, inside, Escape(TextOf(node)));
      BadContentRefused(s, inside, t, depth, inner, count + 1, limits);
      ElementStep(s, at, depth, scope, count, limits, node.name, at + 1 + |node.name|, Declarations(node, inherited),
          inside,
                  TakeContent(s, inside, node.name, depth, inner, count + 1, limits));
    }
  }

  lemma BadNameRefused(s: string, at: nat, depth: nat, scope: Scope, count: nat, limits: Limits)
    requires Opens(s, at) && !IsNameStart(s[at + 1])
    ensures TakeElement(s, at, depth, scope, count, limits).Refused?
  {
  }

  lemma BadContentRefused(s: string, at: nat, t: ParsedElement, depth: nat, scope: Scope, count: nat, limits: Limits)
    requires CleanTree(t) && StartsBadlyFrom(t, 0) && at <= |s| && at + |Escape(t.text)| <= |s|
    requires Starts(s, at, Escape(t.text)) && Starts(s, at + |Escape(t.text)|, Rest(AsNode(t), 0, t.ns))
    requires Bound("", scope) == Sanitized(t.ns)
    requires Fits(HeightFrom(AsNode(t), 0), SizeFrom(AsNode(t), 0), depth + 1, count, limits)
    ensures TakeContent(s, at, t.name, depth, scope, count, limits).Refused?
    decreases t, 0, |t.children| + 1
  {
    hide *;
    var node := AsNode(t);
    var end := at + |Escape(t.text)|;
    BadChildrenRefused(s, end, t, 0, depth, scope, count, limits);
    if t.text != "" {
      RestHead(node, 0, t.ns);
      StartsIs(s, end, Rest(node, 0, t.ns));
      StartsAt(s, at, Escape(t.text), 0);
      TextRunAt(s, at, t.text);
      TextStep(s, at, Sanitized(t.text), end, t.name, depth, scope, count, limits);
      RefusedStays(Sanitized(t.text), TakeContent(s, end, t.name, depth, scope, count, limits));
    }
  }

  lemma RefusedStays(text: string, r: Parse<Inside>)
    requires r.Refused?
    ensures AfterText(text, r).Refused? && forall child :: AfterChild(child, r).Refused?
  {
  }

  predicate StartsBadlyFrom(t: ParsedElement, k: nat)
  {
    exists i :: k <= i < |t.children| && !StartsWell(t.children[i])
  }

  lemma BadNext(t: ParsedElement, k: nat)
    requires CleanTree(t) && StartsBadlyFrom(t, k)
    ensures k < |t.children| && CleanTree(t.children[k])
    ensures StartsWell(t.children[k]) ==> StartsBadlyFrom(t, k + 1)
    ensures AsNode(t).children[k] == Some(AsNode(t.children[k])) && |AsNode(t).children| == |t.children|
    ensures forall i :: 0 <= i < |t.children[k].name| ==> IsNameChar(t.children[k].name[i])
    ensures AsNode(t.children[k]).name == t.children[k].name && AsNode(t).name == t.name
  {
  }

  lemma BadChildrenRefused(s: string, at: nat, t: ParsedElement, k: nat, depth: nat, scope: Scope, count: nat,
                    limits: Limits)
    requires CleanTree(t) && StartsBadlyFrom(t, k) && k <= |AsNode(t).children| && at <= |s|
    requires Starts(s, at, Rest(AsNode(t), k, t.ns))
    requires Bound("", scope) == Sanitized(t.ns)
    requires Fits(HeightFrom(AsNode(t), k), SizeFrom(AsNode(t), k), depth + 1, count, limits)
    ensures TakeContent(s, at, t.name, depth, scope, count, limits).Refused?
    decreases t, 0, |t.children| - k
  {
    hide *;
    BadNext(t, k);
    var node := AsNode(t);
    var child := AsNode(t.children[k]);
    var shown := Render(child, t.ns);
    RestShape(node, k, t.ns);
    FitsNext(node, k, depth + 1, count, limits);
    StartsBoth(s, at, shown, Rest(node, k + 1, t.ns));
    StartsInside(s, at, shown);
    RenderOpens(s, at, child, t.ns);
    ChildStep(s, at, t.name, depth, scope, count, limits);
    if StartsWell(t.children[k]) {
      NodePrintable(t.children[k]);
      ElementAt(s, at, child, t.ns, depth + 1, scope, count, limits);
      BadChildrenRefused(s, at + |shown|, t, k + 1, depth, scope, count + Size(child), limits);
      var r := TakeContent(s, at + |shown|, t.name, depth, scope, count + Size(child), limits);
      RefusedStays("", r);
      assert AfterChild(Shown(child, t.ns), r).Refused?;
    } else {
      BadElementRefused(s, at, t.children[k], t.ns, depth + 1, scope, count, limits);
    }
  }

  // A parsed tree prints and parses back to exactly itself if and only if every
  // name in it is non-empty and begins with a name-start character. The parser
  // itself accepts qualified names, `p:1` or `p:`, whose local half does not.
  lemma Reprints(input: string, limits: Limits, budget: nat)
    requires ParseXml(input, limits).Got?
    requires Units(XmlDocument(AsNode(ParseXml(input, limits).value), None)) <= budget
    ensures var t := ParseXml(input, limits).value;
            var document := XmlDocument(AsNode(t), None);
            ParseXml(document, limits.(maxBytes := budget)) == Got(t, |document|) <==> StartsWell(t)
  {
    hide *;
    var t := ParseXml(input, limits).value;
    var node := AsNode(t);
    ParsedIsGood(input, limits);
    NodeSize(t);
    NodePrintable(t);
    NodeShown(t, "");
    RootedNone(node);
    if StartsWell(t) {
      RoundTrip(node, None, limits.(maxBytes := budget));
    } else {
      BadTreeRefused(t, limits.(maxBytes := budget));
    }
  }

  lemma RootedNone(node: XmlNode)
    ensures Rooted(node, None) == node
  {
  }

  lemma BadTreeRefused(t: ParsedElement, limits: Limits)
    requires CleanTree(t) && !StartsWell(t) && Size(AsNode(t)) <= limits.maxElements
    requires Height(AsNode(t)) <= limits.maxDepth && Height(AsNode(t)) <= XML_MAX_DEPTH_CEILING
    ensures ParseXml(XmlDocument(AsNode(t), None), limits).Refused?
  {
    hide Render, Units, Size, Height, TakeElement, SkipMisc, Starts, IsXmlChar, AllXmlChars;
    var node := AsNode(t);
    var s := XmlDocument(node, None);
    var n := |XML_DECLARATION|;
    DeclarationShape();
    WholeStarts(XML_DECLARATION, Render(node, ""));
    SanitizedEmpty();
    FitsRoot(node, limits);
    RenderOpens(s, n, node, "");
    BadElementRefused(s, n, t, "", 1, ROOT_SCOPE, 0, Capped(limits));
    SkipsDeclaration(s);
  }

  // The parser does hand out such a name.
  lemma BadNamesAreParsed()
    ensures ParseXml("<p:1/>", Limits(6, 1, 1)) == Got(ParsedElement("1", "", "", []), 6)
    ensures !StartsWell(ParsedElement("1", "", "", []))
  {
    hide TakeElement, SkipMisc, Units, AllXmlChars, Element;
    var s := "<p:1/>";
    SmallElement(s);
    LocalOfSmall();
    UnitsOfAscii(s);
    AsciiIsXml(s);
    RenderlessMisc(s);
  }

  lemma AsciiIsXml(s: string)
    requires forall i :: 0 <= i < |s| ==> 0x20 <= s[i] as int < 0x7F
    ensures AllXmlChars(s)
  {
  }

  lemma LocalOfSmall()
    ensures Element("p:1", ROOT_SCOPE, "", []) == ParsedElement("1", "", "", [])
  {
    assert LastColon("p:1") == 1 by { assert "p:1"[..2] == "p:"; }
  }

  lemma SmallElement(s: string)
    requires s == "<p:1/>"
    ensures TakeElement(s, 0, 1, ROOT_SCOPE, 0, Limits(6, 1, 1)) ==
            Got(Counted(Element("p:1", ROOT_SCOPE, "", []), 1), 6)
  {
    assert QName(s, 1) == Got("p:1", 4) by {
      NameEndIs(s, 2, 4);
      assert s[1..4] == "p:1";
    }
    assert TakeAttributes(s, 4) == Got(Tag([], true), 6) by { assert SkipSpace(s, 4) == 4; }
    assert ScopeWith(ROOT_SCOPE, []) == ROOT_SCOPE;
    hide QName, TakeAttributes, ScopeWith, Element, TakeContent;
  }

  lemma RenderlessMisc(s: string)
    requires Opens(s, 0)
    ensures SkipMisc(s, 0) == Got((), 0) && SkipMisc(s, |s|) == Got((), |s|)
  {
    hide Starts;
    StartsOnly(s, 0, "<!--", 1);
    StartsOnly(s, 0, "<!", 1);
    StartsOnly(s, 0, "<?", 1);
    NothingLeft(s);
    assert SkipSpace(s, 0) == 0;
  }

  lemma {:induction false} UnitsOfAscii(s: string)
    requires forall i :: 0 <= i < |s| ==> s[i] as int < 0x80
    ensures Units(s) == |s|
  {
    if s != "" { UnitsOfAscii(s[1..]); }
  }
}
