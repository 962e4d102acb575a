// The namespace of an element, and that prefixes are only a way of writing it: a document
// with prefixes and the same document with default declarations parse to equal trees.
module XmlNamespaces {
  import opened Wrappers
  import opened Keys
  import opened XmlPrinter
  import opened XmlGrammar
  import opened XmlRoundTrip
  import opened XmlTheorems
  import opened XmlPrefixes

  // ---------- which declaration counts ----------

  lemma {:induction false} InnermostOver(around: seq<Declaration>, own: seq<Declaration>, prefix: string)
    ensures Innermost(around + own, prefix) ==
            if Innermost(own, prefix).Some? then Innermost(own, prefix) else Innermost(around, prefix)
  {
    if own == [] {
      assert around + own == around;
    } else {
      InnermostOver(around, own[..|own| - 1], prefix);
      assert (around + own)[..|around + own| - 1] == around + own[..|own| - 1];
    }
  }

  predicate BindsPrefix(a: Attribute, prefix: string) { a.Binds? && a.prefix == prefix }

  predicate LastBinding(attributes: seq<Attribute>, prefix: string, i: nat)
  {
    i < |attributes| && BindsPrefix(attributes[i], prefix) &&
    forall j :: i < j < |attributes| ==> !BindsPrefix(attributes[j], prefix)
  }

  // Of the declarations of one prefix in one tag, the last.
  lemma {:induction false} LastInTag(attributes: seq<Attribute>, prefix: string)
    ensures Innermost(DeclaredIn(attributes), prefix).None? <==>
            forall i :: 0 <= i < |attributes| ==> !BindsPrefix(attributes[i], prefix)
    ensures forall i: nat :: LastBinding(attributes, prefix, i) ==>
              Innermost(DeclaredIn(attributes), prefix) == Some(Sanitized(attributes[i].uri))
  {
    hide Sanitized, Innermost;
    if attributes == [] {
      NoneDeclared(prefix);
    } else {
      var others := attributes[1..];
      LastInTag(others, prefix);
      assert forall i :: 0 < i < |attributes| ==> attributes[i] == others[i - 1];
      forall i: nat | LastBinding(attributes, prefix, i) && i > 0 ensures LastBinding(others, prefix, i - 1) {
        assert others[i - 1] == attributes[i];
      }
      var d := DeclaredBy(attributes[0]);
      if d.Some? {
        InnermostOver([d.value], DeclaredIn(others), prefix);
        OneDeclared(d.value, prefix);
      }
    }
  }

  lemma NoneDeclared(prefix: string)
    ensures Innermost([], prefix).None?
  {
  }

  lemma OneDeclared(d: Declaration, prefix: string)
    ensures Innermost([d], prefix) == if d.prefix == prefix then Some(d.uri) else None
  {
  }

  predicate Reserved(prefix: string) { prefix == "xml" || prefix == "xmlns" }

  // An element whose own tag declares its prefix is in the namespace of the last such
  // declaration, wherever in the tag it stands; one whose tag does not is where its
  // prefix leads around it; `xml` is never rebound.
  lemma NamespaceIs(t: Tagged, around: seq<Declaration>)
    ensures forall i: nat :: !Reserved(t.prefix) && LastBinding(t.attributes, t.prefix, i) ==>
              Seen(t, around).ns == Sanitized(t.attributes[i].uri)
    ensures !Reserved(t.prefix) && (forall i :: 0 <= i < |t.attributes| ==> !BindsPrefix(t.attributes[i], t.prefix)) ==>
              Seen(t, around).ns == Innermost(around, t.prefix).GetOr("")
    ensures t.prefix == "xml" ==> Seen(t, around).ns == "http://www.w3.org/XML/1998/namespace"
    ensures t.prefix == "xmlns" ==> Seen(t, around).ns == ""
  {
    hide Sanitized, Innermost, DeclaredIn;
    LastInTag(t.attributes, t.prefix);
    InnermostOver(around, DeclaredIn(t.attributes), t.prefix);
  }

  // ---------- a whole document ----------

  function Document(t: Tagged): string { XML_DECLARATION + Print(t) }

  lemma NamesAreXml(t: Tagged)
    requires Good(t)
    ensures AllXmlChars(QNameOf(t))
  {
  }

  lemma AttributeIsXml(a: Attribute)
    requires GoodAttribute(a)
    ensures AllXmlChars(PrintAttribute(a))
  {
    hide Escape, IsXmlChar, AttributeName;
    MarksAreXml();
    EscapeIsXml(ValueOf(a));
    JoinIsXml(Escape(ValueOf(a)), "\"");
    JoinIsXml("=\"", Escape(ValueOf(a)) + "\"");
    JoinIsXml(AttributeName(a), "=\"" + (Escape(ValueOf(a)) + "\""));
  }

  lemma MarksAreXml()
    ensures AllXmlChars(" ") && AllXmlChars("\"") && AllXmlChars("=\"") && AllXmlChars("/>") && AllXmlChars(">")
    ensures AllXmlChars("<") && AllXmlChars("</") && AllXmlChars("<![CDATA[") && AllXmlChars("]]>")
    ensures AllXmlChars("<!--") && AllXmlChars("-->") && AllXmlChars("<?") && AllXmlChars("?>") && AllXmlChars("")
  {
  }

  lemma {:induction false} ListIsXml(attributes: seq<Attribute>)
    requires forall i :: 0 <= i < |attributes| ==> GoodAttribute(attributes[i])
    ensures AllXmlChars(PrintAttributes(attributes))
  {
    hide PrintAttribute, IsXmlChar, GoodAttribute;
    MarksAreXml();
    if attributes != [] {
      AttributeIsXml(attributes[0]);
      ListIsXml(attributes[1..]);
      JoinIsXml(PrintAttribute(attributes[0]), PrintAttributes(attributes[1..]));
      JoinIsXml(" ", PrintAttribute(attributes[0]) + PrintAttributes(attributes[1..]));
    }
  }

  lemma {:induction false} PrintIsXml(t: Tagged)
    requires Good(t)
    ensures AllXmlChars(Print(t))
    decreases t, 1
  {
    hide IsXmlChar, Print, PrintFrom, PrintAttributes, QNameOf, GoodAttribute, GoodItem, AllXmlChars;
    var tail := TagEnd(t.closed) + if t.closed then "" else PrintFrom(t, 0);
    MarksAreXml();
    NamesAreXml(t);
    ListIsXml(t.attributes);
    if !t.closed { PrintFromIsXml(t, 0); }
    JoinIsXml(TagEnd(t.closed), if t.closed then "" else PrintFrom(t, 0));
    JoinIsXml(PrintAttributes(t.attributes), tail);
    JoinIsXml(QNameOf(t), PrintAttributes(t.attributes) + tail);
    JoinIsXml("<", QNameOf(t) + (PrintAttributes(t.attributes) + tail));
    PrintShape(t);
  }

  lemma MarkIsXml(opening: string, body: string, terminator: string, rest: string)
    requires AllXmlChars(opening) && AllXmlChars(body) && AllXmlChars(terminator) && AllXmlChars(rest)
    ensures AllXmlChars(opening + ((body + terminator) + rest))
  {
    hide IsXmlChar, AllXmlChars;
    JoinIsXml(body, terminator);
    JoinIsXml(body + terminator, rest);
    JoinIsXml(opening, (body + terminator) + rest);
  }

  lemma {:induction false} PrintFromIsXml(t: Tagged, k: nat)
    requires Good(t) && k <= |t.items|
    ensures AllXmlChars(PrintFrom(t, k))
    decreases t, 0, |t.items| - k
  {
    hide IsXmlChar, Print, PrintFrom, PrintAttributes, QNameOf, GoodAttribute, AllXmlChars, EndsAtFirst;
    FromShape(t, k, []);
    MarksAreXml();
    NamesAreXml(t);
    if k == |t.items| {
      JoinIsXml(QNameOf(t), ">");
      JoinIsXml("</", QNameOf(t) + ">");
    } else {
      PrintFromIsXml(t, k + 1);
      assert GoodItem(t, k);
      var rest := PrintFrom(t, k + 1);
      match t.items[k] {
        case Text(text) =>
          EscapeIsXml(text);
          JoinIsXml(Escape(text), rest);
        case Cdata(cdata) => MarkIsXml("<![CDATA[", cdata, "]]>", rest);
        case Comment(comment) => MarkIsXml("<!--", comment, "-->", rest);
        case Instruction(body) => MarkIsXml("<?", body, "?>", rest);
        case Child(element) =>
          PrintIsXml(element);
          JoinIsXml(Print(element), rest);
      }
    }
  }

  predicate Within(t: Tagged, limits: Limits)
  {
    && Levels(t) <= limits.maxDepth && Levels(t) <= XML_MAX_DEPTH_CEILING
    && Elements(t) <= limits.maxElements && Units(Document(t)) <= limits.maxBytes
  }

  // A document written with prefixes, within the limits, parses to the tree it means.
  lemma DocumentMeans(t: Tagged, limits: Limits)
    requires Good(t) && Within(t, limits)
    ensures ParseXml(Document(t), limits) == Got(Seen(t, []), |Document(t)|)
  {
    var s := Document(t);
    var n := |XML_DECLARATION|;
    hide Print, Units, Good, Elements, Levels, Seen, TakeElement, SkipMisc, Starts, IsXmlChar, Agrees;
    DeclarationShape();
    DeclarationIsXml();
    PrintIsXml(t);
    JoinIsXml(XML_DECLARATION, Print(t));
    WholeStarts(XML_DECLARATION, Print(t));
    RootAgrees();
    PrefixedElementAt(s, n, t, [], 1, ROOT_SCOPE, 0, Capped(limits));
    PrintOpens(s, n, t);
    SkipsDeclaration(s);
    NothingLeft(s);
  }

  // ---------- the same document without prefixes ----------

  // Every element declares its own namespace as the default one.
  function Plain(t: Tagged, around: seq<Declaration>): XmlNode
  {
    var inner := around + DeclaredIn(t.attributes);
    XmlNode(t.local, Some(Meaning(inner, t.prefix)), Some(TextFrom(t, 0)),
            seq(|t.items|, k requires 0 <= k < |t.items| =>
              match t.items[k]
              case Child(element) => Some(Plain(element, inner))
              case _ => None))
  }

  lemma {:induction false} DeclaredIsXml(attributes: seq<Attribute>)
    ensures forall i :: 0 <= i < |DeclaredIn(attributes)| ==> AllXmlChars(DeclaredIn(attributes)[i].uri)
  {
    hide AllXmlChars;
    if attributes != [] {
      DeclaredIsXml(attributes[1..]);
      if attributes[0].Binds? { SanitizedAt(attributes[0].uri); }
    }
  }

  lemma {:induction false} MeaningIsXml(around: seq<Declaration>, prefix: string)
    requires forall i :: 0 <= i < |around| ==> AllXmlChars(around[i].uri)
    ensures AllXmlChars(Meaning(around, prefix))
  {
    hide IsXmlChar, AllXmlChars;
    NamespaceIsXml();
    if around != [] { MeaningIsXml(around[..|around| - 1], prefix); }
  }

  lemma NamespaceIsXml()
    ensures AllXmlChars("http://www.w3.org/XML/1998/namespace") && AllXmlChars("")
  {
  }

  lemma {:induction false} TextFromIsXml(t: Tagged, k: nat)
    requires Good(t) && k <= |t.items|
    ensures AllXmlChars(TextFrom(t, k))
    decreases |t.items| - k
  {
    hide IsXmlChar, AllXmlChars, NameLike, GoodAttribute, EndsAtFirst;
    NamespaceIsXml();
    if k < |t.items| {
      TextFromIsXml(t, k + 1);
      assert GoodItem(t, k);
      if t.items[k].Text? { SanitizedAt(t.items[k].text); }
      JoinIsXml(TextIn(t.items[k]), TextFrom(t, k + 1));
    }
  }

  ghost predicate AllXmlUris(around: seq<Declaration>) { forall i :: 0 <= i < |around| ==> AllXmlChars(around[i].uri) }

  lemma {:induction false} PlainIsSeen(t: Tagged, around: seq<Declaration>, inherited: string)
    requires Good(t) && AllXmlUris(around)
    ensures Shown(Plain(t, around), inherited) == Seen(t, around)
    ensures Size(Plain(t, around)) == Elements(t) && Height(Plain(t, around)) == Levels(t)
    decreases t, 1
  {
    hide IsXmlChar, AllXmlChars, NameLike, GoodAttribute, EndsAtFirst, Meaning, DeclaredIn, Sanitized, TextFrom;
    var inner := around + DeclaredIn(t.attributes);
    DeclaredIsXml(t.attributes);
    MeaningIsXml(inner, t.prefix);
    TextFromIsXml(t, 0);
    SanitizedIsSame(Meaning(inner, t.prefix));
    SanitizedIsSame(TextFrom(t, 0));
    PlainFromIsSeen(t, 0, around);
  }

  lemma {:induction false} PlainFromIsSeen(t: Tagged, k: nat, around: seq<Declaration>)
    requires Good(t) && AllXmlUris(around) && k <= |t.items|
    ensures var node, inner := Plain(t, around), around + DeclaredIn(t.attributes);
            && |node.children| == |t.items|
            && ShownFrom(node, k, Meaning(inner, t.prefix)) == SeenFrom(t, k, inner)
            && SizeFrom(node, k) == ElementsFrom(t, k) && HeightFrom(node, k) == LevelsFrom(t, k)
    decreases t, 0, |t.items| - k
  {
    hide IsXmlChar, AllXmlChars, NameLike, GoodAttribute, EndsAtFirst, Meaning, DeclaredIn, Sanitized, TextFrom, Shown,
         Seen, Size, Height, Elements, Levels;
    var inner := around + DeclaredIn(t.attributes);
    if k < |t.items| {
      PlainFromIsSeen(t, k + 1, around);
      assert GoodItem(t, k);
      if t.items[k].Child? {
        DeclaredIsXml(t.attributes);
        PlainIsSeen(t.items[k].element, inner, Meaning(inner, t.prefix));
      }
    }
  }

  // A document with prefixes and the same one with every namespace a default parse to
  // equal trees, where the printer can write its names at all.
  lemma PrefixesDoNotMatter(t: Tagged, limits: Limits)
    requires Good(t) && Within(t, limits)
    requires Printable(Plain(t, [])) && Units(XmlDocument(Plain(t, []), None)) <= limits.maxBytes
    ensures var prefixed, plain := ParseXml(Document(t), limits), ParseXml(XmlDocument(Plain(t, []), None), limits);
            prefixed.Got? && plain.Got? && prefixed.value == plain.value
  {
    hide ParseXml, Print, Units, Good, Plain, Shown, Seen, Printable, Size, Height, Elements, Levels;
    DocumentMeans(t, limits);
    PlainIsSeen(t, [], "");
    XmlTheorems.RoundTrip(Plain(t, []), None, limits);
  }

  // ---------- a body as a client sends it ----------

  const DAV_BODY: string := "<D:prop xmlns:D=\"DAV:\"/>"

  function DavProp(): Tagged { Tagged("D", "prop", [Binds("D", "DAV:")], true, []) }

  lemma {:induction false} EscapeOfPlain(s: string)
    requires forall i :: 0 <= i < |s| ==> EscapeChar(s[i]) == [s[i]]
    ensures Escape(s) == s
  {
    hide EscapeChar;
    if s != "" {
      EscapeOfPlain(s[1..]);
      assert s == [s[0]] + s[1..];
    }
  }

  lemma DavUri()
    ensures Escape("DAV:") == "DAV:" && Sanitized("DAV:") == "DAV:"
  {
    hide Escape, Sanitized;
    EscapeOfPlain("DAV:");
    SanitizedIsSame("DAV:");
  }

  lemma DavIsGood()
    ensures Good(DavProp()) && Levels(DavProp()) == 1 && Elements(DavProp()) == 1
  {
  }

  lemma DavAttribute()
    ensures PrintAttribute(Binds("D", "DAV:")) == "xmlns:D=\"DAV:\""
  {
    DavUri();
    hide Escape;
    assert "=\"" + ("DAV:" + "\"") == "=\"DAV:\"";
    assert "xmlns:D" + "=\"DAV:\"" == "xmlns:D=\"DAV:\"";
  }

  lemma DavAttributes()
    ensures PrintAttributes([Binds("D", "DAV:")]) == " " + "xmlns:D=\"DAV:\""
  {
    DavAttribute();
    hide PrintAttribute;
    assert "xmlns:D=\"DAV:\"" + "" == "xmlns:D=\"DAV:\"";
  }

  lemma DavIsWritten()
    ensures Print(DavProp()) == DAV_BODY
  {
    DavAttributes();
    hide PrintAttributes;
    var tag := " " + "xmlns:D=\"DAV:\"";
    assert Print(DavProp()) == "<" + ("D:prop" + (tag + "/>"));
    assert "<" + ("D:prop" + (tag + "/>")) == DAV_BODY;
  }

  lemma {:induction false} UnitsAtMost(s: string)
    ensures Units(s) <= 2 * |s|
  {
    if s != "" { UnitsAtMost(s[1..]); }
  }

  // `<D:prop xmlns:D="DAV:"/>` is the element `prop` of the namespace `DAV:`.
  lemma DavBody(limits: Limits)
    requires limits.maxDepth >= 1 && limits.maxElements >= 1 && limits.maxBytes >= 128
    ensures ParseXml(XML_DECLARATION + DAV_BODY, limits) ==
            Got(ParsedElement("prop", "DAV:", "", []), |XML_DECLARATION + DAV_BODY|)
  {
    hide ParseXml, Print, Good, Elements, Levels, Units;
    DavIsGood();
    DavIsWritten();
    DavUri();
    UnitsAtMost(Document(DavProp()));
    DocumentMeans(DavProp(), limits);
    NamespaceIs(DavProp(), []);
    assert LastBinding(DavProp().attributes, "D", 0);
  }
}
