// The codec as a whole: a printed document parses back to the tree it shows,
// whatever the parser hands out can be printed, and exactly the parsed trees
// whose names start properly come back unchanged.
module XmlTheorems {
  import opened Wrappers
  import opened XmlPrinter
  import opened XmlGrammar
  import opened XmlRoundTrip

  // ---------- a document is parseable text ----------

  lemma JoinIsXml(a: string, b: string)
    requires AllXmlChars(a) && AllXmlChars(b)
    ensures AllXmlChars(a + b)
  {
  }

  lemma AttributesAreXml(node: XmlNode, inherited: string)
    ensures AllXmlChars(Attributes(node, inherited))
  {
    hide Escape;
    EscapeIsXml(Effective(node, inherited));
    JoinIsXml(Escape(Effective(node, inherited)), "\"");
    assert AllXmlChars(" xmlns=\"");
  }

  lemma {:induction false} RenderIsXml(node: XmlNode, inherited: string)
    requires Printable(node)
    ensures AllXmlChars(Render(node, inherited))
    decreases node, 1
  {
    hide Escape, Attributes, RenderFrom, IsXmlChar;
    var ns := Effective(node, inherited);
    NameIsGood(node);
    EscapeIsXml(TextOf(node));
    AttributesAreXml(node, inherited);
    RestIsXml(node, 0, ns);
    RenderShape(node, inherited);
    PunctuationIsXml();
    JoinIsXml(Escape(TextOf(node)), Rest(node, 0, ns));
    JoinIsXml(">", Escape(TextOf(node)) + Rest(node, 0, ns));
    JoinIsXml(Attributes(node, inherited), ">" + (Escape(TextOf(node)) + Rest(node, 0, ns)));
    JoinIsXml(node.name, Attributes(node, inherited) + (">" + (Escape(TextOf(node)) + Rest(node, 0, ns))));
    JoinIsXml("<", node.name + (Attributes(node, inherited) + (">" + (Escape(TextOf(node)) + Rest(node, 0, ns)))));
  }

  lemma PunctuationIsXml()
    ensures AllXmlChars("<") && AllXmlChars(">") && AllXmlChars("</")
  {
  }

  lemma {:induction false} RestIsXml(node: XmlNode, k: nat, ns: string)
    requires Printable(node) && k <= |node.children|
    ensures AllXmlChars(Rest(node, k, ns))
    decreases node, 0, |node.children| - k
  {
    hide Rest, Render, Escape, Attributes, RenderFrom, IsXmlChar;
    RestShape(node, k, ns);
    if k == |node.children| {
      NameIsGood(node);
      PunctuationIsXml();
      JoinIsXml(node.name, ">");
      JoinIsXml("</", node.name + ">");
    } else {
      RestIsXml(node, k + 1, ns);
      match node.children[k] {
        case Some(child) =>
          ChildIsPrintable(node, k);
          RenderIsXml(child, ns);
          JoinIsXml(Render(child, ns), Rest(node, k + 1, ns));
        case None =>
      }
    }
  }

  // ---------- the declaration in front ----------

  const DECLARATION_BODY: string := "xml version=\"1.0\" encoding=\"UTF-8\""

  lemma DeclarationShape()
    ensures XML_DECLARATION == "<?" + (DECLARATION_BODY + "?>") && XML_DECLARATION[0] == '<'
  {
  }

  lemma DeclarationBodyHasNoEnd()
    ensures '?' !in DECLARATION_BODY
  {
  }

  lemma DeclarationIsXml()
    ensures AllXmlChars(XML_DECLARATION)
  {
  }

  // Where a declaration stands it is an instruction, up to its end.
  lemma DeclarationEnds(s: string)
    requires Starts(s, 0, XML_DECLARATION)
    ensures |s| >= |XML_DECLARATION| && Starts(s, 0, "<?") && Is(s, 0, '<') && Is(s, 1, '?')
    ensures Past(s, 0, 2, "?>") == Got(DECLARATION_BODY, |XML_DECLARATION|)
  {
    DeclarationShape();
    DeclarationBodyHasNoEnd();
    StartsBoth(s, 0, "<?", DECLARATION_BODY + "?>");
    StartsBoth(s, 2, DECLARATION_BODY, "?>");
    StartsAt(s, 0, "<?", 0);
    StartsAt(s, 0, "<?", 1);
    FirstTerminator(s);
  }

  // What an element opens with is nothing to skip.
  lemma NothingToSkip(s: string, at: nat)
    requires Opens(s, at)
    ensures SkipMisc(s, at) == Got((), at)
  {
    hide Starts;
    StartsOnly(s, at, "<!--", 1);
    StartsOnly(s, at, "<?", 1);
    StartsOnly(s, at, "<!", 1);
    assert SkipSpace(s, at) == at;
  }

  lemma SkipsDeclaration(s: string)
    requires Starts(s, 0, XML_DECLARATION) && Opens(s, |XML_DECLARATION|)
    ensures SkipMisc(s, 0) == Got((), |XML_DECLARATION|)
  {
    DeclarationEnds(s);
    NothingToSkip(s, |XML_DECLARATION|);
    hide Starts, Past, Opens;
    StartsOnly(s, 0, "<!--", 1);
    assert SkipSpace(s, 0) == 0;
  }

  lemma FirstTerminator(s: string)
    requires Starts(s, 2, DECLARATION_BODY) && Starts(s, 2 + |DECLARATION_BODY|, "?>") && '?' !in DECLARATION_BODY
    ensures Find(s, 2, "?>") == 2 + |DECLARATION_BODY|
  {
    var r := Find(s, 2, "?>");
    if r < 2 + |DECLARATION_BODY| {
      StartsAt(s, r, "?>", 0);
      StartsAt(s, 2, DECLARATION_BODY, r - 2);
    }
  }

  // ---------- parsing undoes printing ----------

  // Every tree of well-formed, colon-free names that is within the caps parses
  // back to itself, as a namespace-aware reader sees it.
  lemma RoundTrip(root: XmlNode, xmlns: Option<string>, limits: Limits)
    requires Printable(root)
    requires var node := Rooted(root, xmlns);
             && Height(node) <= limits.maxDepth && Height(node) <= XML_MAX_DEPTH_CEILING
             && Size(node) <= limits.maxElements && Units(XmlDocument(root, xmlns)) <= limits.maxBytes
    ensures ParseXml(XmlDocument(root, xmlns), limits) ==
            Got(Shown(Rooted(root, xmlns), ""), |XmlDocument(root, xmlns)|)
  {
    var node := Rooted(root, xmlns);
    var s := XmlDocument(root, xmlns);
    var n := |XML_DECLARATION|;
    assert Printable(node);
    hide Render, Units, Printable, Size, Height, Shown, TakeElement, SkipMisc, Starts, WellFormedName, IsXmlChar;
    DeclarationShape();
    DeclarationIsXml();
    RenderIsXml(node, "");
    JoinIsXml(XML_DECLARATION, Render(node, ""));
    WholeStarts(XML_DECLARATION, Render(node, ""));
    SanitizedEmpty();
    FitsRoot(node, limits);
    ElementAt(s, n, node, "", 1, ROOT_SCOPE, 0, Capped(limits));
    NameIsGood(node);
    RenderOpens(s, n, node, "");
    SkipsDeclaration(s);
    NothingLeft(s);
  }

  lemma WholeStarts(a: string, b: string)
    ensures Starts(a + b, 0, a) && Starts(a + b, |a|, b)
  {
    assert Starts(a + b, 0, a + b);
    StartsBoth(a + b, 0, a, b);
  }

  lemma FitsRoot(node: XmlNode, limits: Limits)
    requires Height(node) <= limits.maxDepth && Height(node) <= XML_MAX_DEPTH_CEILING &&
             Size(node) <= limits.maxElements
    ensures Fits(Height(node), Size(node), 1, 0, Capped(limits))
  {
  }

  lemma NothingLeft(s: string)
    ensures SkipMisc(s, |s|) == Got((), |s|)
  {
  }
}
