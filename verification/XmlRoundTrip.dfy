// Parsing undoes printing: what the parser makes of a printed tree, and which
// trees come back from print and parse unchanged.
module XmlRoundTrip {
  import opened Wrappers
  import opened XmlPrinter
  import opened XmlGrammar

  // ---------- the trees the printer is meant for ----------

  predicate WellFormedName(name: string)
  {
    && name != "" && IsNameStart(name[0]) && ':' !in name && AllXmlChars(name)
    && forall i :: 0 <= i < |name| ==> IsNameChar(name[i])
  }

  predicate Printable(node: XmlNode)
  {
    && WellFormedName(node.name)
    && forall i :: 0 <= i < |node.children| && node.children[i].Some? ==> Printable(node.children[i].value)
  }

  function Size(node: XmlNode): nat
    decreases node, 1
  {
    1 + SizeFrom(node, 0)
  }

  function SizeFrom(node: XmlNode, k: nat): nat
    requires k <= |node.children|
    decreases node, 0, |node.children| - k
  {
    if k == |node.children| then 0
    else (match node.children[k] case Some(child) => Size(child) case None => 0) + SizeFrom(node, k + 1)
  }

  function Height(node: XmlNode): nat
    decreases node, 1
  {
    1 + HeightFrom(node, 0)
  }

  function HeightFrom(node: XmlNode, k: nat): nat
    requires k <= |node.children|
    decreases node, 0, |node.children| - k
  {
    if k == |node.children| then 0
    else
      var here := match node.children[k] case Some(child) => Height(child) case None => 0;
      var others := HeightFrom(node, k + 1);
      if here > others then here else others
  }

  // What a reader is to see: names as they are, the namespace each element ended
  // up in, texts with unrepresentable characters replaced, absent children gone.
  function Shown(node: XmlNode, inherited: string): ParsedElement
    decreases node, 1
  {
    var ns := Effective(node, inherited);
    ParsedElement(node.name, Sanitized(ns), Sanitized(TextOf(node)), ShownFrom(node, 0, ns))
  }

  function ShownFrom(node: XmlNode, k: nat, ns: string): seq<ParsedElement>
    requires k <= |node.children|
    decreases node, 0, |node.children| - k
  {
    if k == |node.children| then []
    else
      match node.children[k]
      case Some(child) => [Shown(child, ns)] + ShownFrom(node, k + 1, ns)
      case None => ShownFrom(node, k + 1, ns)
  }

  // ---------- one printed piece at a time ----------

  lemma StartsBoth(s: string, at: nat, a: string, b: string)
    ensures Starts(s, at, a + b) <==> Starts(s, at, a) && Starts(s, at + |a|, b)
  {
    if at + |a| + |b| <= |s| {
      var whole := s[at..at + |a| + |b|];
      assert whole[..|a|] == s[at..at + |a|] && whole[|a|..] == s[at + |a|..at + |a| + |b|];
      assert whole == whole[..|a|] + whole[|a|..];
      assert (a + b)[..|a|] == a && (a + b)[|a|..] == b;
    }
  }

  lemma StartsAt(s: string, at: nat, what: string, i: nat)
    requires Starts(s, at, what) && i < |what|
    ensures s[at + i] == what[i]
  {
    assert s[at..at + |what|][i] == what[i];
  }

  lemma StartsOnly(s: string, at: nat, what: string, i: nat)
    requires i < |what|
    ensures Starts(s, at, what) ==> Is(s, at + i, what[i])
  {
    if Starts(s, at, what) { StartsAt(s, at, what, i); }
  }

  lemma StartsInside(s: string, at: nat, what: string)
    requires Starts(s, at, what)
    ensures at + |what| <= |s|
  {
  }

  lemma {:induction false} NameEndIs(s: string, at: nat, end: nat)
    requires at <= end < |s| && !IsNameChar(s[end])
    requires forall i :: at <= i < end ==> IsNameChar(s[i])
    ensures NameEnd(s, at) == end
    decreases end - at
  {
    if at < end { NameEndIs(s, at + 1, end); }
  }

  lemma QNameAt(s: string, at: nat, name: string)
    requires WellFormedName(name) && Starts(s, at, name)
    requires at + |name| < |s| && !IsNameChar(s[at + |name|])
    ensures QName(s, at) == Got(name, at + |name|)
  {
    StartsAt(s, at, name, 0);
    forall i | at + 1 <= i < at + |name| ensures IsNameChar(s[i]) { StartsAt(s, at, name, i - at); }
    NameEndIs(s, at + 1, at + |name|);
  }

  lemma SemicolonAt(s: string, at: nat, body: string)
    requires Starts(s, at, body + ";") && ';' !in body
    ensures Find(s, at, ";") == at + |body|
  {
    StartsBoth(s, at, body, ";");
    var r := Find(s, at, ";");
    if r < at + |body| {
      StartsAt(s, r, ";", 0);
      StartsAt(s, at, body, r - at);
    }
  }

  // The body of the reference a character is escaped to.
  function Reference(c: char): (body: string)
    requires EscapeChar(c)[0] == '&'
    ensures EscapeChar(c) == ['&'] + (body + ";") && ';' !in body && |body| <= 4
    ensures EntityValue(body) == Some(c)
  {
    if c == '&' then "amp" else if c == '<' then "lt" else if c == '>' then "gt"
    else if c == '\"' then "quot" else if c == '\'' then "apos"
    else
      assert NumberValue("1", 10) == 1;
      assert "13"[..1] == "1" && "#13"[1..] == "13";
      assert NumberValue("13", 10) == 13;
      "#13"
  }

  lemma EntityAt(s: string, at: nat, c: char)
    requires EscapeChar(c)[0] == '&' && Starts(s, at, EscapeChar(c))
    ensures Is(s, at, '&') && TakeEntity(s, at) == Got(c, at + |EscapeChar(c)|)
  {
    var body := Reference(c);
    StartsBoth(s, at, ['&'], body + ";");
    StartsAt(s, at, ['&'], 0);
    SemicolonAt(s, at + 1, body);
    StartsBoth(s, at + 1, body, ";");
  }

  // A character that is not escaped to a reference is one plain character.
  lemma PlainChar(c: char)
    requires EscapeChar(c)[0] != '&'
    ensures EscapeChar(c) == [Clean(c)] && Clean(c) != '&' && Clean(c) != '<' && Clean(c) != '\"'
  {
  }

  // One character, as itself or as a reference, up to a position.
  predicate Reads(s: string, at: nat, c: char, end: nat)
  {
    && at < |s| && s[at] != '<' && s[at] != '\"'
    && if s[at] == '&' then TakeEntity(s, at) == Got(c, end) else s[at] == c && end == at + 1
  }

  lemma CharAt(s: string, at: nat, c: char)
    requires Starts(s, at, EscapeChar(c))
    ensures Reads(s, at, Clean(c), at + |EscapeChar(c)|)
  {
    StartsAt(s, at, EscapeChar(c), 0);
    if EscapeChar(c)[0] == '&' {
      EntityAt(s, at, c);
    } else {
      PlainChar(c);
    }
  }

  lemma SanitizedSnoc(text: string)
    requires text != ""
    ensures Sanitized(text) == [Clean(text[0])] + Sanitized(text[1..])
  {
  }

  lemma EscapeParts(s: string, at: nat, text: string)
    requires text != "" && Starts(s, at, Escape(text))
    ensures Starts(s, at, EscapeChar(text[0])) && Starts(s, at + |EscapeChar(text[0])|, Escape(text[1..]))
    ensures |Escape(text)| == |EscapeChar(text[0])| + |Escape(text[1..])|
  {
    hide *;
    EscapeSnoc(text, 0);
    assert text[0..] == text;
    StartsBoth(s, at, EscapeChar(text[0]), Escape(text[1..]));
  }

  lemma TextRunEnds(s: string, at: nat)
    requires Is(s, at, '<')
    ensures TextRun(s, at) == Got(Sanitized(""), at)
  {
  }

  lemma AttributeValueEnds(s: string, at: nat)
    requires Is(s, at, '\"')
    ensures AttributeValue(s, at, '\"') == Got(Sanitized(""), at + 1)
  {
  }

  lemma TextRunStep(s: string, at: nat, c: char, end: nat, r: Parse<string>)
    requires at < end <= |s| && Reads(s, at, c, end) && r.Got? && TextRun(s, end) == r
    ensures TextRun(s, at) == Got([c] + r.value, r.at)
  {
    hide TakeEntity;
  }

  lemma AttributeValueStep(s: string, at: nat, c: char, end: nat, r: Parse<string>)
    requires at < end <= |s| && Reads(s, at, c, end) && r.Got? && AttributeValue(s, end, '\"') == r
    ensures AttributeValue(s, at, '\"') == Got([c] + r.value, r.at)
  {
    hide TakeEntity;
  }

  lemma {:induction false} TextRunAt(s: string, at: nat, text: string)
    requires Starts(s, at, Escape(text)) && Is(s, at + |Escape(text)|, '<')
    ensures TextRun(s, at) == Got(Sanitized(text), at + |Escape(text)|)
    decreases |text|
  {
    hide *;
    if text == "" {
      TextRunEnds(s, at);
    } else {
      EscapeParts(s, at, text);
      CharAt(s, at, text[0]);
      SanitizedSnoc(text);
      var end := at + |EscapeChar(text[0])|;
      StartsInside(s, end, Escape(text[1..]));
      TextRunAt(s, end, text[1..]);
      TextRunStep(s, at, Clean(text[0]), end, TextRun(s, end));
    }
  }

  lemma {:induction false} AttributeValueAt(s: string, at: nat, text: string)
    requires Starts(s, at, Escape(text)) && Is(s, at + |Escape(text)|, '\"')
    ensures AttributeValue(s, at, '\"') == Got(Sanitized(text), at + |Escape(text)| + 1)
    decreases |text|
  {
    hide *;
    if text == "" {
      AttributeValueEnds(s, at);
    } else {
      EscapeParts(s, at, text);
      CharAt(s, at, text[0]);
      SanitizedSnoc(text);
      var end := at + |EscapeChar(text[0])|;
      StartsInside(s, end, Escape(text[1..]));
      AttributeValueAt(s, end, text[1..]);
      AttributeValueStep(s, at, Clean(text[0]), end, AttributeValue(s, end, '\"'));
    }
  }

  function Declarations(node: XmlNode, inherited: string): seq<Declaration>
  {
    if Declares(node, inherited) then [Declaration("", Sanitized(Effective(node, inherited)))] else []
  }

  lemma XmlnsAt(s: string, at: nat, ns: string)
    requires Starts(s, at, "xmlns=\"" + (Escape(ns) + "\""))
    ensures TakeAttribute(s, at) == Got(Some(Declaration("", Sanitized(ns))), at + 8 + |Escape(ns)|)
  {
    hide Escape, Sanitized, AttributeValue, Starts;
    assert "xmlns=\"" + (Escape(ns) + "\"") == "xmlns" + ("=\"" + (Escape(ns) + "\""));
    StartsBoth(s, at, "xmlns", "=\"" + (Escape(ns) + "\""));
    StartsBoth(s, at + 5, "=\"", Escape(ns) + "\"");
    StartsBoth(s, at + 7, Escape(ns), "\"");
    StartsAt(s, at + 5, "=\"", 0);
    StartsAt(s, at + 5, "=\"", 1);
    StartsAt(s, at + 7 + |Escape(ns)|, "\"", 0);
    StartsInside(s, at + 7 + |Escape(ns)|, "\"");
    QNameAt(s, at, "xmlns");
    AttributeValueAt(s, at + 7, ns);
  }

  lemma TagEnds(s: string, at: nat)
    requires Is(s, at, '>')
    ensures TakeAttributes(s, at) == Got(Tag([], false), at + 1)
  {
    assert SkipSpace(s, at) == at;
  }

  lemma TagStep(s: string, at: nat, d: Declaration, end: nat)
    requires at + 1 < end <= |s| && s[at] == ' ' && s[at + 1] == 'x'
    requires TakeAttribute(s, at + 1) == Got(Some(d), end) && TakeAttributes(s, end) == Got(Tag([], false), end + 1)
    ensures TakeAttributes(s, at) == Got(Tag([d], false), end + 1)
  {
    assert SkipSpace(s, at) == at + 1;
    hide TakeAttribute, SkipSpace;
    assert [d] + [] == [d];
  }

  lemma TagAt(s: string, at: nat, node: XmlNode, inherited: string)
    requires Starts(s, at, Attributes(node, inherited)) && Is(s, at + |Attributes(node, inherited)|, '>')
    ensures TakeAttributes(s, at) ==
            Got(Tag(Declarations(node, inherited), false), at + |Attributes(node, inherited)| + 1)
  {
    hide Escape, Sanitized, TakeAttribute, TakeAttributes, Starts;
    TagEnds(s, at + |Attributes(node, inherited)|);
    if Declares(node, inherited) {
      var ns := Effective(node, inherited);
      var rest := "xmlns=\"" + (Escape(ns) + "\"");
      assert Attributes(node, inherited) == " " + rest;
      StartsBoth(s, at, " ", rest);
      StartsAt(s, at, " ", 0);
      StartsAt(s, at + 1, rest, 0);
      XmlnsAt(s, at + 1, ns);
      TagStep(s, at, Declaration("", Sanitized(ns)), at + 1 + |rest|);
    }
  }

  lemma ScopeAt(node: XmlNode, inherited: string, scope: Scope)
    requires Bound("", scope) == Sanitized(inherited)
    ensures Bound("", ScopeWith(scope, Declarations(node, inherited))) == Sanitized(Effective(node, inherited))
  {
    if Declares(node, inherited) {
      var d := Declarations(node, inherited)[0];
      assert ScopeWith(ScopeStep(scope, d), []) == ScopeStep(scope, d);
    }
  }

  lemma LocalIsWhole(name: string, scope: Scope)
    requires ':' !in name
    ensures LocalName(name) == name && NamespaceOf(name, scope) == Bound("", scope)
  {
    assert LastColon(name) == -1;
  }

  // ---------- a printed element ----------

  predicate Fits(height: nat, size: nat, depth: nat, count: nat, limits: Limits)
  {
    depth + height <= limits.maxDepth + 1 && count + size <= limits.maxElements
  }

  function EndTag(node: XmlNode): string { "</" + (node.name + ">") }

  lemma EndTagAt(s: string, at: nat, node: XmlNode, count: nat)
    requires WellFormedName(node.name) && Starts(s, at, EndTag(node))
    ensures Starts(s, at, "</") &&
            TakeEndTag(s, at, node.name, count) == Got(Inside("", [], count), at + |EndTag(node)|)
  {
    StartsBoth(s, at, "</", node.name + ">");
    StartsBoth(s, at + 2, node.name, ">");
    StartsAt(s, at + 2 + |node.name|, ">", 0);
    QNameAt(s, at + 2, node.name);
  }

  // What follows the start tag of a printed element.
  function Rest(node: XmlNode, k: nat, ns: string): string
    requires k <= |node.children|
  {
    RenderFrom(node, k, ns) + EndTag(node)
  }

  lemma RestShape(node: XmlNode, k: nat, ns: string)
    requires k <= |node.children|
    ensures if k == |node.children| then Rest(node, k, ns) == EndTag(node)
            else match node.children[k]
                 case Some(child) => Rest(node, k, ns) == Render(child, ns) + Rest(node, k + 1, ns)
                 case None => Rest(node, k, ns) == Rest(node, k + 1, ns)
  {
    hide Render, EndTag;
  }

  lemma RestHead(node: XmlNode, k: nat, ns: string)
    requires k <= |node.children|
    ensures Rest(node, k, ns) != "" && Rest(node, k, ns)[0] == '<'
    decreases |node.children| - k
  {
    hide RenderFrom, Rest, Escape, Attributes;
    RestShape(node, k, ns);
    if k < |node.children| {
      RestHead(node, k + 1, ns);
    }
  }

  lemma RenderShape(node: XmlNode, inherited: string)
    ensures Render(node, inherited) ==
            "<" + (node.name + (Attributes(node, inherited) +
                (">" + (Escape(TextOf(node)) + Rest(node, 0, Effective(node, inherited))))))
  {
    hide Escape, Attributes, RenderFrom;
  }

  lemma RenderParts(s: string, at: nat, node: XmlNode, inherited: string)
    requires Starts(s, at, Render(node, inherited))
    ensures Is(s, at, '<') && Starts(s, at + 1, node.name)
    ensures var a := at + 1 + |node.name|; var b := a + |Attributes(node, inherited)|;
            var ns := Effective(node, inherited);
            && Starts(s, a, Attributes(node, inherited)) && Is(s, b, '>')
            && Starts(s, b + 1, Escape(TextOf(node)))
            && Starts(s, b + 1 + |Escape(TextOf(node))|, Rest(node, 0, ns))
            && at + |Render(node, inherited)| == b + 1 + |Escape(TextOf(node))| + |Rest(node, 0, ns)|
  {
    hide Escape, Attributes, Render, Rest, Starts;
    var ns := Effective(node, inherited);
    var rest := Rest(node, 0, ns);
    var inner := Escape(TextOf(node)) + rest;
    RenderShape(node, inherited);
    var a := at + 1 + |node.name|;
    var b := a + |Attributes(node, inherited)|;
    StartsBoth(s, at, "<", node.name + (Attributes(node, inherited) + (">" + inner)));
    StartsAt(s, at, "<", 0);
    StartsInside(s, at, "<");
    StartsBoth(s, at + 1, node.name, Attributes(node, inherited) + (">" + inner));
    StartsBoth(s, a, Attributes(node, inherited), ">" + inner);
    StartsBoth(s, b, ">", inner);
    StartsAt(s, b, ">", 0);
    StartsInside(s, b, ">");
    StartsBoth(s, b + 1, Escape(TextOf(node)), rest);
  }

  lemma AttributesHead(node: XmlNode, inherited: string)
    ensures Attributes(node, inherited) == "" || Attributes(node, inherited)[0] == ' '
  {
  }

  lemma StartTagAt(s: string, at: nat, node: XmlNode, inherited: string)
    requires WellFormedName(node.name) && Starts(s, at, Render(node, inherited))
    ensures at < |s| && QName(s, at + 1) == Got(node.name, at + 1 + |node.name|)
    ensures TakeAttributes(s, at + 1 + |node.name|) ==
            Got(Tag(Declarations(node, inherited), false), at + 2 + |node.name| + |Attributes(node, inherited)|)
  {
    hide Attributes, Render, TakeAttributes, Declarations, Starts, Rest, Escape, QName, WellFormedName;
    RenderParts(s, at, node, inherited);
    var a := at + 1 + |node.name|;
    AttributesHead(node, inherited);
    if Attributes(node, inherited) != "" {
      StartsIs(s, a, Attributes(node, inherited));
    }
    QNameAt(s, at + 1, node.name);
    TagAt(s, a, node, inherited);
  }

  lemma ElementStep(s: string, at: nat, depth: nat, scope: Scope, count: nat, limits: Limits,
                    name: string, from: nat, declarations: seq<Declaration>, inside: nat, r: Parse<Inside>)
    requires Is(s, at, '<') && depth <= limits.maxDepth && count + 1 <= limits.maxElements
    requires QName(s, at + 1) == Got(name, from) && TakeAttributes(s, from) == Got(Tag(declarations, false), inside)
    requires r == TakeContent(s, inside, name, depth, ScopeWith(scope, declarations), count + 1, limits)
    ensures TakeElement(s, at, depth, scope, count, limits) == Closed(name, ScopeWith(scope, declarations), r)
  {
    hide QName, TakeAttributes, TakeContent, ScopeWith, Closed;
  }

  lemma FitsInside(node: XmlNode, depth: nat, count: nat, limits: Limits)
    requires Fits(Height(node), Size(node), depth, count, limits)
    ensures depth <= limits.maxDepth && count + 1 <= limits.maxElements && Size(node) == 1 + SizeFrom(node, 0)
    ensures Fits(HeightFrom(node, 0), SizeFrom(node, 0), depth + 1, count + 1, limits)
  {
  }

  lemma FitsNext(node: XmlNode, k: nat, depth: nat, count: nat, limits: Limits)
    requires k < |node.children| && Fits(HeightFrom(node, k), SizeFrom(node, k), depth, count, limits)
    ensures match node.children[k]
            case Some(child) =>
              && Fits(Height(child), Size(child), depth, count, limits)
              && Fits(HeightFrom(node, k + 1), SizeFrom(node, k + 1), depth, count + Size(child), limits)
              && SizeFrom(node, k) == Size(child) + SizeFrom(node, k + 1)
            case None =>
              && Fits(HeightFrom(node, k + 1), SizeFrom(node, k + 1), depth, count, limits)
              && SizeFrom(node, k) == SizeFrom(node, k + 1)
  {
  }

  lemma NameIsGood(node: XmlNode)
    requires Printable(node)
    ensures WellFormedName(node.name) && ':' !in node.name
    ensures forall i :: 0 <= i < |node.name| ==> IsNameChar(node.name[i])
  {
  }

  lemma ShownShape(node: XmlNode, inherited: string, scope: Scope, r: Parse<Inside>)
    requires ':' !in node.name && Bound("", scope) == Sanitized(Effective(node, inherited)) && r.Got?
    requires r.value.text == Sanitized(TextOf(node)) &&
             r.value.children == ShownFrom(node, 0, Effective(node, inherited))
    ensures Closed(node.name, scope, r) == Got(Counted(Shown(node, inherited), r.value.count), r.at)
  {
    hide Sanitized, ShownFrom;
    LocalIsWhole(node.name, scope);
  }

  lemma {:induction false} ElementAt(s: string, at: nat, node: XmlNode, inherited: string, depth: nat,
                    scope: Scope, count: nat, limits: Limits)
    requires Printable(node) && Starts(s, at, Render(node, inherited))
    requires Bound("", scope) == Sanitized(inherited)
    requires Fits(Height(node), Size(node), depth, count, limits)
    ensures Is(s, at, '<')
    ensures TakeElement(s, at, depth, scope, count, limits) ==
            Got(Counted(Shown(node, inherited), count + Size(node)), at + |Render(node, inherited)|)
    decreases node, 1
  {
    hide *;
    var ns := Effective(node, inherited);
    var declarations := Declarations(node, inherited);
    var inner := ScopeWith(scope, declarations);
    var inside := at + 2 + |node.name| + |Attributes(node, inherited)|;
    NameIsGood(node);
    FitsInside(node, depth, count, limits);
    RenderParts(s, at, node, inherited);
    StartTagAt(s, at, node, inherited);
    ScopeAt(node, inherited, scope);
    StartsInside(s, inside, Escape(TextOf(node)));
    ContentAt(s, inside, node, ns, depth, inner, count + 1, limits);
    var r := TakeContent(s, inside, node.name, depth, inner, count + 1, limits);
    ElementStep(s, at, depth, scope, count, limits, node.name, at + 1 + |node.name|, declarations, inside, r);
    ShownShape(node, inherited, inner, r);
  }

  // Text before the markup is read as one run.
  lemma TextStep(s: string, at: nat, text: string, end: nat, qname: string, depth: nat, scope: Scope,
                    count: nat, limits: Limits)
    requires at < end <= |s| && s[at] != '<' && TextRun(s, at) == Got(text, end)
    ensures TakeContent(s, at, qname, depth, scope, count, limits) ==
            AfterText(text, TakeContent(s, end, qname, depth, scope, count, limits))
  {
    hide TextRun, Past, TakeElement, TakeEndTag, AfterText, Starts;
    StartsOnly(s, at, "</", 0);
    StartsOnly(s, at, "<!--", 0);
    StartsOnly(s, at, "<![CDATA[", 0);
    StartsOnly(s, at, "<!", 0);
    StartsOnly(s, at, "<?", 0);
  }

  lemma AfterAllText(text: string, r: Parse<Inside>)
    requires r.Got? && r.value.text == ""
    ensures AfterText(text, r) == Got(r.value.(text := text), r.at)
  {
    assert text + "" == text;
  }

  lemma {:induction false} ContentAt(s: string, at: nat, node: XmlNode, ns: string, depth: nat, scope: Scope,
                    count: nat, limits: Limits)
    requires Printable(node) && at <= |s|
    requires Starts(s, at, Escape(TextOf(node))) && Starts(s, at + |Escape(TextOf(node))|, Rest(node, 0, ns))
    requires Bound("", scope) == Sanitized(ns)
    requires Fits(HeightFrom(node, 0), SizeFrom(node, 0), depth + 1, count, limits)
    ensures TakeContent(s, at, node.name, depth, scope, count, limits) ==
            Got(Inside(Sanitized(TextOf(node)), ShownFrom(node, 0, ns), count + SizeFrom(node, 0)),
                at + |Escape(TextOf(node))| + |Rest(node, 0, ns)|)
    decreases node, 0, |node.children| + 1
  {
    hide *;
    var text := TextOf(node);
    var end := at + |Escape(text)|;
    StartsInside(s, end, Rest(node, 0, ns));
    ChildrenAt(s, end, node, 0, ns, depth, scope, count, limits);
    if text == "" {
      SanitizedEmpty();
    } else {
      RestHead(node, 0, ns);
      StartsAt(s, end, Rest(node, 0, ns), 0);
      StartsIs(s, end, Rest(node, 0, ns));
      StartsAt(s, at, Escape(text), 0);
      TextRunAt(s, at, text);
      TextStep(s, at, Sanitized(text), end, node.name, depth, scope, count, limits);
      AfterAllText(Sanitized(text), TakeContent(s, end, node.name, depth, scope, count, limits));
    }
  }

  lemma SanitizedEmpty()
    ensures Sanitized("") == ""
  {
  }

  lemma StartsIs(s: string, at: nat, what: string)
    requires Starts(s, at, what) && what != ""
    ensures Is(s, at, what[0])
  {
    StartsAt(s, at, what, 0);
  }

  lemma ShownNext(node: XmlNode, k: nat, ns: string)
    requires k <= |node.children|
    ensures if k == |node.children| then ShownFrom(node, k, ns) == [] && SizeFrom(node, k) == 0
            else match node.children[k]
                 case Some(child) => ShownFrom(node, k, ns) == [Shown(child, ns)] + ShownFrom(node, k + 1, ns)
                 case None => ShownFrom(node, k, ns) == ShownFrom(node, k + 1, ns)
  {
    hide Shown;
  }

  lemma ChildIsPrintable(node: XmlNode, k: nat)
    requires Printable(node) && k < |node.children| && node.children[k].Some?
    ensures Printable(node.children[k].value)
  {
  }

  lemma EndTagStep(s: string, at: nat, qname: string, depth: nat, scope: Scope, count: nat, limits: Limits)
    requires Starts(s, at, "</")
    ensures at <= |s| && TakeContent(s, at, qname, depth, scope, count, limits) == TakeEndTag(s, at, qname, count)
  {
  }

  lemma {:induction false} ChildrenAt(s: string, at: nat, node: XmlNode, k: nat, ns: string, depth: nat,
                    scope: Scope, count: nat, limits: Limits)
    requires Printable(node) && k <= |node.children| && at <= |s|
    requires Starts(s, at, Rest(node, k, ns))
    requires Bound("", scope) == Sanitized(ns)
    requires Fits(HeightFrom(node, k), SizeFrom(node, k), depth + 1, count, limits)
    ensures TakeContent(s, at, node.name, depth, scope, count, limits) ==
            Got(Inside("", ShownFrom(node, k, ns), count + SizeFrom(node, k)), at + |Rest(node, k, ns)|)
    decreases node, 0, |node.children| - k
  {
    hide *;
    RestShape(node, k, ns);
    ShownNext(node, k, ns);
    if k == |node.children| {
      NameIsGood(node);
      EndTagAt(s, at, node, count);
      EndTagStep(s, at, node.name, depth, scope, count, limits);
    } else {
      FitsNext(node, k, depth + 1, count, limits);
      match node.children[k] {
        case None =>
          ChildrenAt(s, at, node, k + 1, ns, depth, scope, count, limits);
        case Some(child) =>
          ChildIsPrintable(node, k);
          StartsBoth(s, at, Render(child, ns), Rest(node, k + 1, ns));
          StartsInside(s, at, Render(child, ns));
          ElementAt(s, at, child, ns, depth + 1, scope, count, limits);
          ChildrenAt(s, at + |Render(child, ns)|, node, k + 1, ns, depth, scope, count + Size(child), limits);
          NameIsGood(child);
          RenderOpens(s, at, child, ns);
          ChildStep(s, at, node.name, depth, scope, count, limits);
          AfterOneChild(Shown(child, ns),
              TakeContent(s, at + |Render(child, ns)|, node.name, depth, scope, count + Size(child), limits));
      }
    }
  }

  lemma AfterOneChild(child: ParsedElement, r: Parse<Inside>)
    requires r.Got?
    ensures AfterChild(child, r) == Got(Inside(r.value.text, [child] + r.value.children, r.value.count), r.at)
  {
  }

  // A `<` that can only begin an element.
  predicate Opens(s: string, at: nat)
  {
    && at + 1 < |s| && s[at] == '<'
    && s[at + 1] != '/' && s[at + 1] != '!' && s[at + 1] != '?'
  }

  lemma RenderOpens(s: string, at: nat, node: XmlNode, inherited: string)
    requires Starts(s, at, Render(node, inherited))
    requires forall i :: 0 <= i < |node.name| ==> IsNameChar(node.name[i])
    ensures Opens(s, at)
    ensures node.name == "" ==> !IsNameStart(s[at + 1])
    ensures node.name != "" ==> s[at + 1] == node.name[0]
  {
    hide Render, Attributes, Starts, Rest, Escape;
    RenderParts(s, at, node, inherited);
    AttributesHead(node, inherited);
    if node.name != "" {
      StartsAt(s, at + 1, node.name, 0);
    } else if Attributes(node, inherited) != "" {
      StartsAt(s, at + 1, Attributes(node, inherited), 0);
    }
  }

  // At the start of an element, content is that element and then more content.
  lemma ChildStep(s: string, at: nat, qname: string, depth: nat, scope: Scope, count: nat, limits: Limits)
    requires Opens(s, at)
    ensures TakeContent(s, at, qname, depth, scope, count, limits) ==
            var r := TakeElement(s, at, depth + 1, scope, count, limits);
            if r.Refused? then Refused(r.reason)
            else AfterChild(r.value.element, TakeContent(s, r.at, qname, depth, scope, r.value.count, limits))
  {
    hide TakeElement, Past, TextRun, TakeEndTag, AfterChild, AfterText, MarkupRefusal, Starts;
    StartsOnly(s, at, "</", 1);
    StartsOnly(s, at, "<!--", 1);
    StartsOnly(s, at, "<![CDATA[", 1);
    StartsOnly(s, at, "<!", 1);
    StartsOnly(s, at, "<?", 1);
  }
}
