// The recursive-descent parser itself: a position and an element count moved by
// loops, shown to answer what the grammar's functions answer.
module XmlParser {
  import opened Wrappers
  import opened XmlPrinter
  import opened XmlGrammar

  // A routine's answer: the error it threw, or its value.
  datatype Outcome<+T> = Done(value: T) | Failed(reason: Refusal)

  // An outcome, with the parser at this position, is what the grammar says.
  predicate Matches<T(==)>(o: Outcome<T>, at: nat, r: Parse<T>)
  {
    match o
    case Failed(reason) => r == Refused(reason)
    case Done(value) => r == Got(value, at)
  }

  // Text already gathered, in front of what the grammar reads next.
  function Gathered(text: string, r: Parse<string>): Parse<string>
  {
    if r.Refused? then r else Got(text + r.value, r.at)
  }

  function WithDeclarations(ds: seq<Declaration>, r: Parse<Tag>): Parse<Tag>
  {
    if r.Refused? then r else Got(r.value.(declarations := ds + r.value.declarations), r.at)
  }

  function WithInside(text: string, children: seq<ParsedElement>, r: Parse<Inside>): Parse<Inside>
  {
    if r.Refused? then r else Got(Inside(text + r.value.text, children + r.value.children, r.value.count), r.at)
  }

  lemma GatheredMore(text: string, more: string, r: Parse<string>)
    ensures Gathered(text, Gathered(more, r)) == Gathered(text + more, r)
    ensures |more| == 1 ==> Prefixed(more[0], r) == Gathered(more, r)
  {
    if r.Got? { assert text + (more + r.value) == text + more + r.value; }
    if |more| == 1 { assert more == [more[0]]; }
  }

  lemma NothingGathered(r: Parse<string>, tag: Parse<Tag>, inside: Parse<Inside>)
    ensures Gathered("", r) == r && WithDeclarations([], tag) == tag && WithInside("", [], inside) == inside
  {
    if r.Got? { assert "" + r.value == r.value; }
    if tag.Got? { assert [] + tag.value.declarations == tag.value.declarations; }
    if inside.Got? {
      assert "" + inside.value.text == inside.value.text && [] + inside.value.children == inside.value.children;
    }
  }

  lemma WithMoreText(text: string, children: seq<ParsedElement>, more: string, r: Parse<Inside>)
    ensures WithInside(text, children, AfterText(more, r)) == WithInside(text + more, children, r)
  {
    if r.Got? { assert text + (more + r.value.text) == text + more + r.value.text; }
  }

  lemma WithOneChild(text: string, children: seq<ParsedElement>, child: ParsedElement, r: Parse<Inside>)
    ensures WithInside(text, children, AfterChild(child, r)) == WithInside(text, children + [child], r)
  {
    if r.Got? { assert children + ([child] + r.value.children) == children + [child] + r.value.children; }
  }

  lemma WithOneDeclaration(ds: seq<Declaration>, d: Option<Declaration>, r: Parse<Tag>)
    ensures WithDeclarations(ds, Declared(d, r)) == WithDeclarations(if d.Some? then ds + [d.value] else ds, r)
  {
    if r.Got? && d.Some? { assert ds + ([d.value] + r.value.declarations) == ds + [d.value] + r.value.declarations; }
  }

  // A scope with declarations applied in order.
  method ScopeInside(inherited: Scope, declarations: seq<Declaration>) returns (scope: Scope)
    ensures scope == ScopeWith(inherited, declarations)
  {
    scope := inherited;
    var i := 0;
    assert declarations[0..] == declarations;
    while i < |declarations|
      invariant 0 <= i <= |declarations| && ScopeWith(inherited, declarations) == ScopeWith(scope, declarations[i..])
    {
      assert declarations[i..][1..] == declarations[i + 1..];
      var d := declarations[i];
      if d.prefix != "xmlns" && d.prefix != "xml" {
        if d.uri == "" { scope := scope - {d.prefix}; } else { scope := scope[d.prefix := d.uri]; }
      }
      i := i + 1;
    }
  }

  class Parser {
    const text: string
    const limits: Limits
    var at: nat
    var elements: nat

    constructor (text: string, limits: Limits)
      ensures this.text == text && this.limits == Capped(limits) && at == 0 && elements == 0
    {
      this.text, this.limits := text, Capped(limits);
      at, elements := 0, 0;
    }

    method SkipSpaces()
      requires at <= |text|
      modifies this`at
      ensures at == SkipSpace(text, old(at))
    {
      while at < |text| && IsSpace(text[at])
        invariant at <= |text| && SkipSpace(text, at) == SkipSpace(text, old(at))
      {
        at := at + 1;
      }
    }

    // Past a comment, instruction or section opened here, answering its inside.
    method SkipPast(skip: nat, terminator: string) returns (o: Outcome<string>)
      requires 0 < skip && at + skip <= |text|
      modifies this`at
      ensures Matches(o, at, Past(text, old(at), skip, terminator))
      ensures o.Done? ==> old(at) < at <= |text|
      ensures o.Failed? ==> at == old(at)
    {
      var end := Find(text, at + skip, terminator);
      if end == -1 { return Failed(Malformed); }
      o := Done(text[at + skip..end]);
      at := end + |terminator|;
    }

    method SkipMiscellany() returns (o: Outcome<()>)
      requires at <= |text|
      modifies this`at
      ensures Matches(o, at, SkipMisc(text, old(at)))
      ensures o.Done? ==> old(at) <= at <= |text|
    {
      hide Find, MarkupRefusal;
      while true
        invariant old(at) <= at <= |text| && SkipMisc(text, at) == SkipMisc(text, old(at))
        decreases |text| - at
      {
        SkipSpaces();
        if Starts(text, at, "<!--") {
          var r := SkipPast(4, "-->");
          if r.Failed? { return Failed(r.reason); }
        } else if Starts(text, at, "<?") {
          var r := SkipPast(2, "?>");
          if r.Failed? { return Failed(r.reason); }
        } else if Starts(text, at, "<!") {
          return Failed(MarkupRefusal(text, at));
        } else {
          return Done(());
        }
      }
    }

    method Name() returns (o: Outcome<string>)
      requires at <= |text|
      modifies this`at
      ensures Matches(o, at, QName(text, old(at)))
      ensures o.Done? ==> old(at) < at <= |text|
    {
      if at == |text| || !IsNameStart(text[at]) { return Failed(Malformed); }
      var start := at;
      at := at + 1;
      while at < |text| && IsNameChar(text[at])
        invariant start < at <= |text| && NameEnd(text, at) == NameEnd(text, start + 1)
      {
        at := at + 1;
      }
      o := Done(text[start..at]);
    }

    method Reference() returns (o: Outcome<char>)
      requires Is(text, at, '&')
      modifies this`at
      ensures Matches(o, at, TakeEntity(text, old(at)))
      ensures o.Done? ==> old(at) < at <= |text|
    {
      hide EntityValue;
      var semicolon := Find(text, at + 1, ";");
      if semicolon == -1 || semicolon - at > 13 { return Failed(Entity); }
      var c := EntityValue(text[at + 1..semicolon]);
      at := semicolon + 1;
      o := if c.None? then Failed(Entity) else Done(c.value);
    }

    // Text up to the next `<`: slices between references, and what they stand for.
    method Text() returns (o: Outcome<string>)
      requires at <= |text|
      modifies this`at
      ensures Matches(o, at, TextRun(text, old(at)))
      ensures o.Done? ==> old(at) <= at <= |text|
    {
      hide TakeEntity;
      var gathered := "";
      NothingGathered(TextRun(text, at), Refused(Malformed), Refused(Malformed));
      while true
        invariant old(at) <= at <= |text|
        invariant TextRun(text, old(at)) == Gathered(gathered, TextRun(text, at))
        decreases |text| - at
      {
        var start := at;
        NothingGathered(TextRun(text, at), Refused(Malformed), Refused(Malformed));
        assert text[start..at] == "";
        while at < |text| && text[at] != '<' && text[at] != '&'
          invariant start <= at <= |text|
          invariant TextRun(text, start) == Gathered(text[start..at], TextRun(text, at))
        {
          GatheredMore(text[start..at], [text[at]], TextRun(text, at + 1));
          assert text[start..at] + [text[at]] == text[start..at + 1];
          at := at + 1;
        }
        GatheredMore(gathered, text[start..at], TextRun(text, at));
        gathered := gathered + text[start..at];
        if !Is(text, at, '&') {
          assert gathered + "" == gathered;
          return Done(gathered);
        }
        var c := Reference();
        if c.Failed? { return Failed(c.reason); }
        GatheredMore(gathered, [c.value], TextRun(text, at));
        gathered := gathered + [c.value];
      }
    }

    // After the opening quote: a value up to and past the closing one.
    method Value(quote: char) returns (o: Outcome<string>)
      requires at <= |text| && quote != '&' && quote != '<'
      modifies this`at
      ensures Matches(o, at, AttributeValue(text, old(at), quote))
      ensures o.Done? ==> old(at) < at <= |text|
    {
      hide TakeEntity;
      var gathered := "";
      NothingGathered(AttributeValue(text, at, quote), Refused(Malformed), Refused(Malformed));
      while true
        invariant old(at) <= at <= |text|
        invariant AttributeValue(text, old(at), quote) == Gathered(gathered, AttributeValue(text, at, quote))
        decreases |text| - at
      {
        var start := at;
        NothingGathered(AttributeValue(text, at, quote), Refused(Malformed), Refused(Malformed));
        assert text[start..at] == "";
        while at < |text| && text[at] != quote && text[at] != '&' && text[at] != '<'
          invariant start <= at <= |text|
          invariant AttributeValue(text, start, quote) == Gathered(text[start..at], AttributeValue(text, at, quote))
        {
          GatheredMore(text[start..at], [text[at]], AttributeValue(text, at + 1, quote));
          assert text[start..at] + [text[at]] == text[start..at + 1];
          at := at + 1;
        }
        GatheredMore(gathered, text[start..at], AttributeValue(text, at, quote));
        gathered := gathered + text[start..at];
        if at == |text| || text[at] == '<' { return Failed(Malformed); }
        if text[at] == quote {
          assert gathered + "" == gathered;
          at := at + 1;
          return Done(gathered);
        }
        var c := Reference();
        if c.Failed? { return Failed(c.reason); }
        GatheredMore(gathered, [c.value], AttributeValue(text, at, quote));
        gathered := gathered + [c.value];
      }
    }

    method Attribute() returns (o: Outcome<Option<Declaration>>)
      requires at <= |text|
      modifies this`at
      ensures Matches(o, at, TakeAttribute(text, old(at)))
      ensures o.Done? ==> old(at) < at <= |text|
    {
      hide QName, SkipSpace, AttributeValue, DeclarationOf;
      var name := Name();
      if name.Failed? { return Failed(name.reason); }
      SkipSpaces();
      if !Is(text, at, '=') { return Failed(Malformed); }
      at := at + 1;
      SkipSpaces();
      if !Is(text, at, '\"') && !Is(text, at, '\'') { return Failed(Malformed); }
      var quote := text[at];
      at := at + 1;
      var value := Value(quote);
      if value.Failed? { return Failed(value.reason); }
      o := Done(DeclarationOf(name.value, value.value));
    }

    // The rest of a start tag.
    method StartTag() returns (o: Outcome<Tag>)
      requires at <= |text|
      modifies this`at
      ensures Matches(o, at, TakeAttributes(text, old(at)))
      ensures o.Done? ==> old(at) < at <= |text|
    {
      hide TakeAttribute, SkipSpace;
      var declarations := [];
      NothingGathered(Refused(Malformed), TakeAttributes(text, at), Refused(Malformed));
      while true
        invariant old(at) <= at <= |text|
        invariant TakeAttributes(text, old(at)) == WithDeclarations(declarations, TakeAttributes(text, at))
        decreases |text| - at
      {
        var spaced := at < |text| && IsSpace(text[at]);
        SkipSpaces();
        if Is(text, at, '>') {
          at := at + 1;
          assert declarations + [] == declarations;
          return Done(Tag(declarations, false));
        }
        if Is(text, at, '/') {
          if !Is(text, at + 1, '>') { return Failed(Malformed); }
          at := at + 2;
          assert declarations + [] == declarations;
          return Done(Tag(declarations, true));
        }
        if at == |text| || !spaced { return Failed(Malformed); }
        var d := Attribute();
        if d.Failed? { return Failed(d.reason); }
        WithOneDeclaration(declarations, d.value, TakeAttributes(text, at));
        if d.value.Some? { declarations := declarations + [d.value.value]; }
      }
    }

    // At `<`: one element, its children parsed by recursion.
    method OneElement(depth: nat, inherited: Scope) returns (o: Outcome<ParsedElement>)
      requires Is(text, at, '<')
      modifies this
      ensures match TakeElement(text, old(at), depth, inherited, old(elements), limits)
              case Refused(reason) => o == Failed(reason)
              case Got(counted, end) => o == Done(counted.element) && elements == counted.count && at == end
      decreases |text| - at, 0
    {
      hide QName, TakeAttributes, TakeContent, ScopeWith, Element;
      if depth > limits.maxDepth { return Failed(Depth); }
      elements := elements + 1;
      if elements > limits.maxElements { return Failed(TooManyElements); }
      at := at + 1;
      var qname := Name();
      if qname.Failed? { return Failed(qname.reason); }
      var tag := StartTag();
      if tag.Failed? { return Failed(tag.reason); }
      var scope := ScopeInside(inherited, tag.value.declarations);
      if tag.value.empty { return Done(Element(qname.value, scope, "", [])); }
      var inside := Content(qname.value, depth, scope);
      if inside.Failed? { return Failed(inside.reason); }
      o := Done(Element(qname.value, scope, inside.value.0, inside.value.1));
    }

    // From after a start tag, through the matching end tag.
    method Content(qname: string, depth: nat, scope: Scope) returns (o: Outcome<(string, seq<ParsedElement>)>)
      requires at <= |text|
      modifies this
      ensures match TakeContent(text, old(at), qname, depth, scope, old(elements), limits)
              case Refused(reason) => o == Failed(reason)
              case Got(inside, end) =>
                o == Done((inside.text, inside.children)) && elements == inside.count && at == end
      decreases |text| - at, 1
    {
      hide QName, TakeElement, TextRun, SkipSpace, Past, MarkupRefusal, Starts, WithInside;
      var gathered, children := "", [];
      NothingGathered(Refused(Malformed), Refused(Malformed),
          TakeContent(text, at, qname, depth, scope, elements, limits));
      while true
        invariant old(at) <= at <= |text|
        invariant TakeContent(text, old(at), qname, depth, scope, old(elements), limits) ==
                  WithInside(gathered, children, TakeContent(text, at, qname, depth, scope, elements, limits))
        decreases |text| - at
      {
        InsideEnds(gathered, children, TakeContent(text, at, qname, depth, scope, elements, limits));
        if at == |text| { return Failed(Malformed); }
        StartsRoom(text, at);
        if Starts(text, at, "</") {
          o := EndTag(qname);
          if o.Done? { o := Done((gathered, children)); }
          return;
        } else if Starts(text, at, "<!--") {
          var r := SkipPast(4, "-->");
          if r.Failed? { return Failed(r.reason); }
        } else if Starts(text, at, "<![CDATA[") {
          var r := SkipPast(9, "]]>");
          if r.Failed? { return Failed(r.reason); }
          WithMoreText(gathered, children, r.value, TakeContent(text, at, qname, depth, scope, elements, limits));
          gathered := gathered + r.value;
        } else if Starts(text, at, "<!") {
          return Failed(MarkupRefusal(text, at));
        } else if Starts(text, at, "<?") {
          var r := SkipPast(2, "?>");
          if r.Failed? { return Failed(r.reason); }
        } else if text[at] == '<' {
          var child := OneElement(depth + 1, scope);
          if child.Failed? { return Failed(child.reason); }
          WithOneChild(gathered, children, child.value, TakeContent(text, at, qname, depth, scope, elements, limits));
          children := children + [child.value];
        } else {
          var run := Text();
          if run.Failed? { return Failed(run.reason); }
          WithMoreText(gathered, children, run.value, TakeContent(text, at, qname, depth, scope, elements, limits));
          gathered := gathered + run.value;
        }
      }
    }

    // At `</`: the end tag that matches this name.
    method EndTag(qname: string) returns (o: Outcome<(string, seq<ParsedElement>)>)
      requires Starts(text, at, "</")
      modifies this`at
      ensures match TakeEndTag(text, old(at), qname, elements)
              case Refused(reason) => o == Failed(reason)
              case Got(inside, end) =>
                o == Done((inside.text, inside.children)) && elements == inside.count && at == end
    {
      hide QName, SkipSpace;
      at := at + 2;
      var closing := Name();
      if closing.Failed? { return Failed(closing.reason); }
      SkipSpaces();
      if !Is(text, at, '>') { return Failed(Malformed); }
      at := at + 1;
      o := if closing.value != qname then Failed(Malformed) else Done(("", []));
    }

    method Parse() returns (o: Outcome<ParsedElement>)
      requires at == 0 && elements == 0
      modifies this
      ensures Matches(o, at, ParseRest(text, limits))
    {
      hide SkipMisc, TakeElement;
      var start := SkipMiscellany();
      if start.Failed? { return Failed(start.reason); }
      if !Is(text, at, '<') { return Failed(Malformed); }
      var root := OneElement(1, ROOT_SCOPE);
      if root.Failed? { return Failed(root.reason); }
      var end := SkipMiscellany();
      if end.Failed? { return Failed(end.reason); }
      o := if at < |text| then Failed(Malformed) else root;
    }
  }

  lemma StartsRoom(s: string, at: nat)
    ensures Starts(s, at, "<!--") ==> at + 4 <= |s|
    ensures Starts(s, at, "<![CDATA[") ==> at + 9 <= |s|
    ensures Starts(s, at, "<?") ==> at + 2 <= |s|
  {
  }

  lemma InsideEnds(text: string, children: seq<ParsedElement>, r: Parse<Inside>)
    ensures r.Refused? ==> WithInside(text, children, r) == r
    ensures r.Got? && r.value.text == "" && r.value.children == [] ==>
              WithInside(text, children, r) == Got(Inside(text, children, r.value.count), r.at)
  {
    assert text + "" == text && children + [] == children;
  }

  // The first place holding a character no document carries, or -1.
  method FindInvalidChar(text: string) returns (found: int)
    ensures found == -1 <==> AllXmlChars(text)
    ensures found != -1 ==> 0 <= found < |text| && !IsXmlChar(text[found] as int) && AllXmlChars(text[..found])
  {
    var i := 0;
    while i < |text|
      invariant 0 <= i <= |text| && AllXmlChars(text[..i])
    {
      if !IsXmlChar(text[i] as int) { return i; }
      i := i + 1;
    }
    assert text[..i] == text;
    found := -1;
  }

  // The whole entry point, against the grammar it implements.
  method ParseDocument(input: string, limits: Limits) returns (o: Outcome<ParsedElement>)
    ensures match ParseXml(input, limits)
            case Refused(reason) => o == Failed(reason)
            case Got(t, _) => o == Done(t)
  {
    hide ParseBody, Units, AllXmlChars;
    if Units(input) > limits.maxBytes { return Failed(TooLarge); }
    var body := BodyOf(input);
    var invalid := FindInvalidChar(body);
    if invalid != -1 { return Failed(InvalidCharacter); }
    BodyIsRest(body, limits);
    var parser := new Parser(body, limits);
    o := parser.Parse();
  }

  lemma BodyIsRest(body: string, limits: Limits)
    ensures ParseBody(body, limits) == ParseRest(body, Capped(limits))
  {
  }
}
