// What the parser refuses: exactly the documents past its limits, and the ones that are
// not one well-nested element.
module XmlRefusals {
  import opened Wrappers
  import opened XmlPrinter
  import opened XmlGrammar
  import opened XmlRoundTrip
  import opened XmlTheorems
  import opened XmlPrefixes
  import opened XmlNamespaces

  // ---------- the limits are exact ----------

  predicate PastLimits<T>(r: Parse<T>) { r.Refused? && (r.reason.Depth? || r.reason.TooManyElements?) }

  lemma TooDeepOrMany(s: string, at: nat, depth: nat, scope: Scope, count: nat, limits: Limits)
    requires Is(s, at, '<') && !(depth <= limits.maxDepth && count + 1 <= limits.maxElements)
    ensures PastLimits(TakeElement(s, at, depth, scope, count, limits))
  {
  }

  lemma ClosedFits(t: Tagged, depth: nat, count: nat, limits: Limits)
    requires t.items == [] && depth <= limits.maxDepth && count + 1 <= limits.maxElements
    ensures Fits(Levels(t), Elements(t), depth, count, limits)
  {
  }

  lemma UnfitInside(t: Tagged, depth: nat, count: nat, limits: Limits)
    requires !Fits(Levels(t), Elements(t), depth, count, limits)
    requires depth <= limits.maxDepth && count + 1 <= limits.maxElements
    ensures !Fits(LevelsFrom(t, 0), ElementsFrom(t, 0), depth + 1, count + 1, limits)
  {
  }

  // Where the items from the k-th on do not fit, either this one does not, or the others.
  lemma UnfitOn(t: Tagged, k: nat, depth: nat, count: nat, limits: Limits)
    requires k <= |t.items| && !Fits(LevelsFrom(t, k), ElementsFrom(t, k), depth, count, limits)
    requires depth <= limits.maxDepth + 1 && count <= limits.maxElements
    ensures k < |t.items|
    ensures match t.items[k]
            case Child(element) =>
              Fits(Levels(element), Elements(element), depth, count, limits) ==>
                count + Elements(element) <= limits.maxElements &&
                !Fits(LevelsFrom(t, k + 1), ElementsFrom(t, k + 1), depth, count + Elements(element), limits)
            case _ => !Fits(LevelsFrom(t, k + 1), ElementsFrom(t, k + 1), depth, count, limits)
  {
  }

  lemma ClosedRefuses(name: string, scope: Scope, r: Parse<Inside>)
    requires PastLimits(r)
    ensures PastLimits(XmlGrammar.Closed(name, scope, r))
  {
  }

  lemma {:induction false} ElementPast(s: string, at: nat, t: Tagged, around: seq<Declaration>, depth: nat,
      scope: Scope,
                    count: nat, limits: Limits)
    requires Good(t) && Starts(s, at, Print(t)) && Agrees(scope, around)
    requires !Fits(Levels(t), Elements(t), depth, count, limits)
    ensures Is(s, at, '<') && PastLimits(TakeElement(s, at, depth, scope, count, limits))
    decreases t, 1
  {
    hide *;
    PrintParts(s, at, t);
    if !(depth <= limits.maxDepth && count + 1 <= limits.maxElements) {
      TooDeepOrMany(s, at, depth, scope, count, limits);
    } else {
      var declarations := DeclaredIn(t.attributes);
      var inner, within := around + declarations, ScopeWith(scope, declarations);
      var from := at + 1 + |QNameOf(t)|;
      var inside := from + |PrintAttributes(t.attributes)| + |TagEnd(t.closed)|;
      GoodIs(t);
      UnfitInside(t, depth, count, limits);
      StartAt(s, at, t);
      ScopeAgrees(scope, around, declarations);
      if t.closed { ClosedFits(t, depth, count, limits); }
      ItemsPast(s, inside, t, 0, inner, depth, within, count + 1, limits);
      var r := TakeContent(s, inside, QNameOf(t), depth, within, count + 1, limits);
      ElementStep(s, at, depth, scope, count, limits, QNameOf(t), from, declarations, inside, r);
      ClosedRefuses(QNameOf(t), within, r);
    }
  }

  lemma {:induction false} ItemsPast(s: string, at: nat, t: Tagged, k: nat, around: seq<Declaration>, depth: nat,
                    scope: Scope, count: nat, limits: Limits)
    requires Good(t) && k <= |t.items| && at <= |s| && Starts(s, at, PrintFrom(t, k)) && Agrees(scope, around)
    requires depth <= limits.maxDepth && count <= limits.maxElements
    requires !Fits(LevelsFrom(t, k), ElementsFrom(t, k), depth + 1, count, limits)
    ensures PastLimits(TakeContent(s, at, QNameOf(t), depth, scope, count, limits))
    decreases t, 0, |t.items| - k
  {
    hide *;
    UnfitOn(t, k, depth + 1, count, limits);
    ItemIs(t, k);
    if t.items[k].Child? {
      var element := t.items[k].element;
      FromShape(t, k, around);
      StartsBoth(s, at, Print(element), PrintFrom(t, k + 1));
      StartsInside(s, at, Print(element));
      PrintOpens(s, at, element);
      ChildStep(s, at, QNameOf(t), depth, scope, count, limits);
      if Fits(Levels(element), Elements(element), depth + 1, count, limits) {
        PrefixedElementAt(s, at, element, around, depth + 1, scope, count, limits);
        ItemsPast(s, at + |Print(element)|, t, k + 1, around, depth, scope, count + Elements(element), limits);
        AfterChildPast(Seen(element, around),
            TakeContent(s, at + |Print(element)|, QNameOf(t), depth, scope, count + Elements(element), limits));
      } else {
        ElementPast(s, at, element, around, depth + 1, scope, count, limits);
        RefusedPast(TakeElement(s, at, depth + 1, scope, count, limits));
      }
    } else {
      var end := ItemAt(s, at, t, k, depth, scope, count, limits);
      ItemsPast(s, end, t, k + 1, around, depth, scope, count, limits);
      AfterTextPast(TextIn(t.items[k]), TakeContent(s, end, QNameOf(t), depth, scope, count, limits));
    }
  }

  lemma AfterChildPast(child: ParsedElement, r: Parse<Inside>)
    requires PastLimits(r)
    ensures PastLimits(AfterChild(child, r))
  {
  }

  lemma AfterTextPast(text: string, r: Parse<Inside>)
    requires PastLimits(r)
    ensures PastLimits(AfterText(text, r))
  {
  }

  lemma RefusedPast(r: Parse<Counted>)
    requires PastLimits(r)
    ensures r.Refused?
    ensures PastLimits<Inside>(Refused(r.reason))
  {
  }

  lemma RootFits(t: Tagged, limits: Limits)
    ensures Fits(Levels(t), Elements(t), 1, 0, Capped(limits)) <==>
            Levels(t) <= limits.maxDepth && Levels(t) <= 256 && Elements(t) <= limits.maxElements
  {
  }

  // A well written document is refused as too large exactly when it is longer than the
  // limit, and for its depth or its number of elements exactly when one of these is past
  // its limit, however high the caller set the depth; any other is parsed.
  lemma LimitsAreExact(t: Tagged, limits: Limits)
    requires Good(t)
    ensures var r := ParseXml(Document(t), limits);
            var large := Units(Document(t)) > limits.maxBytes;
            var fits := Levels(t) <= limits.maxDepth && Levels(t) <= 256 && Elements(t) <= limits.maxElements;
            && (r == Refused(TooLarge) <==> large)
            && (PastLimits(r) <==> !large && !fits)
            && (r.Got? <==> !large && fits)
  {
    hide Print, Units, Good, Elements, Levels, Seen, TakeElement, SkipMisc, Starts, IsXmlChar, Agrees, Fits;
    RootFits(t, limits);
    var s, n := Document(t), |XML_DECLARATION|;
    if Units(s) <= limits.maxBytes {
      if Fits(Levels(t), Elements(t), 1, 0, Capped(limits)) {
        DocumentMeans(t, limits);
      } else {
        DeclarationShape();
        DeclarationIsXml();
        PrintIsXml(t);
        JoinIsXml(XML_DECLARATION, Print(t));
        WholeStarts(XML_DECLARATION, Print(t));
        RootAgrees();
        ElementPast(s, n, t, [], 1, ROOT_SCOPE, 0, Capped(limits));
        PrintOpens(s, n, t);
        SkipsDeclaration(s);
      }
    }
  }

  // ---------- what is not one well-nested element ----------

  // A body with a character no document carries is refused for it, wherever it stands.
  lemma BadCharacterRefused(input: string, i: nat, limits: Limits)
    requires Units(input) <= limits.maxBytes && i < |input| && !IsXmlChar(input[i] as int)
    requires i == 0 ==> input[0] != '\U{FEFF}'
    ensures ParseXml(input, limits) == Refused(InvalidCharacter)
  {
    hide Units, IsXmlChar;
    var body := BodyOf(input);
    var k := if body == input then i else i - 1;
    assert body[k] == input[i];
  }

  // An end tag that names anything but its own element is refused, and so is a body that
  // ends before one.
  lemma WrongEndTag(s: string, at: nat, t: Tagged, other: string, depth: nat, scope: Scope, count: nat, limits: Limits)
    requires NameLike(other) && other != QNameOf(t) && Starts(s, at, "</" + (other + ">"))
    ensures at <= |s| && TakeContent(s, at, QNameOf(t), depth, scope, count, limits) == Refused(Malformed)
  {
    hide QNameOf, NameLike, QName;
    StartsBoth(s, at, "</", other + ">");
    StartsBoth(s, at + 2, other, ">");
    StartsAt(s, at + 2 + |other|, ">", 0);
    StartsInside(s, at + 2, other);
    NameAt(s, at + 2, other);
    EndTagStep(s, at, QNameOf(t), depth, scope, count, limits);
  }

  lemma NoEndTag(s: string, qname: string, depth: nat, scope: Scope, count: nat, limits: Limits)
    ensures TakeContent(s, |s|, qname, depth, scope, count, limits) == Refused(Malformed)
  {
  }

  // A document type is refused as one, in front of the element and inside.
  lemma DoctypeRefused(s: string, at: nat, qname: string, depth: nat, scope: Scope, count: nat, limits: Limits)
    requires Starts(s, at, "<!DOCTYPE")
    ensures at <= |s| && SkipMisc(s, at) == Refused(Doctype)
    ensures TakeContent(s, at, qname, depth, scope, count, limits) == Refused(Doctype)
  {
    UpperDoctype();
    hide Starts, Upper, Past, TakeElement, TextRun;
    StartsInside(s, at, "<!DOCTYPE");
    assert "<!DOCTYPE" == "<!" + "DOCTYPE";
    StartsBoth(s, at, "<!", "DOCTYPE");
    StartsAt(s, at, "<!DOCTYPE", 0);
    StartsAt(s, at, "<!DOCTYPE", 1);
    StartsAt(s, at, "<!DOCTYPE", 2);
    StartsOnly(s, at, "<!--", 2);
    StartsOnly(s, at, "<![CDATA[", 2);
    StartsOnly(s, at, "</", 1);
    StartsOnly(s, at, "<?", 1);
    NineIs(s, at);
    assert SkipSpace(s, at) == at;
  }

  lemma NineIs(s: string, at: nat)
    requires Starts(s, at, "<!DOCTYPE")
    ensures at + 9 <= |s| && s[at..at + 9] == "<!DOCTYPE"
  {
  }

  lemma UpperDoctype()
    ensures Upper("<!DOCTYPE") == "<!DOCTYPE"
  {
    hide Upper;
    UpperIsSame("<!DOCTYPE");
  }

  lemma {:induction false} UpperIsSame(s: string)
    requires forall i :: 0 <= i < |s| ==> !('a' <= s[i] <= 'z')
    ensures Upper(s) == s
  {
    if s != "" { UpperIsSame(s[1..]); }
  }

  // Behind the element nothing may stand that means anything: not a second element.
  lemma SecondRootRefused(t: Tagged, u: Tagged, limits: Limits)
    requires Good(t) && Good(u) && Levels(t) <= limits.maxDepth && Levels(t) <= 256 && Elements(t) <= limits.maxElements
    requires Units(Document(t) + Print(u)) <= limits.maxBytes
    ensures ParseXml(Document(t) + Print(u), limits) == Refused(Malformed)
  {
    hide Print, Units, Good, Elements, Levels, Seen, TakeElement, SkipMisc, Starts, IsXmlChar, Agrees, Fits;
    var s, n := Document(t) + Print(u), |XML_DECLARATION|;
    RootFits(t, limits);
    DeclarationShape();
    DeclarationIsXml();
    PrintIsXml(t);
    PrintIsXml(u);
    JoinIsXml(XML_DECLARATION, Print(t));
    JoinIsXml(Document(t), Print(u));
    assert s == XML_DECLARATION + (Print(t) + Print(u));
    WholeStarts(XML_DECLARATION, Print(t) + Print(u));
    StartsBoth(s, n, Print(t), Print(u));
    RootAgrees();
    PrefixedElementAt(s, n, t, [], 1, ROOT_SCOPE, 0, Capped(limits));
    PrintOpens(s, n, t);
    SkipsDeclaration(s);
    PrintOpens(s, n + |Print(t)|, u);
    NothingToSkip(s, n + |Print(t)|);
  }
}
