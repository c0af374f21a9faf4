/** The action parser registry as the object the source keeps: a protected
    set of built-in type tags and a mutable map from type tag to parser. */
module ObjectModel {
  import opened RegistrySpec

  /** Outcome of AddParser: the call returns normally, or throws. */
  datatype Outcome = Pass | Fail(error: ErrorStatusCode)

  class ActionParserRegistration {
    var knownElements: set<Tag>
    var cardElementParsers: map<Tag, ParserPtr>

    /** The protected tags are the built-in ones, for the object's lifetime. */
    ghost predicate Valid()
      reads this
    {
      knownElements == BuiltInTags
    }

    /** The two fields as a specification value. */
    function Model(): Registry
      reads this
    {
      Registry(knownElements, cardElementParsers)
    }

    /** Registers the three built-in tags and their parsers. */
    constructor()
      ensures Valid()
      ensures Model() == Initial()
    {
      knownElements := {};
      cardElementParsers := map[];
      knownElements := knownElements + {OpenUrl, ShowCard, Submit};
      cardElementParsers := cardElementParsers + map[
        OpenUrl := Ptr(OpenUrlActionParser),
        ShowCard := Ptr(ShowCardActionParser),
        Submit := Ptr(SubmitActionParser)];
    }

    /** Inserts or overwrites the parser for a non-built-in tag; for a
        built-in tag it fails and changes nothing. */
    method AddParser(elementType: Tag, parser: ParserPtr) returns (outcome: Outcome)
      requires Valid()
      modifies this
      ensures Valid()
      ensures outcome == Fail(UnsupportedParserOverride) <==> elementType in BuiltInTags
      ensures outcome.Pass? ==> Add(old(Model()), elementType, parser) == Ok(Model())
      ensures outcome.Fail? ==> Model() == old(Model())
    {
      if elementType !in knownElements {
        cardElementParsers := cardElementParsers[elementType := parser];
        outcome := Pass;
      } else {
        outcome := Fail(UnsupportedParserOverride);
      }
    }

    /** Erases the entry for a built-in tag; any other tag is left alone. */
    method RemoveParser(elementType: Tag)
      requires Valid()
      modifies this
      ensures Valid()
      ensures Model() == Remove(old(Model()), elementType)
    {
      if elementType in knownElements {
        cardElementParsers := cardElementParsers - {elementType};
      }
    }

    /** Looks a tag up; never fails, and answers Null when there is no entry. */
    method GetParser(elementType: Tag) returns (parser: ParserPtr)
      ensures parser == Get(Model(), elementType)
    {
      if elementType in cardElementParsers {
        parser := cardElementParsers[elementType];
      } else {
        parser := Null;
      }
    }
  }

  /** A host application's use of the registry, relying only on the
      contracts above. */
  method RegisterCustomAction(custom: Tag, p: ParserId)
    requires custom !in BuiltInTags
  {
    var registry := new ActionParserRegistration();
    var got := registry.GetParser(Submit);
    assert got == Ptr(SubmitActionParser);

    var ok := registry.AddParser(custom, Ptr(p));
    assert ok == Pass;
    got := registry.GetParser(custom);
    assert got == Ptr(p);

    var refused := registry.AddParser(OpenUrl, Ptr(p));
    assert refused == Fail(UnsupportedParserOverride);
    got := registry.GetParser(OpenUrl);
    assert got == Ptr(OpenUrlActionParser);

    registry.RemoveParser(custom);
    got := registry.GetParser(custom);
    assert got == Ptr(p);

    registry.RemoveParser(OpenUrl);
    got := registry.GetParser(OpenUrl);
    assert got == Null;
  }
}
