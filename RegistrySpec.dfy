/** Value-level specification of the action parser registry: the state is a
    pair of the protected built-in type tags and the map from type tag to
    parser, and each registry operation is a function on that pair. The class
    in ActionParserRegistration.dfy is proved against these functions. */
module RegistrySpec {

  /** An action type tag, as it appears in the "type" field of a card. */
  type Tag = string

  /** The three built-in action type tags. Only their distinctness matters. */
  const OpenUrl: Tag := "Action.OpenUrl"
  const ShowCard: Tag := "Action.ShowCard"
  const Submit: Tag := "Action.Submit"

  const BuiltInTags: set<Tag> := {OpenUrl, ShowCard, Submit}

  /** Parser identity: the three built-in parsers and any number of
      parsers supplied by a host application. */
  datatype ParserId =
    | OpenUrlActionParser
    | ShowCardActionParser
    | SubmitActionParser
    | CustomParser(id: nat)

  /** A shared pointer to a parser; Null is the empty pointer. */
  datatype ParserPtr = Null | Ptr(parser: ParserId)

  datatype ErrorStatusCode = UnsupportedParserOverride

  datatype Result<T> = Ok(value: T) | Err(error: ErrorStatusCode)

  datatype Option<T> = None | Some(value: T)

  /** The two fields of a registry: the protected tags and the parser map. */
  datatype Registry = Registry(known: set<Tag>, parsers: map<Tag, ParserPtr>)

  /** The registry a freshly constructed ActionParserRegistration holds. */
  function Initial(): (r: Registry)
    ensures r.known == {OpenUrl, ShowCard, Submit} && |r.known| == 3
    ensures forall t :: t in r.known ==> Get(r, t) != Null
    ensures Get(r, OpenUrl) == Ptr(OpenUrlActionParser)
    ensures Get(r, ShowCard) == Ptr(ShowCardActionParser)
    ensures Get(r, Submit) == Ptr(SubmitActionParser)
    ensures forall t :: t !in r.known ==> Get(r, t) == Null
  {
    Registry(
      BuiltInTags,
      map[OpenUrl := Ptr(OpenUrlActionParser),
          ShowCard := Ptr(ShowCardActionParser),
          Submit := Ptr(SubmitActionParser)])
  }

  /** Lookup: the mapped parser, or the empty pointer when the tag has none. */
  function Get(r: Registry, tag: Tag): ParserPtr
  {
    if tag in r.parsers then r.parsers[tag] else Null
  }

  /** AddParser: refused for a protected tag, otherwise inserts or overwrites. */
  function Add(r: Registry, tag: Tag, parser: ParserPtr): (res: Result<Registry>)
    ensures res.Err? <==> tag in r.known
    ensures res.Err? ==> res.error == UnsupportedParserOverride
    ensures res.Ok? ==> res.value.known == r.known
    ensures res.Ok? ==> res.value.parsers.Keys == r.parsers.Keys + {tag}
    ensures res.Ok? ==> Get(res.value, tag) == parser
    ensures res.Ok? ==> forall t :: t != tag ==> Get(res.value, t) == Get(r, t)
  {
    if tag !in r.known then
      Ok(Registry(r.known, r.parsers[tag := parser]))
    else
      Err(UnsupportedParserOverride)
  }

  /** RemoveParser: erases the entry only when the tag is a protected one;
      for any other tag the registry is unchanged. */
  function Remove(r: Registry, tag: Tag): (res: Registry)
    ensures res.known == r.known
    ensures tag in r.known ==> res.parsers.Keys == r.parsers.Keys - {tag}
    ensures tag in r.known ==> Get(res, tag) == Null
    ensures tag !in r.known ==> res == r
    ensures forall t :: t != tag ==> Get(res, t) == Get(r, t)
  {
    if tag in r.known then
      Registry(r.known, r.parsers - {tag})
    else
      r
  }

  /** A mutating call a host application can make on the registry. */
  datatype Call = AddParser(tag: Tag, parser: ParserPtr) | RemoveParser(tag: Tag)

  /** One call; a refused AddParser (the caller catches the exception)
      leaves the registry as it was. */
  function Step(r: Registry, c: Call): Registry
  {
    match c
    case AddParser(tag, parser) =>
      (match Add(r, tag, parser) case Ok(r') => r' case Err(_) => r)
    case RemoveParser(tag) => Remove(r, tag)
  }

  /** A sequence of calls, applied first to last. */
  function Run(r: Registry, calls: seq<Call>): Registry
    decreases |calls|
  {
    if calls == [] then r else Run(Step(r, calls[0]), calls[1..])
  }

  /** The parser of the last AddParser call for tag, found from the back. */
  function LastAdded(calls: seq<Call>, tag: Tag): Option<ParserPtr>
    decreases |calls|
  {
    if calls == [] then None
    else
      var c := calls[|calls| - 1];
      if c.AddParser? && c.tag == tag then Some(c.parser)
      else LastAdded(calls[..|calls| - 1], tag)
  }

  /** Running a sequence followed by one more call. */
  lemma {:induction false} RunSnoc(r: Registry, calls: seq<Call>, c: Call)
    ensures Run(r, calls + [c]) == Step(Run(r, calls), c)
    decreases |calls|
  {
    if calls == [] {
      assert [c][1..] == [];
    } else {
      assert (calls + [c])[1..] == calls[1..] + [c];
      RunSnoc(Step(r, calls[0]), calls[1..], c);
    }
  }

  /** The protected tag set is the same after any sequence of calls. */
  lemma {:induction false} RunKeepsKnown(r: Registry, calls: seq<Call>)
    ensures Run(r, calls).known == r.known
    decreases |calls|
  {
    if calls != [] {
      RunKeepsKnown(Step(r, calls[0]), calls[1..]);
    }
  }

  /** For a tag outside the protected set, the last AddParser wins and no
      RemoveParser call ever takes the entry away. */
  lemma {:induction false} RunCustomTag(r: Registry, calls: seq<Call>, tag: Tag)
    requires tag !in r.known
    ensures Get(Run(r, calls), tag) ==
            match LastAdded(calls, tag)
            case Some(p) => p
            case None => Get(r, tag)
    decreases |calls|
  {
    if calls != [] {
      var n := |calls| - 1;
      var init, c := calls[..n], calls[n];
      assert calls == init + [c];
      RunSnoc(r, init, c);
      RunKeepsKnown(r, init);
      RunCustomTag(r, init, tag);
    }
  }

  /** For a protected tag, AddParser never takes effect, and the entry is
      gone exactly when some call removed it. */
  lemma {:induction false} RunBuiltInTag(r: Registry, calls: seq<Call>, tag: Tag)
    requires tag in r.known
    ensures Get(Run(r, calls), tag) ==
            if RemoveParser(tag) in calls then Null else Get(r, tag)
    decreases |calls|
  {
    if calls != [] {
      var r' := Step(r, calls[0]);
      assert r'.known == r.known;
      RunBuiltInTag(r', calls[1..], tag);
      assert calls == [calls[0]] + calls[1..];
    }
  }

  /** Last write wins: a second AddParser for the same custom tag replaces
      the first as if the first had never happened. */
  lemma AddOverwrites(r: Registry, tag: Tag, p1: ParserPtr, p2: ParserPtr)
    requires tag !in r.known
    ensures Add(r, tag, p1).Ok?
    ensures Add(Add(r, tag, p1).value, tag, p2) == Add(r, tag, p2)
  {
    assert r.parsers[tag := p1][tag := p2] == r.parsers[tag := p2];
  }

  /** Removing twice is the same as removing once. */
  lemma RemoveIdempotent(r: Registry, tag: Tag)
    ensures Remove(Remove(r, tag), tag) == Remove(r, tag)
  {
  }

  /** On a fresh registry, removing a built-in tag leaves no parser for it. */
  lemma RemoveBuiltInFromInitial()
    ensures Get(Remove(Initial(), OpenUrl), OpenUrl) == Null
    ensures Get(Remove(Initial(), OpenUrl), ShowCard) == Ptr(ShowCardActionParser)
  {
  }
}
