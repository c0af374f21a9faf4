# Action parser registry (AdaptiveCards shared object model)

This project models `ActionParserRegistration`, the registry through which
an Adaptive Cards parse resolves an action's `"type"` tag to the parser
that builds it. The registry holds two fields:

- `m_knownElements`: the protected built-in tags (`OpenUrl`, `ShowCard`,
  `Submit`), written only by the constructor;
- `m_cardElementParsers`: a mutable map from tag to a shared parser pointer.

Host applications register parsers for custom action types with
`AddParser`, which throws `UnsupportedParserOverride` for a built-in tag.
`RemoveParser` erases an entry only when the tag IS built-in; for a custom
tag it does nothing. This asymmetry is how the code behaves, and the model
keeps it. `GetParser` returns the mapped pointer or an empty one, and
never fails.

Layout:

- `RegistrySpec.dfy`: the registry as a value (`Registry`), with the
  operations `Initial`, `Add`, `Remove` and `Get` as functions. It also
  has `Run`, which applies a sequence of calls, and lemmas about what any
  such sequence does to protected and custom tags.
- `ActionParserRegistration.dfy`: the class with the two fields. Its
  constructor and methods are proved against the functions in
  `RegistrySpec`, and `Valid()` is the class invariant that the protected
  set stays equal to the three built-in tags. `RegisterCustomAction` is a
  client that uses only these contracts.

Parsers are opaque identities (`ParserId`). A shared pointer is
`ParserPtr = Null | Ptr(id)`. The map may hold a `Null` entry, because
`AddParser` accepts an empty pointer, and `GetParser` cannot tell that
entry from a missing one. The thrown exception becomes the `Fail` outcome
of `AddParser`. In a sequence of calls (`Step`), a refused `AddParser`
leaves the registry unchanged, as it does for a caller that catches the
exception.

`RemoveParser` erases the entry of a built-in tag
(ActionParserRegistration.cpp:37-40): `RemoveBuiltInFromInitial` shows that
`OpenUrl` then has no parser. Such a tag can never be registered again,
because `m_knownElements` still holds it and `AddParser` throws for it
(ActionParserRegistration.cpp:25-31); `RunBuiltInTag` shows that after any
sequence of calls the entry stays gone once it has been removed.

## Model

| member | source | states |
|---|---|---|
| `RegistrySpec.Initial` | source/shared/cpp/ObjectModel/ActionParserRegistration.cpp:8-20 | the protected set is exactly the three distinct built-in tags; each built-in tag maps to its own built-in parser, and no other tag has one |
| `RegistrySpec.Add` | source/shared/cpp/ObjectModel/ActionParserRegistration.cpp:23-33 | fails with `UnsupportedParserOverride` exactly when the tag is protected; on success the protected set is unchanged, the tag maps to the given parser, the key set grows by that tag only, and every other tag's lookup is unchanged |
| `RegistrySpec.Remove` | source/shared/cpp/ObjectModel/ActionParserRegistration.cpp:35-41 | for a protected tag the entry is erased and the lookup yields Null; for any other tag the registry is unchanged; no other tag's lookup changes, and the protected set never does |
| `RegistrySpec.RunSnoc` | source/shared/cpp/ObjectModel/ActionParserRegistration.cpp:23-41 | running a sequence of calls and then one more call is the same as applying that call to the result |
| `RegistrySpec.RunKeepsKnown` | source/shared/cpp/ObjectModel/ActionParserRegistration.cpp:10-14 | no sequence of `AddParser`/`RemoveParser` calls changes the protected tag set |
| `RegistrySpec.RunCustomTag` | source/shared/cpp/ObjectModel/ActionParserRegistration.cpp:25-27 | for a non-protected tag, after any sequence of calls the lookup returns the parser of the last `AddParser` for that tag, or the original entry if there was none; `RemoveParser` never takes it away |
| `RegistrySpec.RunBuiltInTag` | source/shared/cpp/ObjectModel/ActionParserRegistration.cpp:29-40 | for a protected tag, after any sequence of calls the lookup is Null if some call removed it, and the original parser otherwise; `AddParser` never takes effect on it |
| `RegistrySpec.AddOverwrites` | source/shared/cpp/ObjectModel/ActionParserRegistration.cpp:27 | last write wins: two `AddParser` calls on the same custom tag leave the same registry as the second one alone |
| `RegistrySpec.RemoveIdempotent` | source/shared/cpp/ObjectModel/ActionParserRegistration.cpp:35-41 | removing a tag twice is the same as removing it once |
| `RegistrySpec.RemoveBuiltInFromInitial` | source/shared/cpp/ObjectModel/ActionParserRegistration.cpp:37-40 | on a fresh registry, removing `OpenUrl` leaves no parser for it, and `ShowCard` keeps its built-in parser |
| `ObjectModel.ActionParserRegistration.constructor` | source/shared/cpp/ObjectModel/ActionParserRegistration.cpp:8-21 | the new object's fields are the initial registry, and the class invariant holds |
| `ObjectModel.ActionParserRegistration.AddParser` | source/shared/cpp/ObjectModel/ActionParserRegistration.cpp:23-33 | the call fails exactly for a built-in tag and then changes nothing; otherwise the new fields are `Add` of the old ones; the invariant is kept |
| `ObjectModel.ActionParserRegistration.RemoveParser` | source/shared/cpp/ObjectModel/ActionParserRegistration.cpp:35-41 | the new fields are `Remove` of the old ones; the invariant is kept |
| `ObjectModel.ActionParserRegistration.GetParser` | source/shared/cpp/ObjectModel/ActionParserRegistration.cpp:43-54 | has no precondition and changes nothing; returns the lookup `Get` of the current registry: the mapped parser when the tag has an entry, and Null otherwise |

## Left out

- `ImageSet.h` and `UnknownElement.h` only declare `ImageSet`,
  `ImageSetParser`, `UnknownElement` and `UnknownElementParser`; the bodies
  of their parsing, serialisation and resource-URI members are not in these
  files, so modelling them would mean inventing behaviour.
- The concrete `OpenUrlActionParser`, `ShowCardActionParser` and
  `SubmitActionParser` are opaque identities. `ActionTypeToString` is not
  part of this model. The tags are three distinct constant strings
  (`"Action.OpenUrl"`, `"Action.ShowCard"`, `"Action.Submit"`), and only
  their distinctness is used.
- JSON values (JsonCpp) and string-to-JSON parsing belong to a foreign
  library.
- `shared_ptr` reference counting and ownership are not modelled. Only
  parser identity is.
- The exception object and its message text are not modelled. Only the
  error code `UnsupportedParserOverride` is kept.
- Thread safety is not modelled. The registry has no locking, and the
  model is sequential.
