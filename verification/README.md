# WebSocket handler registry and locator

A Dafny model of the routing core of the TechDivision WebSocket server. Each
deployed web application owns a `HandlerManager`. The manager is a registry with:

- a handler table keyed by logical handler name;
- an ordered table from URL patterns to handler names;
- a table of application-wide init parameters.

`registerHandlers` fills these tables from the parsed `WEB-INF/handler.xml`
descriptor. Its steps are:

1. Context parameters are stored first.
2. Handler declarations are instantiated in order. A name already registered is skipped. A declaration without a class aborts.
3. Mapping declarations are stored under their pattern with the leading slashes trimmed and one `/` prepended. A mapping that names an unregistered handler aborts.

`HandlerLocator::locate` is meant to walk the pattern table in insertion
order. It would return the handler registered under the name of the first
pattern that `fnmatch` matches against the request's handler path, and raise
`HandlerNotFound` when no pattern matches. As written, its loop iterates
`getHandler()` instead, and the class does not load because its signature
differs from the interface's. The model uses the corrected loop; see
"## Findings".

Modules:

- `Wrappers`: `Option` and `Result`.
- `Glob`: `fnmatch` with flags 0 over `*`, `?` and literal characters. `Match` is the wildcard matcher and is checked against a declarative reading, `Denotes`. `Fnmatch` adds PHP's guards: a pattern or path of `MAXPATHLEN` (4096) characters or more, or one containing NUL, never matches.
- `MappingTable`: the pattern table, a `GenericStackable` modelled as a PHP ordered array. Assigning to a stored pattern replaces its name in place. Assigning to a new pattern appends it. This module also holds the leading-slash normalisation.
- `HandlerManager`: the registry, its accessors and `registerHandlers`. `registerHandlers` is split into its context-parameter, handler and mapping loops. Each loop is related to an independent characterisation, such as "fails exactly when" or "registers exactly".
- `HandlerLocator`: `locate` and the manager's forwarding `locate`.
- `Findings`: three defects of the code as written, each beside its corrected counterpart.
- `Scenarios`: two handlers with overlapping patterns registered in both orders, a descriptor without mappings, a missing descriptor, and a handler table swapped after registration.

PHP exceptions become values. A `Registration` pairs the registry with an
optional `ConfigError`. Nothing is rolled back when an exception is thrown, so
the registry in a failed `Registration` is the one at the throw. `locate`
returns a `Result`:

- its success value is the looked-up handler, or `None` when the chosen name is not registered (PHP returns null);
- its failure value is `HandlerNotFound(path)`.

Parsing of the XML descriptor and the filesystem probes are inputs to the
model:

- a `Descriptor` record holds the parsed context parameters, handler declarations and mapping declarations;
- a `present` flag stands for "the webapp folder and its descriptor both exist".

Instantiating a handler and calling its `init` are modelled as a `Handler`
value. It carries the class name and the configuration passed to `init`: the
handler name, the webapp path and the handler's own init parameters.

## Model

| member | source | states |
|---|---|---|
| Glob.MatchIsDenotes | src/TechDivision/WebSocketServer/HandlerLocator.php:59 | The matcher holds exactly when the pattern denotes the path: `*` stands for any substring (including `/`), `?` for exactly one character, anything else for itself. |
| Glob.StarMatchesAll | src/TechDivision/WebSocketServer/HandlerLocator.php:59 | A lone `*` matches every path, the empty one included. |
| Glob.QuestionMatchesOneChar | src/TechDivision/WebSocketServer/HandlerLocator.php:59 | A lone `?` matches exactly the one-character paths. |
| Glob.LiteralMatchesOnlyItself | src/TechDivision/WebSocketServer/HandlerLocator.php:59 | A pattern without wildcards matches a path iff the path equals it. |
| Glob.PrefixStarMatchesExtensions | src/TechDivision/WebSocketServer/HandlerLocator.php:59 | A literal followed by `*` matches exactly the paths that start with that literal. |
| Glob.LiteralFnmatchesOnlyItself | src/TechDivision/WebSocketServer/HandlerLocator.php:59 | `fnmatch` of a pattern without wildcards holds exactly for the path equal to it, and never when the pattern is 4096 characters or longer or holds NUL. |
| Glob.StarFnmatchesShortPaths | src/TechDivision/WebSocketServer/HandlerLocator.php:59 | `fnmatch('*', path)` holds exactly for the paths shorter than 4096 characters without NUL. |
| Glob.PrefixStarFnmatchesExtensions | src/TechDivision/WebSocketServer/HandlerLocator.php:59 | Within the length limit, `fnmatch` of a literal followed by `*` holds exactly for the paths that start with that literal. |
| MappingTable.Lookup | src/TechDivision/WebSocketServer/HandlerManager.php:179 | Reading the table by pattern yields nothing iff the pattern is not stored, and otherwise the name of the entry stored under it. |
| MappingTable.Put | src/TechDivision/WebSocketServer/HandlerManager.php:179 | PHP array assignment: a new pattern is appended at the end, a stored one keeps its position and gets the new name; the stored patterns grow by exactly the assigned one. |
| MappingTable.PutKeepsPatternsUnique | src/TechDivision/WebSocketServer/HandlerManager.php:179 | Assignment never stores a pattern twice. |
| MappingTable.PutThenLookupSame | src/TechDivision/WebSocketServer/HandlerManager.php:179 | After assigning a name to a pattern, reading that pattern yields that name. |
| MappingTable.PutThenLookupOther | src/TechDivision/WebSocketServer/HandlerManager.php:179 | Assigning to one pattern leaves the reading of every other pattern unchanged. |
| MappingTable.PutAll | src/TechDivision/WebSocketServer/HandlerManager.php:164-180 | A run of assignments stores exactly the old patterns plus the assigned ones. |
| MappingTable.PutAllKeepsPatternsUnique | src/TechDivision/WebSocketServer/HandlerManager.php:164-180 | A run of assignments never stores a pattern twice. |
| MappingTable.PutAllFreshAppends | src/TechDivision/WebSocketServer/HandlerManager.php:164-180 | Distinct new patterns are appended in declaration order, so the table keeps declaration order. |
| MappingTable.PutAllLastWins | src/TechDivision/WebSocketServer/HandlerManager.php:164-180 | For a pattern assigned several times the last assignment's name is read back; patterns not assigned read as before. |
| MappingTable.TrimLeadingSlashes | src/TechDivision/WebSocketServer/HandlerManager.php:171 | `ltrim($p, '/')`: the result is a suffix of the input without a leading `/`, and what it drops is all `/`. |
| MappingTable.Normalise | src/TechDivision/WebSocketServer/HandlerManager.php:171-179 | The stored key starts with exactly one `/`. |
| MappingTable.NormaliseFixesNormalised | src/TechDivision/WebSocketServer/HandlerManager.php:171-179 | A pattern that already starts with exactly one `/` is stored unchanged. |
| MappingTable.NormaliseIdempotent | src/TechDivision/WebSocketServer/HandlerManager.php:171-179 | Normalising twice is normalising once. |
| MappingTable.NormaliseIgnoresLeadingSlashes | src/TechDivision/WebSocketServer/HandlerManager.php:171-179 | Two declared patterns collide in the table iff they differ only in their leading slashes. |
| HandlerManager.New | src/TechDivision/WebSocketServer/HandlerManager.php:52-63 | The constructor leaves an empty webapp path, no locator and three empty tables. |
| HandlerManager.GetHandler | src/TechDivision/WebSocketServer/HandlerManager.php:237-242 | The handler registered under the key, or nothing iff the key is not registered. |
| HandlerManager.AddHandler | src/TechDivision/WebSocketServer/HandlerManager.php:214-217 | The key reads back the new handler, every other key reads as before, the names grow by exactly the key, and the other tables are untouched. |
| HandlerManager.SetHandlers | src/TechDivision/WebSocketServer/HandlerManager.php:191-194 | The handler table is replaced wholesale; lookups follow the new table; the pattern table, parameters, path and locator are untouched. |
| HandlerManager.GetHandlerMappings | src/TechDivision/WebSocketServer/HandlerManager.php:225-228 | On a well-formed registry the returned table stores no pattern twice, every pattern is normalised, and every name resolves to a registered handler. |
| HandlerManager.GetInitParameter | src/TechDivision/WebSocketServer/HandlerManager.php:264-269 | The value stored under the name, or nothing iff the name is not stored. |
| HandlerManager.AddInitParameter | src/TechDivision/WebSocketServer/HandlerManager.php:252-255 | The name reads back the value, every other name reads as before, and the other tables are untouched. |
| HandlerManager.InjectWebappPath | src/TechDivision/WebSocketServer/HandlerManager.php:72-75 | The path reads back, everything else is untouched. |
| HandlerManager.InjectHandlerLocator | src/TechDivision/WebSocketServer/HandlerManager.php:84-87 | A locator is present afterwards; the path and tables are untouched. |
| HandlerManager.AssignParams | src/TechDivision/WebSocketServer/HandlerManager.php:123-125 | A run of `addInitParameter` calls stores exactly the old names plus the assigned ones, keeps unassigned names, and for a repeated name keeps the last value. |
| HandlerManager.MissingClass | src/TechDivision/WebSocketServer/HandlerManager.php:137-139 | The corrected guard fires exactly for a declaration whose class element is empty. |
| HandlerManager.InstantiateConfigures | src/TechDivision/WebSocketServer/HandlerManager.php:143-160 | The handler built for a declaration keeps its class and is configured with the declaration's name, the webapp path and exactly the declared init parameter names, each holding its last value. |
| HandlerManager.RegisterHandlerDecls | src/TechDivision/WebSocketServer/HandlerManager.php:128-161 | The handler loop keeps every registered handler and touches no other table; an error names the first processed declaration (first of its name, not registered before) that has no class. |
| HandlerManager.ClassesPresentCons | src/TechDivision/WebSocketServer/HandlerManager.php:128-140 | The processed declarations all have a class iff the head is skipped or has a class, and the same holds for the rest once the head's name is known. |
| HandlerManager.HandlerDeclsSucceedIff | src/TechDivision/WebSocketServer/HandlerManager.php:128-140 | The handler loop fails iff some processed declaration (first of its name, not registered before) has no class. |
| HandlerManager.HandlerDeclsRegisterAll | src/TechDivision/WebSocketServer/HandlerManager.php:128-161 | A successful handler loop registers exactly the old names plus the declared ones. |
| HandlerManager.HandlerDeclsFailAt | src/TechDivision/WebSocketServer/HandlerManager.php:128-161 | When some processed declaration has no class, the loop raises `InvalidHandlerClass` for the first such one, and the handler table at the throw holds the old names plus exactly the names declared before it: nothing is rolled back. |
| HandlerManager.HandlerDeclsRegisterOnlyDeclared | src/TechDivision/WebSocketServer/HandlerManager.php:128-161 | Whether the handler loop succeeds or throws, it registers no name beyond the old ones and the declared ones. |
| HandlerManager.HandlerDeclsRegisterFirst | src/TechDivision/WebSocketServer/HandlerManager.php:128-161 | After a successful handler loop, each newly registered name holds the handler built from its first declaration, with the registry's webapp path and that declaration's init parameters. |
| HandlerManager.RegisterMappingDecls | src/TechDivision/WebSocketServer/HandlerManager.php:164-180 | The mapping loop touches only the pattern table; it succeeds iff every mapping names a registered handler; a failure names the first mapping that does not, with its pattern left-trimmed; a success stores every mapping under its normalised pattern in order. |
| HandlerManager.MappingDeclsFailAt | src/TechDivision/WebSocketServer/HandlerManager.php:164-180 | When a mapping names an unregistered handler, the loop raises for the first such mapping, and the pattern table at the throw holds every earlier mapping, stored in order: nothing is rolled back. |
| HandlerManager.PutKeepsWellFormed | src/TechDivision/WebSocketServer/HandlerManager.php:174-179 | Storing a normalised pattern for a registered handler keeps the registry well formed. |
| HandlerManager.MappingDeclsKeepWellFormed | src/TechDivision/WebSocketServer/HandlerManager.php:164-180 | The mapping loop, successful or not, keeps the registry well formed: unique normalised patterns, each naming a registered handler. |
| HandlerManager.MappingDeclsLastWins | src/TechDivision/WebSocketServer/HandlerManager.php:179 | When two mappings normalise to the same pattern, the last one's handler name is stored; undeclared patterns keep their names. |
| HandlerManager.MappingDeclsAppendInOrder | src/TechDivision/WebSocketServer/HandlerManager.php:164-180 | Mappings over distinct new patterns are appended in declaration order, which fixes the order `locate` tries them. |
| HandlerManager.RegisterHandlers | src/TechDivision/WebSocketServer/HandlerManager.php:108-182 | Without a descriptor nothing changes and nothing is raised; otherwise the path and locator are kept, no handler is removed or replaced, and each context parameter reads back its last value. |
| HandlerManager.RegisterHandlersOnSuccess | src/TechDivision/WebSocketServer/HandlerManager.php:108-182 | After a successful registration the handler table holds the old names plus every declared name, each new one bound to the handler built from its first declaration; the pattern table holds every mapping assigned in declaration order; the context parameters are assigned over the old ones. |
| HandlerManager.RegisterHandlersSucceedIff | src/TechDivision/WebSocketServer/HandlerManager.php:128-180 | Registration succeeds iff every processed handler declaration has a class and every mapping names a handler registered before or declared in the descriptor. |
| HandlerManager.MappingErrorKeepsHandlers | src/TechDivision/WebSocketServer/HandlerManager.php:160-176 | A mapping error is raised only after the handler loop finished, so every declared handler stays registered. |
| HandlerManager.RegisterHandlersKeepsWellFormed | src/TechDivision/WebSocketServer/HandlerManager.php:108-182 | Registration, successful or not, keeps the registry well formed. |
| HandlerLocator.FirstMatch | src/TechDivision/WebSocketServer/HandlerLocator.php:58-62 | The walk stops at the first entry whose pattern `fnmatch` matches (within PHP's length and NUL limits), and finds none iff no entry matches. |
| HandlerLocator.FirstMatchAtUnique | src/TechDivision/WebSocketServer/HandlerLocator.php:58-62 | There is at most one first matching entry. |
| HandlerLocator.Dispatch | src/TechDivision/WebSocketServer/HandlerLocator.php:58-67 | The loop body of `locate` over a given table: not found iff no pattern `fnmatch`es the path, with the path in the error; otherwise the handler under the first matching entry's name. |
| HandlerLocator.Locate | src/TechDivision/WebSocketServer/HandlerLocator.php:51-68 | `locate` over the registry's pattern table: not found iff no pattern `fnmatch`es the handler path; otherwise the lookup of the first matching entry's handler name. |
| HandlerLocator.ManagerLocate | src/TechDivision/WebSocketServer/HandlerManager.php:299-302 | The manager forwards to its locator, taken to be `HandlerLocator`; without one the call fails with `NoLocator`, which stands for PHP's fatal call on null. |
| HandlerLocator.ChosenEntryPrecedesEveryMatch | src/TechDivision/WebSocketServer/HandlerLocator.php:58-61 | First match wins: the served entry comes at or before every matching entry. |
| HandlerLocator.EmptyTableFindsNothing | src/TechDivision/WebSocketServer/HandlerLocator.php:58-67 | With no mappings every path is not found. |
| HandlerLocator.DanglingNameYieldsNothing | src/TechDivision/WebSocketServer/HandlerLocator.php:60 | A first match whose name is not registered returns nothing instead of raising. |
| HandlerLocator.WellFormedMatchYieldsHandler | src/TechDivision/WebSocketServer/HandlerLocator.php:58-61 | On a well-formed registry a found path always yields the registered handler of the first matching entry. |
| Findings.IteratedAsWritten | src/TechDivision/WebSocketServer/HandlerLocator.php:58 | What the `foreach` iterates as written: `getHandler()` without an argument finds no handler, so the loop has nothing to walk. |
| Findings.LocateAsWritten | src/TechDivision/WebSocketServer/HandlerLocator.php:58 | If the class loaded, the loop as written would iterate `getHandler()` and so reject every path. |
| Findings.ChatRegistry | src/TechDivision/WebSocketServer/HandlerLocator.php:58-61 | A well-formed registry with one mapped handler, the input for the first finding. |
| Findings.AsWrittenLocatorRejectsMappedPath | src/TechDivision/WebSocketServer/HandlerLocator.php:58-61 | A path that matches a stored pattern is served by the corrected locator and rejected by the locator as written. |
| Findings.MissingClassAsWritten | src/TechDivision/WebSocketServer/HandlerManager.php:138 | The guard as written, `!count($className)`, never fires, whatever the class name. |
| Findings.EmptyClassPassesAsWrittenGuard | src/TechDivision/WebSocketServer/HandlerManager.php:137-139 | The guard as written, `!count($className)`, lets an empty class name through. |
| Findings.EmptyClassRejected | src/TechDivision/WebSocketServer/HandlerManager.php:128-140 | The corrected handler loop rejects a declaration with an empty class and registers nothing. |
| Findings.AddInitParameterAsWritten | src/TechDivision/WebSocketServer/HandlerManager.php:252-255 | As written, adding a parameter writes the `initParameter` table and leaves `initParameters` alone. |
| Findings.GetInitParameterAsWritten | src/TechDivision/WebSocketServer/HandlerManager.php:264-269 | As written, reading finds a value only in the `initParameter` table. |
| Findings.ConstructorTableStaysEmpty | src/TechDivision/WebSocketServer/HandlerManager.php:62 | The table the constructor creates stays empty after a parameter is added, while the parameter reads back. |
| Findings.AsWrittenReadsAgree | src/TechDivision/WebSocketServer/HandlerManager.php:252-269 | After the same run of writes the accessors as written read what the corrected single table reads, so under plain PHP property semantics the split is invisible through them. |
| Scenarios.Deployed | src/TechDivision/WebSocketServer/HandlerManager.php:52-87 | The registry after construction and both injections is well formed, has a locator and the given path. |
| Scenarios.BothDeclsRegistered | src/TechDivision/WebSocketServer/HandlerManager.php:128-161 | Two declarations with classes and distinct names both get registered. |
| Scenarios.TwoMappingsStored | src/TechDivision/WebSocketServer/HandlerManager.php:164-180 | Two mappings over distinct patterns into an empty table are stored in declaration order. |
| Scenarios.RegisterBothInOrder | src/TechDivision/WebSocketServer/HandlerManager.php:108-182 | Registering a chat and an admin handler with overlapping patterns succeeds in either order and stores the patterns in declaration order. |
| Scenarios.BroadPatternMatchesAdminPath | src/TechDivision/WebSocketServer/HandlerLocator.php:59 | The chat pattern matches `/chat/admin/login`. |
| Scenarios.AdminPatternMatchesAdminPath | src/TechDivision/WebSocketServer/HandlerLocator.php:59 | The admin pattern matches `/chat/admin/login`. |
| Scenarios.GeneralPathMatchesChatOnly | src/TechDivision/WebSocketServer/HandlerLocator.php:59 | `/chat/general` matches the chat pattern and not the admin pattern. |
| Scenarios.OtherPathMatchesNeither | src/TechDivision/WebSocketServer/HandlerLocator.php:59 | `/other` matches neither pattern. |
| Scenarios.BroadPatternFirstShadowsSpecific | src/TechDivision/WebSocketServer/HandlerLocator.php:58-61 | With `/chat/*` declared before `/chat/admin/*`, `/chat/admin/login` goes to the chat handler: order, not specificity, decides. |
| Scenarios.SpecificPatternFirstServesAdmin | src/TechDivision/WebSocketServer/HandlerLocator.php:58-61 | With the admin pattern declared first, `/chat/admin/login` goes to the admin handler. |
| Scenarios.SpecificPatternFirstServesChat | src/TechDivision/WebSocketServer/HandlerLocator.php:58-61 | With the admin pattern declared first, `/chat/general` still goes to the chat handler. |
| Scenarios.UnmappedPathNotFoundChatFirst | src/TechDivision/WebSocketServer/HandlerLocator.php:58-67 | With the chat pattern declared first, a path outside both patterns is not found. |
| Scenarios.UnmappedPathNotFoundAdminFirst | src/TechDivision/WebSocketServer/HandlerLocator.php:58-67 | With the admin pattern declared first, a path outside both patterns is not found. |
| Scenarios.HandlerWithoutMappingServesNothing | src/TechDivision/WebSocketServer/HandlerManager.php:128-180 | A handler declared without mappings is registered but serves no path. |
| Scenarios.MissingDescriptorRegistersNothing | src/TechDivision/WebSocketServer/HandlerManager.php:112-117 | Without the folder or descriptor the registry stays empty, nothing is raised, and every path is not found. |
| Scenarios.SwappedHandlersLeaveDanglingMapping | src/TechDivision/WebSocketServer/HandlerManager.php:191-194 | After swapping in an empty handler table the mapping remains, and a matching path returns nothing. |

## Left out

- XML parsing and the filesystem probes (`is_dir`, `file_exists`, `file_get_contents`, SimpleXML): the parsed records are inputs, and the existence checks are one `present` flag.
- Dynamic instantiation (`new $className()`) and the handler's `init`: these are foreign calls into application code, modelled as the `Handler` value they build. An unknown class name, which PHP reports as a fatal error, is not modelled.
- An exception raised by the handler's own `init` (HandlerManager.php:157) is not modelled: `init` is application code, so the model's handler loop fails only on a missing class.
- `HandlerConfiguration` is not part of this model. Its back-reference to the registry (`injectHandlerContext`) is dropped to keep the values acyclic.
- `initialize`: it only calls `registerHandlers` and returns the registry, so `RegisterHandlers` stands for it.
- `getHandlers`, `getWebappPath`, `getHandlerLocator`: plain field reads. The first two are modelled without a row. The injected locator is a flag; see the `HandlerLocator.ManagerLocate` line.
- `getIdentifier`, which returns a constant, and `getAttribute`, which always throws "not implemented".
- Glob.Match: bracket expressions (`[...]`) and backslash quoting are not modelled; `[`, `]` and `\` are read as literal characters.
- Glob.Match: PHP strings are bytes, while the model's strings are sequences of characters, so lengths and `?` count characters rather than bytes; for a path with multi-byte UTF-8 characters the two can differ.
- Glob.Match: what `?` and `*` accept does not depend on the locale (`LC_CTYPE`) in the model; the C library's `fnmatch` may treat multi-byte sequences according to it.
- `HandlerManagerFactory`, `AsyncServer`, `AsyncSocket` and `ResourceLocatorInterface` are not part of this model. They cover wiring, sockets and event loops.
- Concurrency: the registry's stackable storage shared between threads is modelled as immutable values.
- MappingTable.Put: the pattern table is a `GenericStackable` (HandlerManager.php:61), a class that is not part of this model. The model assumes it behaves as a PHP ordered array: a new key is appended, an existing key is replaced in place, and `foreach` visits keys in insertion order. First match in declaration order rests on these three assumptions.
- Findings.AddInitParameterAsWritten: models plain PHP property semantics, where `$this->initParameter[$name] = $value` creates an array property on first use. `HandlerManager` extends `GenericStackable` (HandlerManager.php:44), a class shared between threads that is not part of this model. On such objects an indirect write to an undeclared member may be dropped, and then `getInitParameter` would always return null, so the defect would be visible rather than latent.
- HandlerManager.RegisterHandlerDecls: the `InvalidHandlerClass` error carries the handler name. The source formats the (empty) class element into its message.
- Findings.IteratedAsWritten, Findings.LocateAsWritten: require that no handler is registered under the empty name, which the source accepts from a declaration with an empty `handler-name`. With such a handler, `getHandler()` returns that handler object and `foreach` walks its public properties, which the model does not represent.
- HandlerManager.RegisterHandlers: nothing is rolled back when an exception is thrown; a failed `Registration` carries the tables as they stood at the throw (HandlerManager.HandlerDeclsFailAt, HandlerManager.MappingDeclsFailAt).
- HandlerLocator.ManagerLocate: `injectHandlerLocator` (HandlerManager.php:84) accepts any `ResourceLocatorInterface`, and `locate` (HandlerManager.php:301) calls whichever was injected. The model assumes the injected locator is `HandlerLocator`, the only one HandlerManagerFactory.php:68,76 creates and injects. `HandlerLocator` holds no state, so its presence is a flag. Without an injected locator, :301 calls `locate()` on null, which is a PHP fatal error; the model's `NoLocator` failure stands for that fatal error, not for a catchable exception.
- HandlerLocator.Locate: `HandlerLocator::locate` declares its first parameter as `HandlerManager` (HandlerLocator.php:51), while `ResourceLocatorInterface::locate` declares it as `HandlerContext` (ResourceLocatorInterface.php:50). PHP 5 requires the signatures to match, so loading the class as written is a fatal error. The model takes the registry as the parameter and describes what `locate` would do if the class loaded.

## Findings

| source | as written | input that shows it | evidently intended | confidence | as-written member | corrected member |
|---|---|---|---|---|---|---|
| src/TechDivision/WebSocketServer/HandlerLocator.php:58 | `foreach ($handlerManager->getHandler() as $urlPattern => $handlerName)` iterates the lookup of the null key, which is null. If the class loaded, the loop would never run and every request would raise `HandlerNotFound`; as written, the signature mismatch with ResourceLocatorInterface.php:50 stops the class from loading at all | registry with handler `chat` mapped under `/chat/*`, request path `/chat/room` | iterate `getHandlerMappings()`, the pattern table | not executed | Findings.LocateAsWritten (shown by Findings.AsWrittenLocatorRejectsMappedPath) | HandlerLocator.Locate |
| src/TechDivision/WebSocketServer/HandlerManager.php:138 | `if (!count($className))` where `count` of a string is always 1, so the guard never fires | handler declaration `chat` with an empty `handler-class` | reject an empty class name with `InvalidHandlerClassException` | not executed | Findings.MissingClassAsWritten (shown by Findings.EmptyClassPassesAsWrittenGuard) | HandlerManager.HandlerDeclsSucceedIff (with Findings.EmptyClassRejected) |
| src/TechDivision/WebSocketServer/HandlerManager.php:62 | the constructor initialises `initParameters`, but `addInitParameter` and `getInitParameter` use `initParameter` (lines 254, 266) | `addInitParameter("a", "1")` on a fresh registry | one parameter table, created by the constructor | not executed | Findings.AddInitParameterAsWritten (shown by Findings.ConstructorTableStaysEmpty) | HandlerManager.AddInitParameter |
