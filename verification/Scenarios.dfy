/**
 Concrete registrations and dispatches: two handlers whose patterns overlap,
 declared in either order, a descriptor without mappings, and a webapp
 without a descriptor. They show that declaration order, not specificity,
 decides which handler serves a path.
 */
module Scenarios {
  import opened Wrappers
  import opened Glob
  import opened MappingTable
  import opened HandlerManager
  import opened HandlerLocator

  const ChatWebapp: string := "/opt/appserver/webapps/chat"
  const ChatDecl: HandlerDecl := HandlerDecl("chatHandler", "ChatHandler", [])
  const AdminDecl: HandlerDecl := HandlerDecl("adminHandler", "AdminHandler", [])
  const ChatMapping: MappingDecl := MappingDecl("/chat/*", "chatHandler")
  const AdminMapping: MappingDecl := MappingDecl("/chat/admin/*", "adminHandler")

  /** The registry the factory hands over: path and locator injected, tables empty. */
  function Deployed(): (m: Manager)
    ensures WellFormed(m) && m.locatorInjected && m.webappPath == ChatWebapp
  {
    InjectHandlerLocator(InjectWebappPath(New(), ChatWebapp))
  }

  /** Registers both handlers and the given mappings into `Deployed()`. */
  function RegisterBoth(mappings: seq<MappingDecl>): Registration
  {
    RegisterHandlers(Deployed(), true, Descriptor([], [ChatDecl, AdminDecl], mappings))
  }

  /** The handler table both declarations produce in a registry at `webappPath`. */
  function BothHandlers(webappPath: string): map<string, Handler>
  {
    map["chatHandler" := Instantiate(webappPath, ChatDecl), "adminHandler" := Instantiate(webappPath, AdminDecl)]
  }

  /** Into an empty handler table, both declarations are instantiated without error. */
  lemma BothDeclsRegistered(m: Manager)
    requires m.handlers == map[]
    ensures RegisterHandlerDecls(m, [ChatDecl, AdminDecl]) == Registration(m.(handlers := BothHandlers(m.webappPath)), None)
  {
    var ds := [ChatDecl, AdminDecl];
    assert ds[1..] == [AdminDecl];
    var m1 := AddHandler(m, "chatHandler", Instantiate(m.webappPath, ChatDecl));
    assert RegisterHandlerDecls(m, ds) == RegisterHandlerDecls(m1, [AdminDecl]);
    var m2 := AddHandler(m1, "adminHandler", Instantiate(m.webappPath, AdminDecl));
    assert RegisterHandlerDecls(m1, [AdminDecl]) == RegisterHandlerDecls(m2, []);
    assert m2.handlers == BothHandlers(m.webappPath);
  }

  /** Into an empty pattern table, two mappings over distinct patterns naming registered handlers are stored in order. */
  lemma TwoMappingsStored(m: Manager, a: MappingDecl, b: MappingDecl)
    requires m.mappings == [] && a.handlerName in m.handlers && b.handlerName in m.handlers
    requires Entry(a).pattern != Entry(b).pattern
    ensures RegisterMappingDecls(m, [a, b]).error.None?
    ensures RegisterMappingDecls(m, [a, b]).manager.mappings == [Entry(a), Entry(b)]
  {
    TwoMappingSteps(m, a, b);
    PutTwoFresh(Entry(a), Entry(b));
  }

  /** Two turns of the mapping loop over declarations naming registered handlers. */
  lemma TwoMappingSteps(m: Manager, a: MappingDecl, b: MappingDecl)
    requires a.handlerName in m.handlers && b.handlerName in m.handlers
    ensures RegisterMappingDecls(m, [a, b]) == Registration(m.(mappings :=
      Put(Put(m.mappings, Entry(a).pattern, a.handlerName), Entry(b).pattern, b.handlerName)), None)
  {
    var m1 := m.(mappings := Put(m.mappings, Entry(a).pattern, a.handlerName));
    var m2 := m1.(mappings := Put(m1.mappings, Entry(b).pattern, b.handlerName));
    assert RegisterMappingDecls(m, [a, b]) == RegisterMappingDecls(m1, [b]) by {
      assert [a, b][1..] == [b];
      MappingStep(m, [a, b]);
    }
    assert RegisterMappingDecls(m1, [b]) == RegisterMappingDecls(m2, []) by {
      assert [b][1..] == [];
      MappingStep(m1, [b]);
    }
    assert RegisterMappingDecls(m2, []) == Registration(m2, None);
  }

  /** Two assignments under distinct patterns into an empty table append both entries in order. */
  lemma PutTwoFresh(x: Mapping, y: Mapping)
    requires x.pattern != y.pattern
    ensures Put(Put([], x.pattern, x.handlerName), y.pattern, y.handlerName) == [x, y]
  {
    assert Patterns([]) == {};
    assert Put([], x.pattern, x.handlerName) == [x];
    assert Patterns([x]) == {x.pattern};
  }

  /** One turn of the mapping loop over a declaration naming a registered handler. */
  lemma MappingStep(m: Manager, ds: seq<MappingDecl>)
    requires |ds| > 0 && ds[0].handlerName in m.handlers
    ensures RegisterMappingDecls(m, ds) ==
      RegisterMappingDecls(m.(mappings := Put(m.mappings, Entry(ds[0]).pattern, ds[0].handlerName)), ds[1..])
  {
  }

  /** Both patterns are stored as declared, and they differ. */
  lemma StoredPatterns()
    ensures Entry(ChatMapping) == Mapping("/chat/*", "chatHandler")
    ensures Entry(AdminMapping) == Mapping("/chat/admin/*", "adminHandler")
  {
    NormaliseFixesNormalised("/chat/*");
    NormaliseFixesNormalised("/chat/admin/*");
  }

  /** Registering both handlers with the mappings in the given order succeeds and stores them in that order. */
  lemma RegisterBothInOrder(a: MappingDecl, b: MappingDecl)
    requires (a, b) == (ChatMapping, AdminMapping) || (a, b) == (AdminMapping, ChatMapping)
    ensures RegisterBoth([a, b]).error.None?
    ensures RegisterBoth([a, b]).manager.mappings == [Entry(a), Entry(b)]
    ensures RegisterBoth([a, b]).manager.handlers == BothHandlers(ChatWebapp)
  {
    var m := Deployed();
    var m1 := m.(initParams := AssignParams(m.initParams, []));
    BothDeclsRegistered(m1);
    var m2 := m1.(handlers := BothHandlers(ChatWebapp));
    StoredPatterns();
    TwoMappingsStored(m2, a, b);
  }

  /** `/chat/admin/login` matches both patterns. */
  lemma AdminPathMatchesBoth()
    ensures Fnmatch("/chat/*", "/chat/admin/login") && Fnmatch("/chat/admin/*", "/chat/admin/login")
  {
    BroadPatternMatchesAdminPath();
    AdminPatternMatchesAdminPath();
  }

  /** The broad chat pattern matches `/chat/admin/login`. */
  lemma BroadPatternMatchesAdminPath()
    ensures Fnmatch("/chat/*", "/chat/admin/login")
  {
    assert "/chat/" + "*" == "/chat/*";
    assert "/chat/admin/login"[..6] == "/chat/";
    PrefixStarFnmatchesExtensions("/chat/", "/chat/admin/login");
  }

  /** The admin pattern matches `/chat/admin/login`. */
  lemma AdminPatternMatchesAdminPath()
    ensures Fnmatch("/chat/admin/*", "/chat/admin/login")
  {
    assert "/chat/admin/" + "*" == "/chat/admin/*";
    assert "/chat/admin/login"[..12] == "/chat/admin/";
    PrefixStarFnmatchesExtensions("/chat/admin/", "/chat/admin/login");
  }

  /** `/chat/general` matches only the broad pattern. */
  lemma GeneralPathMatchesChatOnly()
    ensures Fnmatch("/chat/*", "/chat/general") && !Fnmatch("/chat/admin/*", "/chat/general")
  {
    assert "/chat/" + "*" == "/chat/*";
    assert "/chat/admin/" + "*" == "/chat/admin/*";
    PrefixStarFnmatchesExtensions("/chat/", "/chat/general");
    PrefixStarFnmatchesExtensions("/chat/admin/", "/chat/general");
    assert "/chat/general"[..12][6] != "/chat/admin/"[6];
  }

  /** `/other` matches neither pattern. */
  lemma OtherPathMatchesNeither()
    ensures !Fnmatch("/chat/*", "/other") && !Fnmatch("/chat/admin/*", "/other")
  {
    assert "/chat/" + "*" == "/chat/*";
    assert "/chat/admin/" + "*" == "/chat/admin/*";
    PrefixStarFnmatchesExtensions("/chat/", "/other");
    PrefixStarFnmatchesExtensions("/chat/admin/", "/other");
  }

  /** Lookups in the table both declarations produce. */
  lemma BothHandlersLookup(m: Manager)
    requires m.handlers == BothHandlers(ChatWebapp)
    ensures GetHandler(m, "chatHandler") == Some(Instantiate(ChatWebapp, ChatDecl))
    ensures GetHandler(m, "adminHandler") == Some(Instantiate(ChatWebapp, AdminDecl))
  {
  }

  /**
   With the broad chat pattern (the chat prefix followed by a star) declared
   first, it also serves `/chat/admin/login`: order, not specificity, decides.
   */
  lemma BroadPatternFirstShadowsSpecific()
    ensures Locate(RegisterBoth([ChatMapping, AdminMapping]).manager, Request("/chat/admin/login")) ==
      Success(Some(Instantiate(ChatWebapp, ChatDecl)))
  {
    RegisterBothInOrder(ChatMapping, AdminMapping);
    StoredPatterns();
    AdminPathMatchesBoth();
    var m := RegisterBoth([ChatMapping, AdminMapping]).manager;
    BothHandlersLookup(m);
    assert FirstMatchAt(m.mappings, "/chat/admin/login", 0);
  }

  /** With the admin pattern declared first, `/chat/admin/login` reaches the admin handler. */
  lemma SpecificPatternFirstServesAdmin()
    ensures Locate(RegisterBoth([AdminMapping, ChatMapping]).manager, Request("/chat/admin/login")) ==
      Success(Some(Instantiate(ChatWebapp, AdminDecl)))
  {
    RegisterBothInOrder(AdminMapping, ChatMapping);
    StoredPatterns();
    AdminPathMatchesBoth();
    var m := RegisterBoth([AdminMapping, ChatMapping]).manager;
    BothHandlersLookup(m);
    assert FirstMatchAt(m.mappings, "/chat/admin/login", 0);
  }

  /** With the admin pattern declared first, `/chat/general` still falls through to the chat handler. */
  lemma SpecificPatternFirstServesChat()
    ensures Locate(RegisterBoth([AdminMapping, ChatMapping]).manager, Request("/chat/general")) ==
      Success(Some(Instantiate(ChatWebapp, ChatDecl)))
  {
    RegisterBothInOrder(AdminMapping, ChatMapping);
    StoredPatterns();
    GeneralPathMatchesChatOnly();
    var m := RegisterBoth([AdminMapping, ChatMapping]).manager;
    BothHandlersLookup(m);
    assert FirstMatchAt(m.mappings, "/chat/general", 1);
  }

  /** With the chat pattern declared first, a path outside both patterns is not found. */
  lemma UnmappedPathNotFoundChatFirst()
    ensures Locate(RegisterBoth([ChatMapping, AdminMapping]).manager, Request("/other")) == Failure(HandlerNotFound("/other"))
  {
    RegisterBothInOrder(ChatMapping, AdminMapping);
    StoredPatterns();
    OtherPathMatchesNeither();
  }

  /** With the admin pattern declared first, a path outside both patterns is not found. */
  lemma UnmappedPathNotFoundAdminFirst()
    ensures Locate(RegisterBoth([AdminMapping, ChatMapping]).manager, Request("/other")) == Failure(HandlerNotFound("/other"))
  {
    RegisterBothInOrder(AdminMapping, ChatMapping);
    StoredPatterns();
    OtherPathMatchesNeither();
  }

  /** A descriptor with one handler and no mappings registers the handler; every path is then not found. */
  lemma HandlerWithoutMappingServesNothing(path: string)
    ensures var r := RegisterHandlers(Deployed(), true, Descriptor([], [ChatDecl], []));
      r.error.None? && GetHandler(r.manager, "chatHandler").Some? && Locate(r.manager, Request(path)) == Failure(HandlerNotFound(path))
  {
    var m := Deployed();
    var m1 := m.(initParams := AssignParams(m.initParams, []));
    var m2 := AddHandler(m1, "chatHandler", Instantiate(ChatWebapp, ChatDecl));
    assert RegisterHandlerDecls(m1, [ChatDecl]) == RegisterHandlerDecls(m2, []);
  }

  /** No folder or no descriptor: registration leaves the registry empty and raises nothing. */
  lemma MissingDescriptorRegistersNothing(d: Descriptor, path: string)
    ensures var r := RegisterHandlers(Deployed(), false, d);
      r.error.None? && |r.manager.handlers| == 0 && |r.manager.mappings| == 0 && |r.manager.initParams| == 0
      && Locate(r.manager, Request(path)) == Failure(HandlerNotFound(path))
  {
  }

  /**
   Swapping in a handler table without the mapped name leaves the mapping in
   place: the path still matches, and `locate` returns nothing instead of
   throwing.
   */
  lemma SwappedHandlersLeaveDanglingMapping()
    ensures var m := SetHandlers(RegisterBoth([ChatMapping, AdminMapping]).manager, map[]);
      Locate(m, Request("/chat/general")) == Success(None)
  {
    RegisterBothInOrder(ChatMapping, AdminMapping);
    StoredPatterns();
    GeneralPathMatchesChatOnly();
    var m := SetHandlers(RegisterBoth([ChatMapping, AdminMapping]).manager, map[]);
    assert FirstMatchAt(m.mappings, "/chat/general", 0);
  }
}
