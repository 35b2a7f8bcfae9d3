/**
 Three places where the code as written does not do what its documentation
 and surrounding code evidently intend. Each is modelled as written, with the
 input that exposes it; the rest of the model uses the corrected behaviour.
 */
module Findings {
  import opened Wrappers
  import opened Glob
  import opened MappingTable
  import opened HandlerManager
  import opened HandlerLocator

  /**
   Finding: the locator iterates `getHandler()` instead of the mapping table.

   What the locator's `foreach` iterates as written: `getHandler()` called
   without its argument looks up the null key, which PHP reads as the empty
   name; with no handler registered under it the call returns null, and a
   `foreach` over null runs no iteration.
   */
  function IteratedAsWritten(m: Manager): (r: seq<Mapping>)
    requires "" !in m.handlers
    ensures GetHandler(m, "") == None && |r| == 0
  {
    []
  }

  /** The locator as written: it walks `IteratedAsWritten(m)`, so it rejects every request. */
  function LocateAsWritten(m: Manager, request: Request): (r: Result<Option<Handler>, LocateError>)
    requires "" !in m.handlers
    ensures r == Failure(HandlerNotFound(request.handlerPath))
  {
    Dispatch(IteratedAsWritten(m), m, request.handlerPath)
  }

  /** A well-formed registry with one handler, mapped under the chat prefix followed by a star. */
  function ChatRegistry(): (m: Manager)
    ensures WellFormed(m)
  {
    var h := Handler("ChatHandler", HandlerConfig("chat", "/opt/appserver/webapps/chat", map[]));
    Manager("/opt/appserver/webapps/chat", true, map["chat" := h], [Mapping("/chat/*", "chat")], map[])
  }

  /**
   The input that exposes it: `/chat/room` matches the only pattern, the
   corrected locator returns its handler, the locator as written throws.
   */
  lemma AsWrittenLocatorRejectsMappedPath()
    ensures Locate(ChatRegistry(), Request("/chat/room")) == Success(Some(ChatRegistry().handlers["chat"]))
    ensures LocateAsWritten(ChatRegistry(), Request("/chat/room")) == Failure(HandlerNotFound("/chat/room"))
  {
    var m := ChatRegistry();
    assert Literal("/chat/");
    assert "/chat/" + "*" == "/chat/*";
    PrefixStarFnmatchesExtensions("/chat/", "/chat/room");
    assert FirstMatchAt(m.mappings, "/chat/room", 0);
  }

  /**
   Finding: the missing-class guard tests `count($className)`.

   `count()` of a string in PHP 5: a scalar counts as one element, the empty string included.
   */
  function PhpCountOfString(s: string): nat
  {
    1
  }

  /** The guard as written: `!count($className)`. */
  predicate MissingClassAsWritten(className: string): (r: bool)
    ensures !r
  {
    PhpCountOfString(className) == 0
  }

  /** The input that exposes it: the empty class is missing, yet the guard as written lets it through. */
  lemma EmptyClassPassesAsWrittenGuard()
    ensures MissingClass("") && !MissingClassAsWritten("")
  {
  }

  /** With the corrected guard, a declaration without a class is rejected and names the handler. */
  lemma EmptyClassRejected()
    ensures RegisterHandlerDecls(New(), [HandlerDecl("chat", "", [])]) ==
      Registration(New(), Some(InvalidHandlerClass("chat")))
  {
  }

  /**
   Finding: init parameters go to `initParameter`; the constructor sets up `initParameters`.

   The two properties as written: `initParameters`, which the constructor
   sets to an empty table, and `initParameter`, which the accessors use and
   which is undefined until the first `addInitParameter`.
   */
  datatype ParamTablesAsWritten = ParamTablesAsWritten(initParameters: map<string, string>, initParameter: Option<map<string, string>>)

  /** The state the constructor leaves. */
  function ConstructedAsWritten(): ParamTablesAsWritten
  {
    ParamTablesAsWritten(map[], None)
  }

  /** `addInitParameter` as written, under plain PHP property semantics: writes `initParameter`, creating it on first use. */
  function AddInitParameterAsWritten(p: ParamTablesAsWritten, name: string, value: string): (r: ParamTablesAsWritten)
    ensures r.initParameters == p.initParameters
    ensures r.initParameter.Some? && name in r.initParameter.value && r.initParameter.value[name] == value
  {
    var t := if p.initParameter.Some? then p.initParameter.value else map[];
    p.(initParameter := Some(t[name := value]))
  }

  /** `getInitParameter` as written: nothing when `initParameter` is still undefined or lacks the name. */
  function GetInitParameterAsWritten(p: ParamTablesAsWritten, name: string): (r: Option<string>)
    ensures r.Some? <==> p.initParameter.Some? && name in p.initParameter.value
  {
    if p.initParameter.Some? && name in p.initParameter.value then Some(p.initParameter.value[name]) else None
  }

  /** A run of `addInitParameter` calls as written. */
  function AddAllAsWritten(p: ParamTablesAsWritten, ps: seq<Param>): ParamTablesAsWritten
    decreases |ps|
  {
    if |ps| == 0 then p else AddAllAsWritten(AddInitParameterAsWritten(p, ps[0].name, ps[0].value), ps[1..])
  }

  /** The input that exposes it: after a parameter is added, the table the constructor set up is still empty. */
  lemma ConstructorTableStaysEmpty()
    ensures AddInitParameterAsWritten(ConstructedAsWritten(), "a", "1").initParameters == map[]
    ensures GetInitParameterAsWritten(AddInitParameterAsWritten(ConstructedAsWritten(), "a", "1"), "a") == Some("1")
  {
  }

  /** The as-written accessors and the corrected single table relate when the written table is the corrected one. */
  predicate Agree(p: ParamTablesAsWritten, t: map<string, string>)
  {
    if p.initParameter.Some? then p.initParameter.value == t else t == map[]
  }

  /**
   Reads agree: after the same run of writes, the accessors as written return
   what the corrected single table returns, so under plain PHP property
   semantics the split is latent.
   */
  lemma {:induction false} AsWrittenReadsAgree(p: ParamTablesAsWritten, t: map<string, string>, ps: seq<Param>, name: string)
    requires Agree(p, t)
    ensures GetInitParameterAsWritten(AddAllAsWritten(p, ps), name) == GetInitParameter(New().(initParams := AssignParams(t, ps)), name)
    decreases |ps|
  {
    if |ps| == 0 {
    } else {
      var p' := AddInitParameterAsWritten(p, ps[0].name, ps[0].value);
      var t' := t[ps[0].name := ps[0].value];
      assert Agree(p', t');
      AsWrittenReadsAgree(p', t', ps[1..], name);
    }
  }
}
