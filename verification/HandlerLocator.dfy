/**
 The handler locator (`HandlerLocator::locate`) and the registry's `locate`
 delegation: a read-only walk over the pattern table in declaration order
 that returns the handler of the first pattern matching the request's
 handler path.
 */
module HandlerLocator {
  import opened Wrappers
  import opened Glob
  import opened MappingTable
  import opened HandlerManager

  /** A request, as far as routing goes: the path `getHandlerPath()` yields. */
  datatype Request = Request(handlerPath: string)

  /**
   `HandlerNotFoundException`, carrying the unmatched path, and the failure
   of `locate` on a registry that was never given a locator, which in PHP is
   a fatal call on null rather than a catchable exception.
   */
  datatype LocateError = HandlerNotFound(path: string) | NoLocator

  /** True iff entry `i` is the first entry of `t` whose pattern matches `path`. */
  predicate FirstMatchAt(t: seq<Mapping>, path: string, i: int)
  {
    0 <= i < |t| && Fnmatch(t[i].pattern, path) && forall j :: 0 <= j < i ==> !Fnmatch(t[j].pattern, path)
  }

  /** The walk over `t` in order, stopping at the first entry whose pattern matches `path`. */
  function FirstMatch(t: seq<Mapping>, path: string): (r: Option<nat>)
    ensures r.Some? ==> FirstMatchAt(t, path, r.value)
    ensures r.None? <==> forall j :: 0 <= j < |t| ==> !Fnmatch(t[j].pattern, path)
  {
    if |t| == 0 then None
    else if Fnmatch(t[0].pattern, path) then Some(0)
    else
      match FirstMatch(t[1..], path)
      case None =>
        assert forall j :: 1 <= j < |t| ==> t[j] == t[1..][j - 1];
        None
      case Some(i) =>
        assert forall j :: 1 <= j <= i + 1 ==> t[j] == t[1..][j - 1];
        Some(i + 1)
  }

  /** There is at most one first match. */
  lemma FirstMatchAtUnique(t: seq<Mapping>, path: string, i: int, j: int)
    requires FirstMatchAt(t, path, i) && FirstMatchAt(t, path, j)
    ensures i == j
  {
  }

  /**
   The body of `locate` over the table it iterates: the handler registered
   under the name of the first matching entry (nothing, if that name is not
   registered), or `HandlerNotFound` with the path when no entry matches.
   */
  function Dispatch(t: seq<Mapping>, m: Manager, path: string): (r: Result<Option<Handler>, LocateError>)
    ensures r.Failure? <==> forall j :: 0 <= j < |t| ==> !Fnmatch(t[j].pattern, path)
    ensures r.Failure? ==> r.error == HandlerNotFound(path)
    ensures forall i :: FirstMatchAt(t, path, i) ==> r == Success(GetHandler(m, t[i].handlerName))
  {
    match FirstMatch(t, path)
    case None => Failure(HandlerNotFound(path))
    case Some(i) =>
      assert forall i' :: FirstMatchAt(t, path, i') ==> i' == i by {
        forall i' | FirstMatchAt(t, path, i')
          ensures i' == i
        {
          FirstMatchAtUnique(t, path, i', i);
        }
      }
      Success(GetHandler(m, t[i].handlerName))
  }

  /**
   `HandlerLocator::locate`, iterating the registry's mapping table as
   `getHandlerMappings()` returns it. It yields a result and no registry, so
   it leaves every table as it was.
   */
  function Locate(m: Manager, request: Request): (r: Result<Option<Handler>, LocateError>)
    ensures r.Failure? <==> forall j :: 0 <= j < |m.mappings| ==> !Fnmatch(m.mappings[j].pattern, request.handlerPath)
    ensures r.Failure? ==> r.error == HandlerNotFound(request.handlerPath)
    ensures forall i :: FirstMatchAt(m.mappings, request.handlerPath, i) ==>
      r == Success(GetHandler(m, m.mappings[i].handlerName))
  {
    Dispatch(GetHandlerMappings(m), m, request.handlerPath)
  }

  /**
   `HandlerManager::locate`: forwards to the injected locator, passing the
   registry itself. The injected locator is taken to be `HandlerLocator`, the
   one the factory creates.
   */
  function ManagerLocate(m: Manager, request: Request): (r: Result<Option<Handler>, LocateError>)
    ensures !m.locatorInjected ==> r == Failure(NoLocator)
    ensures m.locatorInjected ==> r == Locate(m, request)
  {
    if m.locatorInjected then Locate(m, request) else Failure(NoLocator)
  }

  /**
   First match wins: the entry whose handler is returned is at or before
   every matching entry, so a later matching entry is never chosen.
   */
  lemma ChosenEntryPrecedesEveryMatch(m: Manager, request: Request, i: int)
    requires 0 <= i < |m.mappings| && Fnmatch(m.mappings[i].pattern, request.handlerPath)
    ensures exists k :: 0 <= k <= i && FirstMatchAt(m.mappings, request.handlerPath, k)
                        && Locate(m, request) == Success(GetHandler(m, m.mappings[k].handlerName))
  {
    var r := FirstMatch(m.mappings, request.handlerPath);
    assert r.value <= i;
  }

  /** With an empty pattern table, every path is not found. */
  lemma EmptyTableFindsNothing(m: Manager, request: Request)
    requires |m.mappings| == 0
    ensures Locate(m, request) == Failure(HandlerNotFound(request.handlerPath))
  {
  }

  /**
   A first-matching entry whose handler name is not registered yields
   nothing rather than an error, because the name is looked up again.
   */
  lemma DanglingNameYieldsNothing(m: Manager, request: Request, i: int)
    requires FirstMatchAt(m.mappings, request.handlerPath, i)
    requires m.mappings[i].handlerName !in m.handlers
    ensures Locate(m, request) == Success(None)
  {
  }

  /** On a well-formed registry a match always yields a registered handler. */
  lemma WellFormedMatchYieldsHandler(m: Manager, request: Request)
    requires WellFormed(m)
    requires Locate(m, request).Success?
    ensures Locate(m, request).value.Some?
    ensures exists i :: (FirstMatchAt(m.mappings, request.handlerPath, i) &&
                         Locate(m, request).value.value == m.handlers[m.mappings[i].handlerName])
  {
    var r := FirstMatch(m.mappings, request.handlerPath);
    assert FirstMatchAt(m.mappings, request.handlerPath, r.value);
  }
}
