/**
 The per-application handler registry (`HandlerManager`): three tables
 (handlers by logical name, the ordered URL-pattern table, application-wide
 init parameters), the accessors over them, and `registerHandlers`, which
 fills them from the records of an already parsed `WEB-INF/handler.xml`.
 */
module HandlerManager {
  import opened Wrappers
  import opened MappingTable

  /** A name/value pair: a `context-param` or an `init-param` element. */
  datatype Param = Param(name: string, value: string)

  /** The configuration a handler receives before it is ready (`HandlerConfiguration`). */
  datatype HandlerConfig = HandlerConfig(handlerName: string, webappPath: string, initParams: map<string, string>)

  /** An instantiated and initialised handler, opaque apart from the class it was built from and its configuration. */
  datatype Handler = Handler(className: string, config: HandlerConfig)

  /** A parsed `handler` element. */
  datatype HandlerDecl = HandlerDecl(name: string, className: string, initParams: seq<Param>)

  /** A parsed `handler-mapping` element. */
  datatype MappingDecl = MappingDecl(urlPattern: string, handlerName: string)

  /** The parsed descriptor, every list in document order. */
  datatype Descriptor = Descriptor(contextParams: seq<Param>, handlers: seq<HandlerDecl>, mappings: seq<MappingDecl>)

  /** `InvalidHandlerClassException` and `InvalidHandlerMappingException`. */
  datatype ConfigError =
    | InvalidHandlerClass(handlerName: string)
    | InvalidHandlerMapping(handlerName: string, urlPattern: string)

  /**
   The registry. The handler locator is stateless, so all that matters of it
   is whether one has been injected.
   */
  datatype Manager = Manager(
    webappPath: string,
    locatorInjected: bool,
    handlers: map<string, Handler>,
    mappings: seq<Mapping>,
    initParams: map<string, string>)

  /**
   The outcome of registration. PHP exceptions do not roll back the tables,
   so a failed registration still carries the registry as it stood when the
   exception was thrown.
   */
  datatype Registration = Registration(manager: Manager, error: Option<ConfigError>)

  /** The registry's invariant: a well-keyed pattern table whose every entry names a registered handler. */
  ghost predicate WellFormed(m: Manager)
  {
    && UniquePatterns(m.mappings)
    && forall i :: 0 <= i < |m.mappings| ==>
         Normalised(m.mappings[i].pattern) && m.mappings[i].handlerName in m.handlers
  }

  /** The constructor: empty path, no locator, three empty tables. */
  function New(): (m: Manager)
    ensures m.webappPath == "" && !m.locatorInjected
    ensures |m.handlers| == 0 && |m.mappings| == 0 && |m.initParams| == 0
  {
    Manager("", false, map[], [], map[])
  }

  /** `getHandler`: the handler registered under `k`, or nothing; it never creates an entry. */
  function GetHandler(m: Manager, k: string): (r: Option<Handler>)
    ensures r.None? <==> k !in m.handlers
    ensures r.Some? ==> r.value == m.handlers[k]
  {
    if k in m.handlers then Some(m.handlers[k]) else None
  }

  /** `addHandler`: registers `h` under `k`, replacing any handler already there. */
  function AddHandler(m: Manager, k: string, h: Handler): (r: Manager)
    ensures GetHandler(r, k) == Some(h)
    ensures forall k' :: k' != k ==> GetHandler(r, k') == GetHandler(m, k')
    ensures r.handlers.Keys == m.handlers.Keys + {k}
    ensures r.webappPath == m.webappPath && r.locatorInjected == m.locatorInjected
    ensures r.mappings == m.mappings && r.initParams == m.initParams
  {
    m.(handlers := m.handlers[k := h])
  }

  /** `getHandlers`. */
  function GetHandlers(m: Manager): map<string, Handler>
  {
    m.handlers
  }

  /** `setHandlers`: swaps the whole handler table; the other tables are untouched. */
  function SetHandlers(m: Manager, hs: map<string, Handler>): (r: Manager)
    ensures GetHandlers(r) == hs
    ensures forall k :: GetHandler(r, k) == (if k in hs then Some(hs[k]) else None)
    ensures r.webappPath == m.webappPath && r.locatorInjected == m.locatorInjected
    ensures r.mappings == m.mappings && r.initParams == m.initParams
  {
    m.(handlers := hs)
  }

  /** `getHandlerMappings`: the pattern table, in declaration order, for the locator. */
  function GetHandlerMappings(m: Manager): (r: seq<Mapping>)
    ensures WellFormed(m) ==> UniquePatterns(r)
    ensures WellFormed(m) ==> forall i :: 0 <= i < |r| ==> Normalised(r[i].pattern) && GetHandler(m, r[i].handlerName).Some?
  {
    m.mappings
  }

  /** `getInitParameter`: the application-wide parameter named `name`, or nothing; it never creates an entry. */
  function GetInitParameter(m: Manager, name: string): (r: Option<string>)
    ensures r.None? <==> name !in m.initParams
    ensures r.Some? ==> r.value == m.initParams[name]
  {
    if name in m.initParams then Some(m.initParams[name]) else None
  }

  /** `addInitParameter`: sets one application-wide parameter, replacing an earlier value. */
  function AddInitParameter(m: Manager, name: string, value: string): (r: Manager)
    ensures GetInitParameter(r, name) == Some(value)
    ensures forall n :: n != name ==> GetInitParameter(r, n) == GetInitParameter(m, n)
    ensures r.webappPath == m.webappPath && r.locatorInjected == m.locatorInjected
    ensures r.handlers == m.handlers && r.mappings == m.mappings
  {
    m.(initParams := m.initParams[name := value])
  }

  /** `getWebappPath`. */
  function GetWebappPath(m: Manager): string
  {
    m.webappPath
  }

  /** `injectWebappPath`: sets the path read back by `getWebappPath`; the tables are untouched. */
  function InjectWebappPath(m: Manager, path: string): (r: Manager)
    ensures GetWebappPath(r) == path
    ensures r.locatorInjected == m.locatorInjected
    ensures r.handlers == m.handlers && r.mappings == m.mappings && r.initParams == m.initParams
  {
    m.(webappPath := path)
  }

  /** `injectHandlerLocator`: from now on `locate` has a locator to delegate to. */
  function InjectHandlerLocator(m: Manager): (r: Manager)
    ensures r.locatorInjected
    ensures r.webappPath == m.webappPath
    ensures r.handlers == m.handlers && r.mappings == m.mappings && r.initParams == m.initParams
  {
    m.(locatorInjected := true)
  }

  /** The names a parameter list sets. */
  function ParamNames(ps: seq<Param>): set<string>
  {
    set p | p in ps :: p.name
  }

  /** True iff no later parameter of `ps` has the name of `ps[i]`. */
  predicate LastOfName(ps: seq<Param>, i: int)
    requires 0 <= i < |ps|
  {
    forall j :: i < j < |ps| ==> ps[j].name != ps[i].name
  }

  /** A parameter that is last of its name stays last of its name once the head is dropped. */
  lemma LastOfNameTail(ps: seq<Param>)
    requires |ps| > 0
    ensures forall i :: 1 <= i < |ps| && LastOfName(ps, i) ==> LastOfName(ps[1..], i - 1)
  {
    forall i | 1 <= i < |ps| && LastOfName(ps, i)
      ensures LastOfName(ps[1..], i - 1)
    {
      forall j | i - 1 < j < |ps[1..]|
        ensures ps[1..][j].name != ps[1..][i - 1].name
      {
        assert ps[1..][j] == ps[j + 1];
      }
    }
  }

  /**
   Sets every parameter of `ps` in order, as the `foreach` over
   `context-param` (or `init-param`) elements does: the last value given for
   a name wins, names not mentioned keep their value.
   */
  function AssignParams(t: map<string, string>, ps: seq<Param>): (r: map<string, string>)
    ensures r.Keys == t.Keys + ParamNames(ps)
    ensures forall k :: k in t && k !in ParamNames(ps) ==> r[k] == t[k]
    ensures forall i :: 0 <= i < |ps| && LastOfName(ps, i) ==> r[ps[i].name] == ps[i].value
    decreases |ps|
  {
    if |ps| == 0 then t
    else
      var t' := t[ps[0].name := ps[0].value];
      var r := AssignParams(t', ps[1..]);
      ParamNamesCons(ps);
      LastOfNameTail(ps);
      assert LastOfName(ps, 0) ==> ps[0].name !in ParamNames(ps[1..]);
      r
  }

  /** The names of a non-empty parameter list: the head's and the tail's. */
  lemma ParamNamesCons(ps: seq<Param>)
    requires |ps| > 0
    ensures ParamNames(ps) == {ps[0].name} + ParamNames(ps[1..])
  {
    assert ps == [ps[0]] + ps[1..];
  }

  /** The missing-class check as documented: a declaration without a class is an error. */
  predicate MissingClass(className: string): (r: bool)
    ensures r <==> |className| == 0
  {
    className == ""
  }

  /**
   `new $className()` followed by `init($handlerConfig)`: the handler is built
   from its class and a configuration carrying its name, the webapp path and
   its own init parameters.
   */
  function Instantiate(webappPath: string, d: HandlerDecl): Handler
  {
    Handler(d.className, HandlerConfig(d.name, webappPath, AssignParams(map[], d.initParams)))
  }

  /**
   The handler built for a declaration keeps its class, is configured under the
   declaration's name and the webapp path, and receives exactly the declared
   init parameter names, each holding the value of its last occurrence.
   */
  lemma InstantiateConfigures(webappPath: string, d: HandlerDecl)
    ensures Instantiate(webappPath, d).className == d.className
    ensures Instantiate(webappPath, d).config.handlerName == d.name
    ensures Instantiate(webappPath, d).config.webappPath == webappPath
    ensures Instantiate(webappPath, d).config.initParams.Keys == ParamNames(d.initParams)
    ensures forall i :: 0 <= i < |d.initParams| && LastOfName(d.initParams, i) ==>
      Instantiate(webappPath, d).config.initParams[d.initParams[i].name] == d.initParams[i].value
  {
  }

  /** The handler names a list of declarations uses. */
  function DeclNames(ds: seq<HandlerDecl>): set<string>
  {
    set d | d in ds :: d.name
  }

  /**
   True iff `ds[i]` is processed rather than skipped when the names in
   `known` are registered beforehand: its name is neither known nor used by an
   earlier declaration.
   */
  predicate FirstNew(known: set<string>, ds: seq<HandlerDecl>, i: int)
  {
    0 <= i < |ds| && ds[i].name !in known && forall j :: 0 <= j < i ==> ds[j].name != ds[i].name
  }

  /** Dropping the head declaration and adding its name to the known ones keeps the processed declarations. */
  lemma FirstNewShift(known: set<string>, ds: seq<HandlerDecl>, i: int)
    requires |ds| > 0 && 0 <= i
    ensures FirstNew(known, ds, i + 1) <==> FirstNew(known + {ds[0].name}, ds[1..], i)
  {
    if FirstNew(known + {ds[0].name}, ds[1..], i) {
      forall j | 0 <= j < i + 1
        ensures ds[j].name != ds[i + 1].name
      {
        if j > 0 {
          assert ds[j] == ds[1..][j - 1];
        }
      }
    }
    if FirstNew(known, ds, i + 1) {
      assert ds[1..][i] == ds[i + 1];
      assert ds[0].name != ds[i + 1].name;
      forall j | 0 <= j < i
        ensures ds[1..][j].name != ds[1..][i].name
      {
        assert ds[1..][j] == ds[j + 1];
      }
    }
  }

  /**
   True iff `ds[i]` is the declaration the handler loop throws at: the first
   processed declaration without a class.
   */
  predicate FirstMissingClass(known: set<string>, ds: seq<HandlerDecl>, i: int)
  {
    && FirstNew(known, ds, i) && MissingClass(ds[i].className)
    && forall j :: 0 <= j < i && FirstNew(known, ds, j) ==> !MissingClass(ds[j].className)
  }

  /** Past a head that is skipped or has a class, the declaration thrown at moves one place. */
  lemma FirstMissingClassShift(known: set<string>, ds: seq<HandlerDecl>, i: int)
    requires |ds| > 0 && 0 <= i
    requires ds[0].name in known || !MissingClass(ds[0].className)
    ensures FirstMissingClass(known + {ds[0].name}, ds[1..], i) <==> FirstMissingClass(known, ds, i + 1)
  {
    var known' := known + {ds[0].name};
    FirstNewShift(known, ds, i);
    if i + 1 < |ds| {
      assert ds[1..][i] == ds[i + 1];
    }
    if FirstMissingClass(known', ds[1..], i) {
      forall j | 0 <= j < i + 1 && FirstNew(known, ds, j)
        ensures !MissingClass(ds[j].className)
      {
        if j > 0 {
          FirstNewShift(known, ds, j - 1);
          assert ds[1..][j - 1] == ds[j];
        }
      }
    }
    if FirstMissingClass(known, ds, i + 1) {
      forall j | 0 <= j < i && FirstNew(known', ds[1..], j)
        ensures !MissingClass(ds[1..][j].className)
      {
        FirstNewShift(known, ds, j);
        assert ds[1..][j] == ds[j + 1];
      }
    }
  }

  /**
   The handler loop of `registerHandlers`: a declaration whose name is
   already registered is skipped, one without a class aborts with
   `InvalidHandlerClass`, any other is instantiated and added.
   */
  function RegisterHandlerDecls(m: Manager, decls: seq<HandlerDecl>): (r: Registration)
    ensures r.manager.webappPath == m.webappPath && r.manager.locatorInjected == m.locatorInjected
    ensures r.manager.mappings == m.mappings && r.manager.initParams == m.initParams
    ensures forall k :: k in m.handlers ==> k in r.manager.handlers && r.manager.handlers[k] == m.handlers[k]
    ensures r.error.Some? ==>
      exists i :: FirstMissingClass(m.handlers.Keys, decls, i) && r.error.value == InvalidHandlerClass(decls[i].name)
    decreases |decls|
  {
    if |decls| == 0 then Registration(m, None)
    else
      var d := decls[0];
      if d.name in m.handlers then
        var r := RegisterHandlerDecls(m, decls[1..]);
        assert m.handlers.Keys + {d.name} == m.handlers.Keys;
        assert r.error.Some? ==> exists i :: FirstMissingClass(m.handlers.Keys, decls, i)
                                            && r.error.value == InvalidHandlerClass(decls[i].name) by {
          if r.error.Some? {
            var i :| FirstMissingClass(m.handlers.Keys, decls[1..], i) && r.error.value == InvalidHandlerClass(decls[1..][i].name);
            FirstMissingClassShift(m.handlers.Keys, decls, i);
          }
        }
        r
      else if MissingClass(d.className) then
        assert FirstMissingClass(m.handlers.Keys, decls, 0);
        Registration(m, Some(InvalidHandlerClass(d.name)))
      else
        var m' := AddHandler(m, d.name, Instantiate(m.webappPath, d));
        var r := RegisterHandlerDecls(m', decls[1..]);
        assert r.error.Some? ==> exists i :: FirstMissingClass(m.handlers.Keys, decls, i)
                                            && r.error.value == InvalidHandlerClass(decls[i].name) by {
          if r.error.Some? {
            var i :| FirstMissingClass(m'.handlers.Keys, decls[1..], i) && r.error.value == InvalidHandlerClass(decls[1..][i].name);
            FirstMissingClassShift(m.handlers.Keys, decls, i);
          }
        }
        r
  }

  /** Every declaration the handler loop processes, with `known` registered beforehand, has a class. */
  predicate ClassesPresent(known: set<string>, ds: seq<HandlerDecl>)
  {
    forall i :: 0 <= i < |ds| && FirstNew(known, ds, i) ==> !MissingClass(ds[i].className)
  }

  /** The head declaration is skipped or has a class, and so does the rest once its name is known. */
  lemma ClassesPresentCons(known: set<string>, ds: seq<HandlerDecl>)
    requires |ds| > 0
    ensures ClassesPresent(known, ds) <==>
      (ds[0].name in known || !MissingClass(ds[0].className)) && ClassesPresent(known + {ds[0].name}, ds[1..])
  {
    var known' := known + {ds[0].name};
    if ClassesPresent(known, ds) {
      forall i | FirstNew(known', ds[1..], i)
        ensures !MissingClass(ds[1..][i].className)
      {
        FirstNewShift(known, ds, i);
      }
      if ds[0].name !in known {
        assert FirstNew(known, ds, 0);
      }
    }
    if (ds[0].name in known || !MissingClass(ds[0].className)) && ClassesPresent(known', ds[1..]) {
      forall i | FirstNew(known, ds, i)
        ensures !MissingClass(ds[i].className)
      {
        if i > 0 {
          FirstNewShift(known, ds, i - 1);
        }
      }
    }
  }

  /** The handler loop fails exactly when some processed declaration lacks a class. */
  lemma {:induction false} HandlerDeclsSucceedIff(m: Manager, decls: seq<HandlerDecl>)
    ensures RegisterHandlerDecls(m, decls).error.None? <==>
      forall i :: FirstNew(m.handlers.Keys, decls, i) ==> !MissingClass(decls[i].className)
    decreases |decls|
  {
    if |decls| > 0 {
      var d := decls[0];
      var K := m.handlers.Keys;
      ClassesPresentCons(K, decls);
      if d.name in m.handlers {
        HandlerDeclsSucceedIff(m, decls[1..]);
        assert K + {d.name} == K;
      } else if !MissingClass(d.className) {
        HandlerDeclsSucceedIff(AddHandler(m, d.name, Instantiate(m.webappPath, d)), decls[1..]);
      }
    }
  }

  /**
   The handler loop throws at the first processed declaration without a class,
   and nothing is rolled back: every declaration before it is already
   registered and no later one is.
   */
  lemma HandlerDeclsFailAt(m: Manager, decls: seq<HandlerDecl>, i: int)
    requires FirstMissingClass(m.handlers.Keys, decls, i)
    ensures RegisterHandlerDecls(m, decls).error == Some(InvalidHandlerClass(decls[i].name))
    ensures RegisterHandlerDecls(m, decls).manager.handlers.Keys == m.handlers.Keys + DeclNames(decls[..i])
  {
    FirstMissingClassThrows(m.handlers.Keys, decls, i);
    ThrowsAtFails(m, decls, i);
    ThrowsAtKeeps(m, decls, i);
  }

  /**
   The handler loop, followed turn by turn from `known`, throws at `ds[i]`:
   every earlier declaration is skipped or has a class, and `ds[i]` is new
   and has none.
   */
  predicate ThrowsAt(known: set<string>, ds: seq<HandlerDecl>, i: int): (r: bool)
    ensures r ==> 0 <= i < |ds|
    decreases |ds|
  {
    && |ds| > 0
    && if ds[0].name !in known && MissingClass(ds[0].className) then i == 0
       else i > 0 && ThrowsAt(known + {ds[0].name}, ds[1..], i - 1)
  }

  /** The first processed declaration without a class is where the loop, followed turn by turn, throws. */
  lemma {:induction false} FirstMissingClassThrows(known: set<string>, ds: seq<HandlerDecl>, i: int)
    requires FirstMissingClass(known, ds, i)
    ensures ThrowsAt(known, ds, i)
    decreases |ds|
  {
    if i > 0 {
      FirstMissingClassStep(known, ds, i);
      FirstMissingClassThrows(known + {ds[0].name}, ds[1..], i - 1);
    }
  }

  /** Where the loop throws, the error names that declaration. */
  lemma {:induction false} ThrowsAtFails(m: Manager, decls: seq<HandlerDecl>, i: int)
    requires ThrowsAt(m.handlers.Keys, decls, i)
    ensures RegisterHandlerDecls(m, decls).error == Some(InvalidHandlerClass(decls[i].name))
    decreases |decls|
  {
    if i == 0 {
      ThrowsAtHead(m.handlers.Keys, decls);
      HandlerDeclsFailHead(m, decls);
    } else {
      ThrowsAtStep(m.handlers.Keys, decls, i);
      var m' := HandlerStep(m, decls);
      ThrowsAtFails(m', decls[1..], i - 1);
    }
  }

  /** Where the loop throws, the declarations before it stay registered and no later one is. */
  lemma {:induction false} ThrowsAtKeeps(m: Manager, decls: seq<HandlerDecl>, i: int)
    requires ThrowsAt(m.handlers.Keys, decls, i)
    ensures RegisterHandlerDecls(m, decls).manager.handlers.Keys == m.handlers.Keys + DeclNames(decls[..i])
    decreases |decls|
  {
    if i == 0 {
      ThrowsAtHead(m.handlers.Keys, decls);
      HandlerDeclsFailHead(m, decls);
      assert DeclNames(decls[..0]) == {};
    } else {
      ThrowsAtStep(m.handlers.Keys, decls, i);
      var m' := HandlerStep(m, decls);
      ThrowsAtKeeps(m', decls[1..], i - 1);
      DeclNamesPrefix(m.handlers.Keys, decls, i);
    }
  }

  /** The loop throws at the head only if the head is new and has no class. */
  lemma ThrowsAtHead(known: set<string>, ds: seq<HandlerDecl>)
    requires ThrowsAt(known, ds, 0)
    ensures |ds| > 0 && ds[0].name !in known && MissingClass(ds[0].className)
  {
  }

  /** The loop throws past the head only if the head is skipped or has a class. */
  lemma ThrowsAtStep(known: set<string>, ds: seq<HandlerDecl>, i: int)
    requires ThrowsAt(known, ds, i) && i > 0
    ensures |ds| > 0 && (ds[0].name in known || !MissingClass(ds[0].className))
    ensures ThrowsAt(known + {ds[0].name}, ds[1..], i - 1)
    ensures ds[1..][i - 1] == ds[i]
  {
  }


  /** Whether it succeeds or throws, the handler loop registers no name it was not given. */
  lemma HandlerDeclsRegisterOnlyDeclared(m: Manager, decls: seq<HandlerDecl>)
    ensures RegisterHandlerDecls(m, decls).manager.handlers.Keys <= m.handlers.Keys + DeclNames(decls)
  {
    var r := RegisterHandlerDecls(m, decls);
    if r.error.None? {
      HandlerDeclsRegisterAll(m, decls);
    } else {
      var i :| FirstMissingClass(m.handlers.Keys, decls, i) && r.error.value == InvalidHandlerClass(decls[i].name);
      HandlerDeclsFailAt(m, decls, i);
      forall x | x in DeclNames(decls[..i])
        ensures x in DeclNames(decls)
      {
        var d :| d in decls[..i] && d.name == x;
        assert d in decls;
      }
    }
  }

  /** Before the first declaration without a class, the head is skipped or has a class. */
  lemma FirstMissingClassStep(known: set<string>, ds: seq<HandlerDecl>, i: int)
    requires FirstMissingClass(known, ds, i) && i > 0
    ensures ds[0].name in known || !MissingClass(ds[0].className)
    ensures FirstMissingClass(known + {ds[0].name}, ds[1..], i - 1)
    ensures ds[1..][i - 1] == ds[i]
  {
    if ds[0].name !in known {
      assert FirstNew(known, ds, 0);
    }
    FirstMissingClassShift(known, ds, i - 1);
  }

  /** A new head without a class makes the handler loop throw before it registers anything. */
  lemma HandlerDeclsFailHead(m: Manager, decls: seq<HandlerDecl>)
    requires |decls| > 0 && decls[0].name !in m.handlers && MissingClass(decls[0].className)
    ensures RegisterHandlerDecls(m, decls) == Registration(m, Some(InvalidHandlerClass(decls[0].name)))
  {
  }

  /** One turn of the handler loop over a head that is skipped or has a class. */
  lemma HandlerStep(m: Manager, decls: seq<HandlerDecl>) returns (m': Manager)
    requires |decls| > 0 && (decls[0].name in m.handlers || !MissingClass(decls[0].className))
    ensures m'.handlers.Keys == m.handlers.Keys + {decls[0].name}
    ensures RegisterHandlerDecls(m, decls) == RegisterHandlerDecls(m', decls[1..])
  {
    var d := decls[0];
    if d.name in m.handlers {
      m' := m;
    } else {
      m' := AddHandler(m, d.name, Instantiate(m.webappPath, d));
    }
  }

  /** Adding the names of a non-empty prefix: the head's, then those of the rest of the prefix. */
  lemma DeclNamesPrefix(known: set<string>, decls: seq<HandlerDecl>, i: int)
    requires 0 < i <= |decls|
    ensures known + DeclNames(decls[..i]) == (known + {decls[0].name}) + DeclNames(decls[1..][..i - 1])
  {
    DeclNamesCons(known, decls[..i]);
    assert decls[..i][1..] == decls[1..][..i - 1];
  }

  /** A successful handler loop registers every declared name and no other. */
  lemma {:induction false} HandlerDeclsRegisterAll(m: Manager, decls: seq<HandlerDecl>)
    requires RegisterHandlerDecls(m, decls).error.None?
    ensures RegisterHandlerDecls(m, decls).manager.handlers.Keys == m.handlers.Keys + DeclNames(decls)
    decreases |decls|
  {
    if |decls| > 0 {
      assert decls[0].name in m.handlers || !MissingClass(decls[0].className);
      var m' := HandlerStep(m, decls);
      HandlerDeclsRegisterAll(m', decls[1..]);
      DeclNamesCons(m.handlers.Keys, decls);
    }
  }

  /** Adding the names of a non-empty sequence: the head's, then those of the rest. */
  lemma DeclNamesCons(known: set<string>, decls: seq<HandlerDecl>)
    requires |decls| > 0
    ensures known + DeclNames(decls) == (known + {decls[0].name}) + DeclNames(decls[1..])
  {
    assert decls == [decls[0]] + decls[1..];
    assert DeclNames(decls) == {decls[0].name} + DeclNames(decls[1..]);
  }

  /** Past the head declaration, a processed declaration is a processed one of the tail once the head's name is known. */
  lemma FirstNewCons(known: set<string>, ds: seq<HandlerDecl>)
    requires |ds| > 0
    ensures FirstNew(known, ds, 0) <==> ds[0].name !in known
    ensures forall i :: FirstNew(known, ds, i) && i > 0 ==>
      FirstNew(known + {ds[0].name}, ds[1..], i - 1) && ds[1..][i - 1] == ds[i]
  {
    forall i | FirstNew(known, ds, i) && i > 0
      ensures FirstNew(known + {ds[0].name}, ds[1..], i - 1)
    {
      FirstNewShift(known, ds, i - 1);
    }
  }

  /** After a successful handler loop, each newly registered name holds the handler built from its FIRST declaration. */
  lemma {:induction false} HandlerDeclsRegisterFirst(m: Manager, decls: seq<HandlerDecl>)
    requires RegisterHandlerDecls(m, decls).error.None?
    ensures forall i :: FirstNew(m.handlers.Keys, decls, i) ==>
      && decls[i].name in RegisterHandlerDecls(m, decls).manager.handlers
      && RegisterHandlerDecls(m, decls).manager.handlers[decls[i].name] == Instantiate(m.webappPath, decls[i])
    decreases |decls|
  {
    if |decls| > 0 {
      var d := decls[0];
      var K := m.handlers.Keys;
      FirstNewCons(K, decls);
      if d.name in m.handlers {
        HandlerDeclsRegisterFirst(m, decls[1..]);
        assert K + {d.name} == K;
      } else {
        HandlerDeclsRegisterFirst(AddHandler(m, d.name, Instantiate(m.webappPath, d)), decls[1..]);
      }
    }
  }

  /** The table entry a mapping declaration is stored as: its normalised pattern and its handler name. */
  function Entry(d: MappingDecl): Mapping
  {
    Mapping(Normalise(d.urlPattern), d.handlerName)
  }

  /** The entries of a list of mapping declarations, in order. */
  function Entries(ds: seq<MappingDecl>): (es: seq<Mapping>)
    ensures |es| == |ds| && forall i :: 0 <= i < |ds| ==> es[i] == Entry(ds[i])
  {
    seq(|ds|, i requires 0 <= i < |ds| => Entry(ds[i]))
  }

  /** True iff `ds[i]` is the first mapping declaration naming a handler outside `known`. */
  predicate FirstUnknown(known: set<string>, ds: seq<MappingDecl>, i: int)
  {
    0 <= i < |ds| && ds[i].handlerName !in known && forall j :: 0 <= j < i ==> ds[j].handlerName in known
  }

  /** Past a head that names a known handler, the first unknown declaration moves one place. */
  lemma FirstUnknownShift(known: set<string>, ds: seq<MappingDecl>)
    requires |ds| > 0 && ds[0].handlerName in known
    ensures (forall i :: 0 <= i < |ds| ==> ds[i].handlerName in known) <==>
            (forall i :: 0 <= i < |ds[1..]| ==> ds[1..][i].handlerName in known)
    ensures forall i :: FirstUnknown(known, ds[1..], i) ==> FirstUnknown(known, ds, i + 1) && ds[1..][i] == ds[i + 1]
  {
    assert forall i :: 0 <= i < |ds[1..]| ==> ds[1..][i] == ds[i + 1];
  }

  /** The mapping-loop error for a declaration: its handler name and its pattern with the leading slashes trimmed. */
  function MappingError(d: MappingDecl): ConfigError
  {
    InvalidHandlerMapping(d.handlerName, TrimLeadingSlashes(d.urlPattern))
  }

  /** Storing the head declaration's entry is the first assignment of the whole list's entries. */
  lemma EntriesCons(t: seq<Mapping>, ds: seq<MappingDecl>)
    requires |ds| > 0
    ensures PutAll(t, Entries(ds)) == PutAll(Put(t, Normalise(ds[0].urlPattern), ds[0].handlerName), Entries(ds[1..]))
  {
    assert Entries(ds)[1..] == Entries(ds[1..]);
  }

  /**
   The mapping loop of `registerHandlers`: a declaration naming an
   unregistered handler aborts with `InvalidHandlerMapping` (carrying the
   pattern with its leading slashes trimmed); any other stores its handler
   name under the normalised pattern. Only the pattern table changes.
   */
  function RegisterMappingDecls(m: Manager, decls: seq<MappingDecl>): (r: Registration)
    ensures r.manager.webappPath == m.webappPath && r.manager.locatorInjected == m.locatorInjected
    ensures r.manager.handlers == m.handlers && r.manager.initParams == m.initParams
    ensures r.error.None? <==> forall i :: 0 <= i < |decls| ==> decls[i].handlerName in m.handlers
    ensures r.error.Some? ==> exists i :: FirstUnknown(m.handlers.Keys, decls, i) && r.error.value == MappingError(decls[i])
    ensures r.error.None? ==> r.manager.mappings == PutAll(m.mappings, Entries(decls))
    decreases |decls|
  {
    if |decls| == 0 then Registration(m, None)
    else
      var d := decls[0];
      if d.handlerName !in m.handlers then
        assert FirstUnknown(m.handlers.Keys, decls, 0);
        Registration(m, Some(MappingError(d)))
      else
        var r := RegisterMappingDecls(m.(mappings := Put(m.mappings, Normalise(d.urlPattern), d.handlerName)), decls[1..]);
        FirstUnknownShift(m.handlers.Keys, decls);
        EntriesCons(m.mappings, decls);
        r
  }

  /**
   No rollback: when the mapping loop throws at `decls[i]`, the error names
   that mapping and the pattern table holds every mapping before it.
   */
  lemma {:induction false} MappingDeclsFailAt(m: Manager, decls: seq<MappingDecl>, i: int)
    requires FirstUnknown(m.handlers.Keys, decls, i)
    ensures RegisterMappingDecls(m, decls).error == Some(MappingError(decls[i]))
    ensures RegisterMappingDecls(m, decls).manager.mappings == PutAll(m.mappings, Entries(decls[..i]))
    decreases |decls|
  {
    if i == 0 {
      assert Entries(decls[..0]) == [];
    } else {
      FirstUnknownStep(m.handlers.Keys, decls, i);
      var m' := MappingDeclStep(m, decls);
      MappingDeclsFailAt(m', decls[1..], i - 1);
      EntriesPrefix(m.mappings, decls, i);
    }
  }

  /** Before the first unknown handler name, the head's name is known. */
  lemma FirstUnknownStep(known: set<string>, ds: seq<MappingDecl>, i: int)
    requires FirstUnknown(known, ds, i) && i > 0
    ensures ds[0].handlerName in known
    ensures FirstUnknown(known, ds[1..], i - 1)
    ensures ds[1..][i - 1] == ds[i]
  {
    assert ds[1..][i - 1] == ds[i];
    forall j | 0 <= j < i - 1
      ensures ds[1..][j].handlerName in known
    {
      assert ds[1..][j] == ds[j + 1];
    }
  }

  /** One turn of the mapping loop over a head whose handler is registered. */
  lemma MappingDeclStep(m: Manager, decls: seq<MappingDecl>) returns (m': Manager)
    requires |decls| > 0 && decls[0].handlerName in m.handlers
    ensures m'.handlers == m.handlers
    ensures m'.mappings == Put(m.mappings, Normalise(decls[0].urlPattern), decls[0].handlerName)
    ensures RegisterMappingDecls(m, decls) == RegisterMappingDecls(m', decls[1..])
  {
    m' := m.(mappings := Put(m.mappings, Normalise(decls[0].urlPattern), decls[0].handlerName));
  }

  /** Storing a non-empty prefix: the head's entry, then the rest of the prefix. */
  lemma EntriesPrefix(t: seq<Mapping>, decls: seq<MappingDecl>, i: int)
    requires 0 < i <= |decls|
    ensures PutAll(t, Entries(decls[..i]))
         == PutAll(Put(t, Normalise(decls[0].urlPattern), decls[0].handlerName), Entries(decls[1..][..i - 1]))
  {
    var es := Entries(decls[..i]);
    var rest := decls[1..][..i - 1];
    assert es[1..] == Entries(rest) by {
      forall k | 0 <= k < |rest|
        ensures rest[k] == decls[..i][k + 1]
      {
      }
    }
    assert PutAll(t, es) == PutAll(Put(t, es[0].pattern, es[0].handlerName), es[1..]);
  }


  /** Storing a normalised pattern for a registered handler keeps the registry well formed. */
  lemma PutKeepsWellFormed(m: Manager, k: string, name: string)
    requires WellFormed(m) && Normalised(k) && name in m.handlers
    ensures WellFormed(m.(mappings := Put(m.mappings, k, name)))
  {
    var t := m.mappings;
    var r := Put(t, k, name);
    PutKeepsPatternsUnique(t, k, name);
    if k in Patterns(t) {
      var e :| e in t && e.pattern == k;
      var i0 :| 0 <= i0 < |t| && t[i0] == e;
      var i :| 0 <= i <= i0 && FirstAt(t, k, i) by {
        FirstAtExists(t, k, i0);
      }
      assert r == t[i := Mapping(k, name)];
      forall j | 0 <= j < |r|
        ensures Normalised(r[j].pattern) && r[j].handlerName in m.handlers
      {
        if j != i {
          assert r[j] == t[j];
        }
      }
    } else {
      assert r == t + [Mapping(k, name)];
      forall j | 0 <= j < |r|
        ensures Normalised(r[j].pattern) && r[j].handlerName in m.handlers
      {
        if j < |t| {
          assert r[j] == t[j];
        }
      }
    }
  }

  /** The mapping loop keeps the registry well formed, whether it succeeds or not. */
  lemma {:induction false} MappingDeclsKeepWellFormed(m: Manager, decls: seq<MappingDecl>)
    requires WellFormed(m)
    ensures WellFormed(RegisterMappingDecls(m, decls).manager)
    decreases |decls|
  {
    if |decls| > 0 && decls[0].handlerName in m.handlers {
      var d := decls[0];
      PutKeepsWellFormed(m, Normalise(d.urlPattern), d.handlerName);
      MappingDeclsKeepWellFormed(m.(mappings := Put(m.mappings, Normalise(d.urlPattern), d.handlerName)), decls[1..]);
    }
  }

  /**
   After a successful mapping loop, a pattern declared more than once keeps a
   single entry holding the LAST handler name declared for it, and a key no
   declaration normalises to reads as before.
   */
  lemma MappingDeclsLastWins(m: Manager, decls: seq<MappingDecl>)
    requires RegisterMappingDecls(m, decls).error.None?
    ensures forall i :: 0 <= i < |decls| && LastAt(Entries(decls), i) ==>
      Lookup(RegisterMappingDecls(m, decls).manager.mappings, Normalise(decls[i].urlPattern)) == Some(decls[i].handlerName)
    ensures forall k :: k !in Patterns(Entries(decls)) ==>
      Lookup(RegisterMappingDecls(m, decls).manager.mappings, k) == Lookup(m.mappings, k)
  {
    PutAllLastWins(m.mappings, Entries(decls));
  }

  /**
   With every mapping naming a registered handler and the declared patterns
   distinct after normalisation and new to the table, the entries are
   appended in declaration order.
   */
  lemma MappingDeclsAppendInOrder(m: Manager, decls: seq<MappingDecl>)
    requires forall i :: 0 <= i < |decls| ==> decls[i].handlerName in m.handlers
    requires UniquePatterns(Entries(decls)) && Patterns(m.mappings) !! Patterns(Entries(decls))
    ensures RegisterMappingDecls(m, decls).manager.mappings == m.mappings + Entries(decls)
  {
    PutAllFreshAppends(m.mappings, Entries(decls));
  }

  /**
   `registerHandlers`: with no deployed folder or no descriptor nothing
   happens; otherwise the context parameters are set, then the handler loop
   runs, then (if it succeeded) the mapping loop. An exception leaves every
   table as it was at the throw.
   */
  function RegisterHandlers(m: Manager, present: bool, d: Descriptor): (r: Registration)
    ensures !present ==> r == Registration(m, None)
    ensures r.manager.webappPath == m.webappPath && r.manager.locatorInjected == m.locatorInjected
    ensures forall k :: k in m.handlers ==> k in r.manager.handlers && r.manager.handlers[k] == m.handlers[k]
    ensures present ==> forall i :: 0 <= i < |d.contextParams| && LastOfName(d.contextParams, i) ==>
      GetInitParameter(r.manager, d.contextParams[i].name) == Some(d.contextParams[i].value)
  {
    if !present then Registration(m, None)
    else
      var m1 := m.(initParams := AssignParams(m.initParams, d.contextParams));
      var r2 := RegisterHandlerDecls(m1, d.handlers);
      if r2.error.Some? then r2 else RegisterMappingDecls(r2.manager, d.mappings)
  }

  /**
   With the descriptor present, registration succeeds exactly when every
   processed handler declaration has a class and every mapping names a
   handler that is registered beforehand or declared.
   */
  lemma RegisterHandlersSucceedIff(m: Manager, d: Descriptor)
    ensures RegisterHandlers(m, true, d).error.None? <==>
      && (forall i :: FirstNew(m.handlers.Keys, d.handlers, i) ==> !MissingClass(d.handlers[i].className))
      && (forall j :: 0 <= j < |d.mappings| ==> d.mappings[j].handlerName in m.handlers.Keys + DeclNames(d.handlers))
  {
    var m1 := m.(initParams := AssignParams(m.initParams, d.contextParams));
    HandlerDeclsSucceedIff(m1, d.handlers);
    if RegisterHandlerDecls(m1, d.handlers).error.None? {
      HandlerDeclsRegisterAll(m1, d.handlers);
    }
  }

  /**
   A mapping that names an unknown handler fails registration only after the
   handler loop has finished: every declared handler stays registered.
   */
  lemma MappingErrorKeepsHandlers(m: Manager, d: Descriptor)
    requires RegisterHandlers(m, true, d).error.Some?
    requires RegisterHandlers(m, true, d).error.value.InvalidHandlerMapping?
    ensures RegisterHandlers(m, true, d).manager.handlers.Keys == m.handlers.Keys + DeclNames(d.handlers)
  {
    var m1 := m.(initParams := AssignParams(m.initParams, d.contextParams));
    HandlerDeclsRegisterAll(m1, d.handlers);
  }

  /**
   What a successful registration stores: the old handlers plus one handler
   per declared name, built from its first declaration; the pattern table
   with every mapping assigned in declaration order; and the context
   parameters assigned over the old ones.
   */
  lemma RegisterHandlersOnSuccess(m: Manager, d: Descriptor)
    requires RegisterHandlers(m, true, d).error.None?
    ensures RegisterHandlers(m, true, d).manager.handlers.Keys == m.handlers.Keys + DeclNames(d.handlers)
    ensures forall i :: FirstNew(m.handlers.Keys, d.handlers, i) ==>
      && d.handlers[i].name in RegisterHandlers(m, true, d).manager.handlers
      && RegisterHandlers(m, true, d).manager.handlers[d.handlers[i].name] == Instantiate(m.webappPath, d.handlers[i])
    ensures RegisterHandlers(m, true, d).manager.mappings == PutAll(m.mappings, Entries(d.mappings))
    ensures RegisterHandlers(m, true, d).manager.initParams == AssignParams(m.initParams, d.contextParams)
  {
    var m1 := m.(initParams := AssignParams(m.initParams, d.contextParams));
    HandlerDeclsRegisterAll(m1, d.handlers);
    HandlerDeclsRegisterFirst(m1, d.handlers);
  }

  /** Registration keeps the registry well formed, whether it succeeds or not. */
  lemma RegisterHandlersKeepsWellFormed(m: Manager, present: bool, d: Descriptor)
    requires WellFormed(m)
    ensures WellFormed(RegisterHandlers(m, present, d).manager)
  {
    if present {
      var m1 := m.(initParams := AssignParams(m.initParams, d.contextParams));
      var r2 := RegisterHandlerDecls(m1, d.handlers);
      if r2.error.None? {
        MappingDeclsKeepWellFormed(r2.manager, d.mappings);
      }
    }
  }
}
