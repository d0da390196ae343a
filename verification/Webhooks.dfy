/** webhook_handler.py: managers registering webhooks in Home Assistant's shared registry. */
module Webhooks {
  import opened Constants

  /** A handler is bound to one config entry and one category. */
  datatype Handler = Handler(owner: string, category: string)

  /** What a manager returns from registering: the registry after, its ids, and category -> id. */
  datatype Registration = Registration(handlers: map<string, Handler>, registered: seq<string>,
                                       urls: map<string, string>)

  /** Registering these categories in turn; an id already taken is skipped. */
  function RegisterFrom(handlers: map<string, Handler>, owner: string, suffix: string, enabled: set<string>,
                        cs: seq<string>): Registration {
    if cs == [] then Registration(handlers, [], map[])
    else
      var before := RegisterFrom(handlers, owner, suffix, enabled, cs[..|cs| - 1]);
      var c := cs[|cs| - 1];
      var id := WebhookId(c, suffix);
      if c !in enabled || id in before.handlers then before
      else Registration(before.handlers[id := Handler(owner, c)], before.registered + [id], before.urls[c := id])
  }

  function Categories(): seq<string> {
    ALL_CATEGORIES
  }

  function RegisterAll(handlers: map<string, Handler>, owner: string, suffix: string,
                       enabled: set<string>): Registration {
    RegisterFrom(handlers, owner, suffix, enabled, Categories())
  }

  function UnregisterAll(handlers: map<string, Handler>, registered: seq<string>): map<string, Handler> {
    handlers - set id | id in registered
  }

  class Registry {
    var handlers: map<string, Handler>

    constructor ()
      ensures handlers == map[]
    {
      handlers := map[];
    }
  }

  class WebhookManager {
    const owner: string
    const suffix: string
    const enabled: set<string>
    const registry: Registry
    var registered: seq<string>

    constructor (owner: string, suffix: string, enabled: set<string>, registry: Registry)
      ensures this.owner == owner && this.suffix == suffix && this.enabled == enabled && this.registry == registry
      ensures registered == []
    {
      this.owner, this.suffix, this.enabled, this.registry := owner, suffix, enabled, registry;
      registered := [];
    }

    method RegisterEvery() returns (urls: map<string, string>)
      requires registered == []
      modifies this, registry
      ensures Registration(registry.handlers, registered, urls)
              == RegisterAll(old(registry.handlers), owner, suffix, enabled)
    {
      hide WebhookId;
      urls := map[];
      var cs := Categories();
      for i := 0 to |cs|
        invariant Registration(registry.handlers, registered, urls)
                    == RegisterFrom(old(registry.handlers), owner, suffix, enabled, cs[..i])
      {
        assert cs[..i + 1][..i] == cs[..i];
        var id := WebhookId(cs[i], suffix);
        if cs[i] in enabled && id !in registry.handlers {
          registry.handlers := registry.handlers[id := Handler(owner, cs[i])];
          registered := registered + [id];
          urls := urls[cs[i] := id];
        }
      }
      assert cs[..|cs|] == cs;
    }

    method UnregisterEvery()
      modifies this, registry
      ensures registry.handlers == UnregisterAll(old(registry.handlers), old(registered)) && registered == []
    {
      for i := 0 to |registered|
        invariant registered == old(registered)
        invariant registry.handlers == old(registry.handlers) - set id | id in registered[..i]
      {
        registry.handlers := registry.handlers - {registered[i]};
      }
      assert registered[..|registered|] == registered;
      registered := [];
    }
  }

  // ---- any interleaving of loads and unloads ----

  datatype Step = Load(owner: string, enabled: set<string>) | Unload(owner: string)

  /** The registry, and what each loaded entry's manager was built with and registered. */
  datatype Loaded = Loaded(enabled: set<string>, registered: seq<string>, urls: map<string, string>)
  datatype Hub = Hub(handlers: map<string, Handler>, loaded: map<string, Loaded>)

  /** foreign: what other integrations hold in the registry before any of these entries loads. */
  function Start(foreign: map<string, Handler>): Hub {
    Hub(foreign, map[])
  }

  function Unloaded(h: Hub, o: string): Hub
    requires o in h.loaded
  {
    Hub(UnregisterAll(h.handlers, h.loaded[o].registered), h.loaded - {o})
  }

  /** suffixes: the id suffix of each config entry. An entry is loaded at most once at a time. */
  function After(suffixes: map<string, string>, h: Hub, step: Step): Hub {
    match step
    case Load(o, enabled) =>
      if o in h.loaded || o !in suffixes then h
      else
        var r := RegisterAll(h.handlers, o, suffixes[o], enabled);
        Hub(r.handlers, h.loaded[o := Loaded(enabled, r.registered, r.urls)])
    case Unload(o) =>
      if o !in h.loaded then h
      else Unloaded(h, o)
  }

  function AfterAll(suffixes: map<string, string>, foreign: map<string, Handler>, steps: seq<Step>): Hub {
    if steps == [] then Start(foreign)
    else After(suffixes, AfterAll(suffixes, foreign, steps[..|steps| - 1]), steps[|steps| - 1])
  }

  predicate Owns(suffixes: map<string, string>, h: Hub, o: string, c: string, id: string) {
    && o in h.loaded && o in suffixes && c in Categories() && c in h.loaded[o].enabled
    && id == WebhookId(c, suffixes[o])
  }

  /** Every handler is a foreign one, still in place, or one of a loaded manager's. */
  predicate NothingElse(suffixes: map<string, string>, foreign: map<string, Handler>, h: Hub) {
    && (forall id :: id in foreign ==> id in h.handlers && h.handlers[id] == foreign[id])
    && (forall id :: id in h.handlers && id !in foreign ==>
          Owns(suffixes, h, h.handlers[id].owner, h.handlers[id].category, id))
  }

  /** This manager reaches each of its enabled categories through its own handler. */
  predicate Served(h: Hub, o: string, c: string, id: string) {
    && id in h.handlers && h.handlers[id] == Handler(o, c)
    && o in h.loaded && id in h.loaded[o].registered && c in h.loaded[o].urls && h.loaded[o].urls[c] == id
  }

  ghost predicate AllServed(suffixes: map<string, string>, h: Hub) {
    forall o, c, id :: Owns(suffixes, h, o, c, id) ==> Served(h, o, c, id)
  }

  /** A manager lists only ids of its own handlers. */
  ghost predicate OwnIds(foreign: map<string, Handler>, h: Hub) {
    forall o, id :: o in h.loaded && id in h.loaded[o].registered ==>
      id !in foreign && id in h.handlers && h.handlers[id].owner == o
  }

  /** The registry is exactly the foreign handlers and the loaded managers' enabled categories, each
      bound to its owner. */
  ghost predicate Isolated(suffixes: map<string, string>, foreign: map<string, Handler>, h: Hub) {
    NothingElse(suffixes, foreign, h) && AllServed(suffixes, h) && OwnIds(foreign, h)
  }

  predicate DistinctSuffixes(suffixes: map<string, string>) {
    forall a, b :: a in suffixes && b in suffixes && a != b ==> suffixes[a] != suffixes[b]
  }

  /** No other integration holds an id these entries would use. */
  predicate NoneTaken(suffixes: map<string, string>, foreign: map<string, Handler>) {
    forall o, c :: o in suffixes && c in Categories() ==> WebhookId(c, suffixes[o]) !in foreign
  }

  /** The id of an enabled category of this list. */
  ghost predicate Wanted(suffix: string, enabled: set<string>, cs: seq<string>, id: string) {
    exists c :: c in cs && c in enabled && id == WebhookId(c, suffix)
  }

  /** r registered every enabled category of this list and touched nothing else. */
  ghost predicate Complete(handlers: map<string, Handler>, o: string, suffix: string, enabled: set<string>,
                           cs: seq<string>, r: Registration) {
    && (forall id :: id in r.handlers <==> id in handlers || Wanted(suffix, enabled, cs, id))
    && (forall id :: id in handlers ==> r.handlers[id] == handlers[id])
    && (forall c :: c in cs && c in enabled ==> r.handlers[WebhookId(c, suffix)] == Handler(o, c))
    && (forall id :: id in r.registered <==> Wanted(suffix, enabled, cs, id))
    && (forall c :: c in cs && c in enabled ==> c in r.urls && r.urls[c] == WebhookId(c, suffix))
  }

  lemma WantedGrows(suffix: string, enabled: set<string>, cs: seq<string>, c: string, id: string)
    ensures Wanted(suffix, enabled, cs + [c], id)
            <==> Wanted(suffix, enabled, cs, id) || (c in enabled && id == WebhookId(c, suffix))
  {
    hide WebhookId;
    assert forall d :: d in cs + [c] <==> d in cs || d == c;
    if Wanted(suffix, enabled, cs, id) {
      var d :| d in cs && d in enabled && id == WebhookId(d, suffix);
      assert d in cs + [c];
    }
  }

  lemma OneMoreCategory(handlers: map<string, Handler>, o: string, suffix: string, enabled: set<string>,
                        cs: seq<string>, c: string, r: Registration)
    requires Complete(handlers, o, suffix, enabled, cs, r)
    requires WebhookId(c, suffix) !in handlers
    requires forall d :: d in cs && WebhookId(d, suffix) == WebhookId(c, suffix) ==> d == c
    ensures var id := WebhookId(c, suffix);
            Complete(handlers, o, suffix, enabled, cs + [c],
                     if c !in enabled || id in r.handlers then r
                     else Registration(r.handlers[id := Handler(o, c)], r.registered + [id], r.urls[c := id]))
  {
    hide WebhookId, Wanted;
    forall id
      ensures Wanted(suffix, enabled, cs + [c], id) <==>
              Wanted(suffix, enabled, cs, id) || (c in enabled && id == WebhookId(c, suffix))
    {
      WantedGrows(suffix, enabled, cs, c, id);
    }
    if c in enabled && WebhookId(c, suffix) in r.handlers {
      TakenMeansListed(suffix, enabled, cs, c);
    }
    assert forall d :: d in cs + [c] <==> d in cs || d == c;
    assert forall d :: d in cs && d in enabled ==> WebhookId(d, suffix) in r.handlers by {
      forall d | d in cs && d in enabled ensures Wanted(suffix, enabled, cs, WebhookId(d, suffix)) {
        WantedHere(suffix, enabled, cs, d);
      }
    }
  }

  lemma WantedHere(suffix: string, enabled: set<string>, cs: seq<string>, c: string)
    requires c in cs && c in enabled
    ensures Wanted(suffix, enabled, cs, WebhookId(c, suffix))
  {
  }

  lemma TakenMeansListed(suffix: string, enabled: set<string>, cs: seq<string>, c: string)
    requires Wanted(suffix, enabled, cs, WebhookId(c, suffix))
    requires forall d :: d in cs && WebhookId(d, suffix) == WebhookId(c, suffix) ==> d == c
    ensures c in cs
  {
    hide WebhookId;
  }

  /** With none of its ids taken, a manager registers every enabled category of this list. */
  lemma {:induction false} RegistersEverything(handlers: map<string, Handler>, o: string, suffix: string,
                                               enabled: set<string>, cs: seq<string>)
    requires forall c :: c in cs ==> c in Categories() && WebhookId(c, suffix) !in handlers
    ensures Complete(handlers, o, suffix, enabled, cs, RegisterFrom(handlers, o, suffix, enabled, cs))
  {
    hide WebhookId, Categories;
    if cs != [] {
      hide Complete;
      var pre, c := cs[..|cs| - 1], cs[|cs| - 1];
      RegistersEverything(handlers, o, suffix, enabled, pre);
      forall d | d in pre && WebhookId(d, suffix) == WebhookId(c, suffix) ensures d == c {
        DistinctIds(d, c, suffix);
      }
      OneMoreCategory(handlers, o, suffix, enabled, pre, c, RegisterFrom(handlers, o, suffix, enabled, pre));
      assert cs == pre + [c];
    }
  }

  lemma DistinctIds(a: string, b: string, suffix: string)
    requires a in Categories() && b in Categories() && WebhookId(a, suffix) == WebhookId(b, suffix)
    ensures a == b
  {
    WebhookIdsAreDistinct(a, suffix, b, suffix);
  }

  lemma NothingTaken(suffixes: map<string, string>, foreign: map<string, Handler>, h: Hub, o: string, c: string)
    requires DistinctSuffixes(suffixes) && NoneTaken(suffixes, foreign) && Isolated(suffixes, foreign, h)
    requires o !in h.loaded && o in suffixes && c in Categories()
    ensures WebhookId(c, suffixes[o]) !in h.handlers
  {
    hide WebhookId, AllServed, OwnIds;
    var id := WebhookId(c, suffixes[o]);
    if id in h.handlers {
      var w := h.handlers[id];
      WebhookIdsAreDistinct(c, suffixes[o], w.category, suffixes[w.owner]);
    }
  }

  function LoadedHub(h: Hub, o: string, enabled: set<string>, r: Registration): Hub {
    Hub(r.handlers, h.loaded[o := Loaded(enabled, r.registered, r.urls)])
  }

  lemma LoadKeepsIsolation(suffixes: map<string, string>, foreign: map<string, Handler>, h: Hub, o: string,
                           enabled: set<string>)
    requires DistinctSuffixes(suffixes) && NoneTaken(suffixes, foreign) && Isolated(suffixes, foreign, h)
    requires o !in h.loaded && o in suffixes
    ensures Isolated(suffixes, foreign, After(suffixes, h, Load(o, enabled)))
  {
    hide WebhookId, RegisterFrom, Categories, DistinctSuffixes, NoneTaken, NothingElse, AllServed, OwnIds, Complete,
        Wanted;
    forall c | c in Categories() ensures WebhookId(c, suffixes[o]) !in h.handlers {
      NothingTaken(suffixes, foreign, h, o, c);
    }
    RegistersEverything(h.handlers, o, suffixes[o], enabled, Categories());
    var r := RegisterAll(h.handlers, o, suffixes[o], enabled);
    LoadedNothingElse(suffixes, foreign, h, o, enabled, r);
    LoadedServed(suffixes, h, o, enabled, r);
    LoadedOwnIds(suffixes, foreign, h, o, enabled, r);
  }

  lemma LoadedNothingElse(suffixes: map<string, string>, foreign: map<string, Handler>, h: Hub, o: string,
                          enabled: set<string>, r: Registration)
    requires NothingElse(suffixes, foreign, h) && o !in h.loaded && o in suffixes
    requires Complete(h.handlers, o, suffixes[o], enabled, Categories(), r)
    ensures NothingElse(suffixes, foreign, LoadedHub(h, o, enabled, r))
  {
    hide WebhookId, Categories;
    var next := LoadedHub(h, o, enabled, r);
    forall id | id in next.handlers && id !in foreign
      ensures Owns(suffixes, next, next.handlers[id].owner, next.handlers[id].category, id)
    {
      if id in h.handlers {
        assert Owns(suffixes, h, h.handlers[id].owner, h.handlers[id].category, id);
      }
    }
  }

  lemma LoadedServed(suffixes: map<string, string>, h: Hub, o: string, enabled: set<string>, r: Registration)
    requires AllServed(suffixes, h) && o !in h.loaded && o in suffixes
    requires Complete(h.handlers, o, suffixes[o], enabled, Categories(), r)
    requires forall c :: c in Categories() ==> WebhookId(c, suffixes[o]) !in h.handlers
    ensures AllServed(suffixes, LoadedHub(h, o, enabled, r))
  {
    hide WebhookId, Categories;
    var next := LoadedHub(h, o, enabled, r);
    forall p, c, id | Owns(suffixes, next, p, c, id) ensures Served(next, p, c, id) {
      if p == o {
        WantedHere(suffixes[o], enabled, Categories(), c);
      } else {
        assert Owns(suffixes, h, p, c, id);
      }
    }
  }

  lemma LoadedOwnIds(suffixes: map<string, string>, foreign: map<string, Handler>, h: Hub, o: string,
                     enabled: set<string>, r: Registration)
    requires OwnIds(foreign, h) && NothingElse(suffixes, foreign, h) && o !in h.loaded && o in suffixes
    requires Complete(h.handlers, o, suffixes[o], enabled, Categories(), r)
    requires forall c :: c in Categories() ==> WebhookId(c, suffixes[o]) !in h.handlers
    ensures OwnIds(foreign, LoadedHub(h, o, enabled, r))
  {
    hide WebhookId, Categories;
    var next := LoadedHub(h, o, enabled, r);
    forall p, id | p in next.loaded && id in next.loaded[p].registered
      ensures id !in foreign && id in next.handlers && next.handlers[id].owner == p
    {
      if p != o {
        assert p in h.loaded && id in h.loaded[p].registered;
      }
    }
  }

  lemma UnloadKeepsIsolation(suffixes: map<string, string>, foreign: map<string, Handler>, h: Hub, o: string)
    requires Isolated(suffixes, foreign, h) && o in h.loaded
    ensures Isolated(suffixes, foreign, After(suffixes, h, Unload(o)))
  {
    hide NothingElse, AllServed, OwnIds, Unloaded, RegisterAll;
    UnloadedNothingElse(suffixes, foreign, h, o);
    UnloadedServed(suffixes, foreign, h, o);
    UnloadedOwnIds(suffixes, foreign, h, o);
  }

  lemma UnloadedNothingElse(suffixes: map<string, string>, foreign: map<string, Handler>, h: Hub, o: string)
    requires Isolated(suffixes, foreign, h) && o in h.loaded
    ensures NothingElse(suffixes, foreign, Unloaded(h, o))
  {
    hide WebhookId, Categories;
    var next := Unloaded(h, o);
    forall id | id in next.handlers && id !in foreign
      ensures Owns(suffixes, next, next.handlers[id].owner, next.handlers[id].category, id)
    {
      assert Owns(suffixes, h, h.handlers[id].owner, h.handlers[id].category, id);
      assert Served(h, h.handlers[id].owner, h.handlers[id].category, id);
    }
  }

  lemma UnloadedServed(suffixes: map<string, string>, foreign: map<string, Handler>, h: Hub, o: string)
    requires Isolated(suffixes, foreign, h) && o in h.loaded
    ensures AllServed(suffixes, Unloaded(h, o))
  {
    hide WebhookId, Categories, NothingElse;
    var next := Unloaded(h, o);
    forall p, c, id | Owns(suffixes, next, p, c, id) ensures Served(next, p, c, id) {
      assert Owns(suffixes, h, p, c, id);
      assert Served(h, p, c, id);
    }
  }

  lemma UnloadedOwnIds(suffixes: map<string, string>, foreign: map<string, Handler>, h: Hub, o: string)
    requires Isolated(suffixes, foreign, h) && o in h.loaded
    ensures OwnIds(foreign, Unloaded(h, o))
  {
    hide NothingElse, AllServed;
    var next := Unloaded(h, o);
    forall p, id | p in next.loaded && id in next.loaded[p].registered
      ensures id !in foreign && id in next.handlers && next.handlers[id].owner == p
    {
      assert p != o && p in h.loaded && id in h.loaded[p].registered && h.handlers[id].owner == p;
    }
  }

  /** Over any interleaving of loads and unloads of entries with distinct suffixes, in a registry
      where no other integration holds their ids, no registration fails, and the registry is what
      was there and the loaded managers' enabled categories. */
  lemma {:induction false} ManagersAreIsolated(suffixes: map<string, string>, foreign: map<string, Handler>,
                                               steps: seq<Step>)
    requires DistinctSuffixes(suffixes) && NoneTaken(suffixes, foreign)
    ensures Isolated(suffixes, foreign, AfterAll(suffixes, foreign, steps))
  {
    hide After, Isolated, NoneTaken, DistinctSuffixes;
    if steps == [] {
      StartIsIsolated(suffixes, foreign);
    } else {
      var pre, step := steps[..|steps| - 1], steps[|steps| - 1];
      ManagersAreIsolated(suffixes, foreign, pre);
      var h := AfterAll(suffixes, foreign, pre);
      if step.Load? && step.owner !in h.loaded && step.owner in suffixes {
        LoadKeepsIsolation(suffixes, foreign, h, step.owner, step.enabled);
      } else if step.Unload? && step.owner in h.loaded {
        UnloadKeepsIsolation(suffixes, foreign, h, step.owner);
      } else {
        IdleStep(suffixes, h, step);
      }
    }
  }

  lemma StartIsIsolated(suffixes: map<string, string>, foreign: map<string, Handler>)
    ensures Isolated(suffixes, foreign, Start(foreign))
  {
  }

  lemma IdleStep(suffixes: map<string, string>, h: Hub, step: Step)
    requires step.Load? ==> step.owner in h.loaded || step.owner !in suffixes
    requires step.Unload? ==> step.owner !in h.loaded
    ensures After(suffixes, h, step) == h
  {
  }

  /** With a shared suffix, a category both entries enable is lost to the second. */
  lemma SharedSuffixLosesCategories(suffixes: map<string, string>, foreign: map<string, Handler>, a: string,
                                    b: string, both: set<string>, c: string)
    requires a in suffixes && b in suffixes && a != b && suffixes[a] == suffixes[b] && NoneTaken(suffixes, foreign)
    requires c in Categories() && c in both
    ensures var h := AfterAll(suffixes, foreign, [Load(a, both), Load(b, both)]);
            b in h.loaded && c !in h.loaded[b].urls && !Isolated(suffixes, foreign, h)
  {
    hide WebhookId, RegisterFrom, Isolated, Categories, Wanted;
    RegistersEverything(foreign, a, suffixes[a], both, Categories());
    var one := RegisterAll(foreign, a, suffixes[a], both);
    forall d | d in Categories() && d in both ensures WebhookId(d, suffixes[b]) in one.handlers {
      WantedHere(suffixes[a], both, Categories(), d);
    }
    RegistersNothing(one.handlers, b, suffixes[b], both, Categories());
    TwoLoads(suffixes, foreign, a, b, both);
    NotIsolated(suffixes, foreign, AfterAll(suffixes, foreign, [Load(a, both), Load(b, both)]), b, c);
  }

  lemma TwoLoads(suffixes: map<string, string>, foreign: map<string, Handler>, a: string, b: string, both: set<string>)
    requires a in suffixes && b in suffixes && a != b
    ensures var one := RegisterAll(foreign, a, suffixes[a], both);
            var two := RegisterAll(one.handlers, b, suffixes[b], both);
            AfterAll(suffixes, foreign, [Load(a, both), Load(b, both)])
            == Hub(two.handlers, map[a := Loaded(both, one.registered, one.urls),
                                     b := Loaded(both, two.registered, two.urls)])
  {
    hide RegisterAll;
    var steps := [Load(a, both), Load(b, both)];
    assert steps[..1] == [Load(a, both)] && steps[..1][..0] == [];
    assert AfterAll(suffixes, foreign, []) == Start(foreign);
    assert AfterAll(suffixes, foreign, steps[..1]) == After(suffixes, Start(foreign), Load(a, both));
  }

  lemma NotIsolated(suffixes: map<string, string>, foreign: map<string, Handler>, h: Hub, o: string, c: string)
    requires o in h.loaded && o in suffixes && c in Categories() && c in h.loaded[o].enabled && c !in h.loaded[o].urls
    ensures !Isolated(suffixes, foreign, h)
  {
    hide WebhookId, Categories;
    assert Owns(suffixes, h, o, c, WebhookId(c, suffixes[o]));
  }

  /** An id another integration already holds is a category its entry never gets. */
  lemma TakenIdLosesCategory(suffixes: map<string, string>, foreign: map<string, Handler>, o: string, c: string)
    requires o in suffixes && c in Categories() && WebhookId(c, suffixes[o]) in foreign
    ensures var h := AfterAll(suffixes, foreign, [Load(o, {c})]);
            o in h.loaded && c !in h.loaded[o].urls && !Isolated(suffixes, foreign, h)
  {
    hide WebhookId, RegisterFrom, Isolated, Categories;
    RegistersNothing(foreign, o, suffixes[o], {c}, Categories());
    var steps := [Load(o, {c})];
    assert steps[..0] == [];
    assert AfterAll(suffixes, foreign, []) == Start(foreign);
    assert AfterAll(suffixes, foreign, steps) == After(suffixes, Start(foreign), Load(o, {c}));
    NotIsolated(suffixes, foreign, AfterAll(suffixes, foreign, steps), o, c);
  }

  /** Distinct suffixes, and ids nobody else holds, are exactly what isolation needs. */
  lemma IsolationNeedsDistinctSuffixes(suffixes: map<string, string>, foreign: map<string, Handler>)
    ensures DistinctSuffixes(suffixes) && NoneTaken(suffixes, foreign) <==>
            forall steps :: Isolated(suffixes, foreign, AfterAll(suffixes, foreign, steps))
  {
    hide Isolated, AfterAll, WebhookId;
    if !NoneTaken(suffixes, foreign) {
      var o, c :| o in suffixes && c in Categories() && WebhookId(c, suffixes[o]) in foreign;
      TakenIdLosesCategory(suffixes, foreign, o, c);
      assert !Isolated(suffixes, foreign, AfterAll(suffixes, foreign, [Load(o, {c})]));
    } else if !DistinctSuffixes(suffixes) {
      var a, b :| a in suffixes && b in suffixes && a != b && suffixes[a] == suffixes[b];
      assert POWER in Categories();
      SharedSuffixLosesCategories(suffixes, foreign, a, b, {POWER}, POWER);
      assert !Isolated(suffixes, foreign, AfterAll(suffixes, foreign, [Load(a, {POWER}), Load(b, {POWER})]));
    } else {
      forall steps ensures Isolated(suffixes, foreign, AfterAll(suffixes, foreign, steps)) {
        ManagersAreIsolated(suffixes, foreign, steps);
      }
    }
  }

  lemma {:induction false} RegistersNothing(handlers: map<string, Handler>, o: string, suffix: string,
                                            enabled: set<string>, cs: seq<string>)
    requires forall c :: c in cs && c in enabled ==> WebhookId(c, suffix) in handlers
    ensures RegisterFrom(handlers, o, suffix, enabled, cs) == Registration(handlers, [], map[])
  {
    hide WebhookId;
    if cs != [] {
      RegistersNothing(handlers, o, suffix, enabled, cs[..|cs| - 1]);
    }
  }
}
