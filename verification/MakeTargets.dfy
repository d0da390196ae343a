/** scripts/validate_docs.py: what each make target implements through its dependencies, found by a
    memoised search, against plain reachability. */
module MakeTargets {
  import Severity

  /** A rule: its dependencies in order and its recipe lines. */
  datatype Rule = Rule(deps: seq<string>, commands: seq<string>)

  type Makefile = map<string, Rule>

  // ---- what one recipe implements ----

  function Joined(lines: seq<string>): string {
    if lines == [] then "" else if |lines| == 1 then lines[0] else lines[0] + "\n" + Joined(lines[1..])
  }

  predicate OccursAt(text: string, part: string, i: nat) {
    i + |part| <= |text| && text[i..i + |part|] == part
  }

  predicate Contains(text: string, part: string) {
    exists i :: 0 <= i <= |text| && OccursAt(text, part, i)
  }

  function Direct(commands: seq<string>): set<string> {
    var text := Severity.Lower(Joined(commands));
    (if Contains(text, "check_translations.py") then {"translation_drift"} else {})
    + (if Contains(text, "validate_docs.py") then {"docs_prose"} else {})
    + (if Contains(text, "validate_hacs.py") then {"hacs_preflight"} else {})
  }

  /** The line has this script's name in it, in any case. */
  ghost predicate Mentions(line: string, script: string) {
    exists i: nat :: MatchesAt(line, script, i)
  }

  predicate MatchesAt(line: string, script: string, i: nat) {
    i + |script| <= |line| && Matches(line[i..i + |script|], script)
  }

  predicate Matches(text: string, script: string) {
    |text| == |script| && forall j :: 0 <= j < |script| ==> SameLetter(text[j], script[j])
  }

  /** a is the lower-case letter or sign b, in either case. */
  predicate SameLetter(a: char, b: char) {
    a == b || ('a' <= b <= 'z' && a as int + 32 == b as int)
  }

  /** A script's name: not empty, one line, no capitals. */
  predicate IsScript(script: string) {
    script != "" && forall j :: 0 <= j < |script| ==> script[j] != '\n' && !('A' <= script[j] <= 'Z')
  }

  lemma LowerMatches(text: string, script: string)
    requires IsScript(script)
    ensures Severity.Lower(text) == script <==> Matches(text, script)
  {
    if Severity.Lower(text) == script {
      forall j | 0 <= j < |script| ensures SameLetter(text[j], script[j]) {
        assert Severity.Lower(text)[j] == script[j];
      }
    }
  }

  lemma LowerMentions(text: string, script: string)
    requires IsScript(script)
    ensures Contains(Severity.Lower(text), script) <==> Mentions(text, script)
  {
    hide Matches, IsScript;
    var lower, n := Severity.Lower(text), |script|;
    forall i: nat | i + n <= |text| ensures OccursAt(lower, script, i) <==> MatchesAt(text, script, i) {
      assert Severity.Lower(text[i..i + n]) == lower[i..i + n];
      LowerMatches(text[i..i + n], script);
    }
    if Contains(lower, script) {
      var i :| 0 <= i <= |lower| && OccursAt(lower, script, i);
      assert MatchesAt(text, script, i);
    }
    if Mentions(text, script) {
      var i: nat :| MatchesAt(text, script, i);
      assert OccursAt(lower, script, i);
    }
  }

  lemma NoBreakInside(text: string, script: string, k: nat)
    requires IsScript(script) && k < |text| && text[k] == '\n'
    ensures !Matches(text, script)
  {
    if |text| == |script| {
      assert !SameLetter(text[k], script[k]);
    }
  }

  lemma MentionsAcross(a: string, b: string, script: string)
    requires IsScript(script)
    ensures Mentions(a + "\n" + b, script) <==> Mentions(a, script) || Mentions(b, script)
  {
    hide Matches, IsScript;
    var text, n := a + "\n" + b, |script|;
    if Mentions(a, script) {
      var i: nat :| MatchesAt(a, script, i);
      assert text[i..i + n] == a[i..i + n];
      assert MatchesAt(text, script, i);
    }
    if Mentions(b, script) {
      var i: nat :| MatchesAt(b, script, i);
      var k := |a| + 1 + i;
      assert text[k..k + n] == b[i..i + n];
      assert MatchesAt(text, script, k);
    }
    if Mentions(text, script) {
      var i: nat :| MatchesAt(text, script, i);
      if i + n <= |a| {
        assert text[i..i + n] == a[i..i + n];
        assert MatchesAt(a, script, i);
      } else if i > |a| {
        var k := i - |a| - 1;
        assert text[i..i + n] == b[k..k + n];
        assert MatchesAt(b, script, k);
      } else {
        NoBreakInside(text[i..i + n], script, |a| - i);
      }
    }
  }

  lemma {:induction false} JoinedMentions(lines: seq<string>, script: string)
    requires IsScript(script)
    ensures Mentions(Joined(lines), script) <==> exists line :: line in lines && Mentions(line, script)
  {
    if |lines| > 1 {
      hide Mentions, IsScript;
      JoinedMentions(lines[1..], script);
      MentionsAcross(lines[0], Joined(lines[1..]), script);
      assert forall line :: line in lines <==> line == lines[0] || line in lines[1..];
    } else if |lines| == 1 {
      assert forall line :: line in lines <==> line == lines[0];
    }
  }

  /** A recipe implements a capability exactly when one of its lines mentions that script. */
  lemma DirectExactly(commands: seq<string>)
    ensures "translation_drift" in Direct(commands) <==>
            exists line :: line in commands && Mentions(line, "check_translations.py")
    ensures "docs_prose" in Direct(commands) <==>
            exists line :: line in commands && Mentions(line, "validate_docs.py")
    ensures "hacs_preflight" in Direct(commands) <==>
            exists line :: line in commands && Mentions(line, "validate_hacs.py")
    ensures Direct(commands) <= {"translation_drift", "docs_prose", "hacs_preflight"}
  {
    hide Mentions, Contains, Joined;
    var text := Joined(commands);
    var c, d, h := "check_translations.py", "validate_docs.py", "validate_hacs.py";
    LowerMentions(text, c);
    LowerMentions(text, d);
    LowerMentions(text, h);
    JoinedMentions(commands, c);
    JoinedMentions(commands, d);
    JoinedMentions(commands, h);
    assert |"translation_drift"| == 17 && |"docs_prose"| == 10 && |"hacs_preflight"| == 14;
  }

  function Own(g: Makefile, name: string): set<string>
    requires name in g
  {
    Direct(g[name].commands)
  }

  // ---- the memoised search ----

  type Cache = map<string, set<string>>

  datatype Found = Found(cache: Cache, out: set<string>)

  /** resolve(name): the cache after and the returned set. */
  function Resolve(g: Makefile, cache: Cache, visiting: set<string>, name: string): Found
    requires name in g
    decreases g.Keys - visiting, 0, 0
  {
    if name in cache then Found(cache, cache[name])
    else if name in visiting then Found(cache, {})
    else
      var r := ResolveDeps(g, cache, visiting + {name}, g[name].deps, Own(g, name));
      Found(r.cache[name := r.out], r.out)
  }

  /** The loop over dependencies that are targets, starting from `out`. */
  function ResolveDeps(g: Makefile, cache: Cache, visiting: set<string>, deps: seq<string>, out: set<string>): Found
    decreases g.Keys - visiting, 1, |deps|
  {
    if deps == [] then Found(cache, out)
    else
      var mid := ResolveDeps(g, cache, visiting, deps[..|deps| - 1], out);
      var dep := deps[|deps| - 1];
      if dep in g then
        var r := Resolve(g, mid.cache, visiting, dep);
        Found(r.cache, mid.out + r.out)
      else mid
  }

  /** Every target in some iteration order. */
  function ResolveAll(g: Makefile, order: seq<string>): Cache
    requires forall name :: name in order ==> name in g
  {
    if order == [] then map[] else Resolve(g, ResolveAll(g, order[..|order| - 1]), {}, order[|order| - 1]).cache
  }

  class CapabilityResolver {
    const targets: Makefile
    var cache: Cache
    var visiting: set<string>

    constructor (targets: Makefile)
      ensures this.targets == targets && cache == map[] && visiting == {}
    {
      this.targets := targets;
      cache, visiting := map[], {};
    }

    method ResolveOne(name: string) returns (out: set<string>)
      requires name in targets
      modifies this
      ensures Found(cache, out) == Resolve(targets, old(cache), old(visiting), name)
      ensures visiting == old(visiting)
      decreases targets.Keys - visiting
    {
      if name in cache {
        return cache[name];
      }
      if name in visiting {
        return {};
      }
      hide Direct;
      ghost var cache0, visiting0 := cache, visiting;
      visiting := visiting + {name};
      var deps := targets[name].deps;
      out := Own(targets, name);
      for i := 0 to |deps|
        invariant visiting == visiting0 + {name}
        invariant Found(cache, out) == ResolveDeps(targets, cache0, visiting, deps[..i], Own(targets, name))
      {
        assert deps[..i + 1][..i] == deps[..i];
        if deps[i] in targets {
          var more := ResolveOne(deps[i]);
          out := out + more;
        }
      }
      assert deps[..|deps|] == deps;
      visiting := visiting - {name};
      cache := cache[name := out];
    }

    /** _target_capabilities: the cache after resolving every target. */
    method TargetCapabilities(order: seq<string>) returns (capabilities: Cache)
      requires cache == map[] && visiting == {}
      requires forall name :: name in order ==> name in targets
      modifies this
      ensures capabilities == ResolveAll(targets, order)
    {
      hide Resolve;
      for i := 0 to |order|
        invariant visiting == {} && cache == ResolveAll(targets, order[..i])
      {
        assert order[..i + 1][..i] == order[..i];
        var out := ResolveOne(order[i]);
      }
      assert order[..|order|] == order;
      capabilities := cache;
    }
  }

  // ---- plain reachability ----

  predicate Edge(g: Makefile, a: string, b: string) {
    a in g && b in g && b in g[a].deps
  }

  predicate IsPath(g: Makefile, p: seq<string>) {
    |p| > 0 && p[0] in g && forall i :: 0 <= i < |p| - 1 ==> Edge(g, p[i], p[i + 1])
  }

  ghost predicate Reaches(g: Makefile, a: string, b: string) {
    exists p :: IsPath(g, p) && p[0] == a && p[|p| - 1] == b
  }

  /** The capability is directly implemented by some target reachable from this one. */
  ghost predicate Implements(g: Makefile, a: string, cap: string) {
    exists b :: b in g && Reaches(g, a, b) && cap in Own(g, b)
  }

  ghost predicate SoundFor(g: Makefile, a: string, caps: set<string>) {
    forall cap :: cap in caps ==> Implements(g, a, cap)
  }

  ghost predicate ExactFor(g: Makefile, a: string, caps: set<string>) {
    forall cap :: cap in caps <==> Implements(g, a, cap)
  }

  lemma ReachesItself(g: Makefile, a: string)
    requires a in g
    ensures Reaches(g, a, a)
  {
    assert IsPath(g, [a]) && [a][0] == a;
  }

  lemma EdgeThenReach(g: Makefile, a: string, b: string, c: string)
    requires Edge(g, a, b) && Reaches(g, b, c)
    ensures Reaches(g, a, c)
  {
    var p :| IsPath(g, p) && p[0] == b && p[|p| - 1] == c;
    var q := [a] + p;
    forall i | 0 <= i < |q| - 1 ensures Edge(g, q[i], q[i + 1]) {
      if i > 0 {
        assert Edge(g, p[i - 1], p[i - 1 + 1]);
      }
    }
    assert IsPath(g, q) && q[0] == a && q[|q| - 1] == c;
  }

  lemma ReachThenEdge(g: Makefile, a: string, b: string, c: string)
    requires Reaches(g, a, b) && Edge(g, b, c)
    ensures Reaches(g, a, c)
  {
    var p :| IsPath(g, p) && p[0] == a && p[|p| - 1] == b;
    var q := p + [c];
    assert IsPath(g, q) && q[0] == a && q[|q| - 1] == c;
  }

  /** A target implements its own recipe, and what any dependency implements. */
  lemma ImplementsThroughEdge(g: Makefile, a: string, cap: string)
    requires a in g
    ensures cap in Own(g, a) ==> Implements(g, a, cap)
    ensures forall d :: Edge(g, a, d) && Implements(g, d, cap) ==> Implements(g, a, cap)
  {
    hide Direct, Reaches;
    ReachesItself(g, a);
    forall d | Edge(g, a, d) && Implements(g, d, cap) ensures Implements(g, a, cap) {
      var b :| b in g && Reaches(g, d, b) && cap in Own(g, b);
      EdgeThenReach(g, a, d, b);
    }
  }

  // ---- soundness: on every graph, cyclic or not ----

  ghost predicate CacheSound(g: Makefile, cache: Cache) {
    forall x :: x in cache ==> x in g && SoundFor(g, x, cache[x])
  }

  lemma {:induction false} ResolveSound(g: Makefile, cache: Cache, visiting: set<string>, name: string)
    requires name in g && CacheSound(g, cache)
    ensures var r := Resolve(g, cache, visiting, name); CacheSound(g, r.cache) && SoundFor(g, name, r.out)
    decreases g.Keys - visiting, 0, 0
  {
    hide Own, Implements;
    if name !in cache && name !in visiting {
      forall cap | cap in Own(g, name) ensures Implements(g, name, cap) {
        ImplementsThroughEdge(g, name, cap);
      }
      ResolveDepsSound(g, cache, visiting + {name}, name, g[name].deps, Own(g, name));
    }
  }

  lemma {:induction false} ResolveDepsSound(g: Makefile, cache: Cache, visiting: set<string>, parent: string,
                                            deps: seq<string>, out: set<string>)
    requires parent in g && (forall d :: d in deps ==> d in g[parent].deps) && CacheSound(g, cache)
             && SoundFor(g, parent, out)
    ensures var r := ResolveDeps(g, cache, visiting, deps, out); CacheSound(g, r.cache) && SoundFor(g, parent, r.out)
    decreases g.Keys - visiting, 1, |deps|
  {
    hide Own, Implements;
    if deps != [] {
      var pre, dep := deps[..|deps| - 1], deps[|deps| - 1];
      ResolveDepsSound(g, cache, visiting, parent, pre, out);
      if dep in g {
        var mid := ResolveDeps(g, cache, visiting, pre, out);
        ResolveSound(g, mid.cache, visiting, dep);
        forall cap | cap in Resolve(g, mid.cache, visiting, dep).out ensures Implements(g, parent, cap) {
          ImplementsThroughEdge(g, parent, cap);
          assert Edge(g, parent, dep);
        }
      }
    }
  }

  // ---- what a resolution adds to the cache ----

  /** The cache only grows, by targets that were not being visited; the name ends up cached. */
  predicate Grown(g: Makefile, before: Cache, after: Cache, visiting: set<string>) {
    && (forall x :: x in before ==> x in after && after[x] == before[x])
    && (forall x :: x in after && x !in before ==> x in g && x !in visiting)
  }

  lemma {:induction false} ResolveGrows(g: Makefile, cache: Cache, visiting: set<string>, name: string)
    requires name in g
    ensures var r := Resolve(g, cache, visiting, name);
            Grown(g, cache, r.cache, visiting) && (name in r.cache || name in visiting)
    decreases g.Keys - visiting, 0, 0
  {
    hide Own;
    if name !in cache && name !in visiting {
      ResolveDepsGrows(g, cache, visiting + {name}, g[name].deps, Own(g, name));
    }
  }

  lemma {:induction false} ResolveDepsGrows(g: Makefile, cache: Cache, visiting: set<string>, deps: seq<string>,
                                            out: set<string>)
    ensures var r := ResolveDeps(g, cache, visiting, deps, out);
            Grown(g, cache, r.cache, visiting) && forall d :: d in deps && d in g ==> d in r.cache || d in visiting
    decreases g.Keys - visiting, 1, |deps|
  {
    hide Own;
    if deps != [] {
      var pre, dep := deps[..|deps| - 1], deps[|deps| - 1];
      ResolveDepsGrows(g, cache, visiting, pre, out);
      assert forall d :: d in deps <==> d in pre || d == dep;
      if dep in g {
        ResolveGrows(g, ResolveDeps(g, cache, visiting, pre, out).cache, visiting, dep);
      }
    }
  }

  // ---- completeness for the first target, on every graph ----

  /** Each newly cached target has its own recipe in `out` and its dependencies cached or visited. */
  predicate Gathered(g: Makefile, before: Cache, after: Cache, visiting: set<string>, out: set<string>) {
    forall y :: y in after && y !in before ==>
      y in g && Own(g, y) <= out && forall d :: d in g[y].deps && d in g ==> d in after || d in visiting
  }

  lemma {:induction false} ResolveGathers(g: Makefile, cache: Cache, visiting: set<string>, name: string)
    requires name in g
    ensures var r := Resolve(g, cache, visiting, name); Gathered(g, cache, r.cache, visiting, r.out)
    decreases g.Keys - visiting, 0, 0
  {
    hide Own;
    if name !in cache && name !in visiting {
      ResolveDepsGathers(g, cache, visiting + {name}, g[name].deps, Own(g, name));
      ResolveDepsGrows(g, cache, visiting + {name}, g[name].deps, Own(g, name));
    }
  }

  lemma {:induction false} ResolveDepsGathers(g: Makefile, cache: Cache, visiting: set<string>, deps: seq<string>,
                                              out: set<string>)
    ensures var r := ResolveDeps(g, cache, visiting, deps, out);
            Gathered(g, cache, r.cache, visiting, r.out) && out <= r.out
    decreases g.Keys - visiting, 1, |deps|
  {
    hide Own;
    if deps != [] {
      var pre, dep := deps[..|deps| - 1], deps[|deps| - 1];
      ResolveDepsGathers(g, cache, visiting, pre, out);
      if dep in g {
        var mid := ResolveDeps(g, cache, visiting, pre, out);
        ResolveGathers(g, mid.cache, visiting, dep);
        ResolveGrows(g, mid.cache, visiting, dep);
      }
    }
  }

  lemma {:induction false} ClosedHoldsPaths(g: Makefile, closed: Cache, p: seq<string>)
    requires IsPath(g, p) && p[0] in closed
    requires forall y, d :: y in closed && Edge(g, y, d) ==> d in closed
    ensures p[|p| - 1] in closed
  {
    if |p| > 1 {
      var q := p[1..];
      assert Edge(g, p[0], p[0 + 1]);
      forall i | 0 <= i < |q| - 1 ensures Edge(g, q[i], q[i + 1]) {
        assert Edge(g, p[i + 1], p[i + 1 + 1]);
      }
      ClosedHoldsPaths(g, closed, q);
    }
  }

  /** The first target resolved is exact on any graph, cycles included. */
  lemma FirstTargetIsExact(g: Makefile, name: string)
    requires name in g
    ensures ExactFor(g, name, Resolve(g, map[], {}, name).out)
    ensures Resolve(g, map[], {}, name).cache[name] == Resolve(g, map[], {}, name).out
  {
    hide Direct;
    var r := Resolve(g, map[], {}, name);
    ResolveSound(g, map[], {}, name);
    ResolveGathers(g, map[], {}, name);
    ResolveGrows(g, map[], {}, name);
    forall cap | Implements(g, name, cap) ensures cap in r.out {
      var b :| b in g && Reaches(g, name, b) && cap in Own(g, b);
      var p :| IsPath(g, p) && p[0] == name && p[|p| - 1] == b;
      ClosedHoldsPaths(g, r.cache, p);
    }
  }

  // ---- completeness for every target without mutual dependencies ----

  /** No two distinct targets depend on each other; a target may name itself. */
  ghost predicate NoMutualDependency(g: Makefile) {
    forall a, b :: Reaches(g, a, b) && Reaches(g, b, a) ==> a == b
  }

  ghost predicate CacheExact(g: Makefile, cache: Cache) {
    forall x :: x in cache ==> x in g && ExactFor(g, x, cache[x])
  }

  /** What a target implements comes from its recipe or a dependency other than itself. */
  lemma {:induction false} ImplementsSplits(g: Makefile, a: string, p: seq<string>, cap: string)
    requires IsPath(g, p) && p[0] == a && p[|p| - 1] in g && cap in Own(g, p[|p| - 1])
    ensures cap in Own(g, a) || exists d :: d != a && Edge(g, a, d) && Implements(g, d, cap)
  {
    hide Direct;
    if |p| > 1 {
      var q := p[1..];
      assert Edge(g, p[0], p[0 + 1]);
      forall i | 0 <= i < |q| - 1 ensures Edge(g, q[i], q[i + 1]) {
        assert Edge(g, p[i + 1], p[i + 1 + 1]);
      }
      assert IsPath(g, q);
      if q[0] == a {
        ImplementsSplits(g, a, q, cap);
      } else {
        assert Reaches(g, q[0], q[|q| - 1]);
        assert Implements(g, q[0], cap);
      }
    }
  }

  /** The capabilities of these dependencies other than the parent itself. */
  ghost predicate FromDeps(g: Makefile, parent: string, deps: seq<string>, cap: string) {
    exists d :: d in deps && d in g && d != parent && Implements(g, d, cap)
  }

  lemma OneLevel(g: Makefile, a: string, cap: string)
    requires a in g
    ensures Implements(g, a, cap) <==> cap in Own(g, a) || FromDeps(g, a, g[a].deps, cap)
  {
    hide Direct;
    ImplementsThroughEdge(g, a, cap);
    if Implements(g, a, cap) {
      var b :| b in g && Reaches(g, a, b) && cap in Own(g, b);
      var p :| IsPath(g, p) && p[0] == a && p[|p| - 1] == b;
      ImplementsSplits(g, a, p, cap);
      if cap !in Own(g, a) {
        var d :| d != a && Edge(g, a, d) && Implements(g, d, cap);
        assert d in g[a].deps && d in g;
      }
    }
    if FromDeps(g, a, g[a].deps, cap) {
      var d :| d in g[a].deps && d in g && d != a && Implements(g, d, cap);
      assert Edge(g, a, d);
    }
  }

  lemma {:induction false} ResolveExact(g: Makefile, cache: Cache, visiting: set<string>, name: string)
    requires name in g && name !in visiting && NoMutualDependency(g) && CacheExact(g, cache)
    requires forall v :: v in visiting ==> Reaches(g, v, name)
    ensures var r := Resolve(g, cache, visiting, name); CacheExact(g, r.cache) && ExactFor(g, name, r.out)
    decreases g.Keys - visiting, 0, 0
  {
    hide Own, Implements, FromDeps, Reaches, NoMutualDependency;
    if name !in cache {
      ReachesItself(g, name);
      ResolveDepsExact(g, cache, visiting + {name}, name, g[name].deps, Own(g, name));
      forall cap ensures Implements(g, name, cap) <==> cap in Own(g, name) || FromDeps(g, name, g[name].deps, cap) {
        OneLevel(g, name, cap);
      }
    }
  }

  lemma FromDepsGrows(g: Makefile, parent: string, pre: seq<string>, dep: string, cap: string)
    ensures FromDeps(g, parent, pre + [dep], cap) <==>
            FromDeps(g, parent, pre, cap) || (dep in g && dep != parent && Implements(g, dep, cap))
  {
    hide Implements;
    assert forall d :: d in pre + [dep] <==> d in pre || d == dep;
  }

  lemma {:induction false} ResolveDepsExact(g: Makefile, cache: Cache, visiting: set<string>, parent: string,
                                            deps: seq<string>, out: set<string>)
    requires parent in g && parent in visiting && NoMutualDependency(g) && CacheExact(g, cache)
    requires forall d :: d in deps ==> d in g[parent].deps
    requires forall v :: v in visiting ==> Reaches(g, v, parent)
    requires parent !in cache
    ensures var r := ResolveDeps(g, cache, visiting, deps, out);
            CacheExact(g, r.cache) && forall cap :: cap in r.out <==> cap in out || FromDeps(g, parent, deps, cap)
    decreases g.Keys - visiting, 1, |deps|
  {
    hide Own, Implements, Reaches, FromDeps, NoMutualDependency;
    if deps == [] {
      forall cap ensures !FromDeps(g, parent, deps, cap) {
        NothingFromNoDeps(g, parent, cap);
      }
    } else {
      var pre, dep := deps[..|deps| - 1], deps[|deps| - 1];
      ResolveDepsExact(g, cache, visiting, parent, pre, out);
      assert deps == pre + [dep];
      forall cap ensures FromDeps(g, parent, deps, cap) <==>
                         FromDeps(g, parent, pre, cap) || (dep in g && dep != parent && Implements(g, dep, cap)) {
        FromDepsGrows(g, parent, pre, dep, cap);
      }
      if dep in g {
        var mid := ResolveDeps(g, cache, visiting, pre, out);
        ResolveDepsGrows(g, cache, visiting, pre, out);
        assert Edge(g, parent, dep);
        if dep in visiting {
          VisitedDepIsParent(g, parent, dep);
        } else {
          forall v | v in visiting ensures Reaches(g, v, dep) {
            ReachThenEdge(g, v, parent, dep);
          }
          ResolveExact(g, mid.cache, visiting, dep);
        }
      }
    }
  }

  lemma NothingFromNoDeps(g: Makefile, parent: string, cap: string)
    ensures !FromDeps(g, parent, [], cap)
  {
  }

  lemma VisitedDepIsParent(g: Makefile, parent: string, dep: string)
    requires NoMutualDependency(g) && Edge(g, parent, dep) && Reaches(g, dep, parent)
    ensures dep == parent
  {
    hide Reaches;
    ReachesItself(g, dep);
    EdgeThenReach(g, parent, dep, dep);
  }

  // ---- the whole run ----

  /** This list names every target, in any order. */
  ghost predicate Covers(g: Makefile, order: seq<string>) {
    forall name :: name in order <==> name in g
  }

  lemma {:induction false} EveryTargetCached(g: Makefile, order: seq<string>)
    requires forall name :: name in order ==> name in g
    ensures forall name :: name in ResolveAll(g, order) ==> name in g
    ensures forall name :: name in order ==> name in ResolveAll(g, order)
  {
    hide Resolve;
    if order != [] {
      EveryTargetCached(g, order[..|order| - 1]);
      ResolveGrows(g, ResolveAll(g, order[..|order| - 1]), {}, order[|order| - 1]);
    }
  }

  /** Soundness on every graph and every order: a cached set never claims a capability that no
      reachable target implements. */
  lemma {:induction false} CapabilitiesAreSound(g: Makefile, order: seq<string>)
    requires forall name :: name in order ==> name in g
    ensures CacheSound(g, ResolveAll(g, order))
  {
    hide Resolve;
    if order != [] {
      CapabilitiesAreSound(g, order[..|order| - 1]);
      ResolveSound(g, ResolveAll(g, order[..|order| - 1]), {}, order[|order| - 1]);
    }
  }

  lemma {:induction false} CapabilitiesAreExact(g: Makefile, order: seq<string>)
    requires NoMutualDependency(g) && forall name :: name in order ==> name in g
    ensures CacheExact(g, ResolveAll(g, order))
  {
    hide Resolve, NoMutualDependency;
    if order != [] {
      CapabilitiesAreExact(g, order[..|order| - 1]);
      ResolveExact(g, ResolveAll(g, order[..|order| - 1]), {}, order[|order| - 1]);
    }
  }

  // ---- a mutual dependency always costs something ----

  /** x's mark reaches the cache only once x itself is cached. */
  predicate MarkHeld(cache: Cache, x: string, mark: string) {
    x !in cache ==> forall y :: y in cache ==> mark !in cache[y]
  }

  /** Two targets do not both carry the other's mark. */
  predicate OneSided(cache: Cache, a: string, b: string, markA: string, markB: string) {
    !(a in cache && b in cache && markA in cache[b] && markB in cache[a])
  }

  predicate OnlyMark(g: Makefile, x: string, mark: string) {
    forall y :: y in g && mark in Own(g, y) ==> y == x
  }

  predicate Marks(g: Makefile, cache: Cache, a: string, b: string, markA: string, markB: string) {
    && a != b && OnlyMark(g, a, markA) && OnlyMark(g, b, markB)
    && MarkHeld(cache, a, markA) && MarkHeld(cache, b, markB) && OneSided(cache, a, b, markA, markB)
  }

  lemma {:induction false} ResolveMarks(g: Makefile, cache: Cache, visiting: set<string>, name: string,
                                        a: string, b: string, markA: string, markB: string)
    requires name in g && Marks(g, cache, a, b, markA, markB)
    ensures var r := Resolve(g, cache, visiting, name);
            && Marks(g, r.cache, a, b, markA, markB)
            && (markA in r.out ==> a in r.cache) && (markB in r.out ==> b in r.cache)
    decreases g.Keys - visiting, 0, 0
  {
    hide Own;
    if name !in cache && name !in visiting {
      ResolveDepsMarks(g, cache, visiting + {name}, g[name].deps, Own(g, name), name, a, b, markA, markB);
      ResolveDepsGrows(g, cache, visiting + {name}, g[name].deps, Own(g, name));
    }
  }

  lemma {:induction false} ResolveDepsMarks(g: Makefile, cache: Cache, visiting: set<string>, deps: seq<string>,
                                            out: set<string>, parent: string,
                                            a: string, b: string, markA: string, markB: string)
    requires Marks(g, cache, a, b, markA, markB)
    requires (markA in out ==> a == parent) && (markB in out ==> b == parent)
    ensures var r := ResolveDeps(g, cache, visiting, deps, out);
            && Marks(g, r.cache, a, b, markA, markB)
            && (markA in r.out ==> a in r.cache || a == parent) && (markB in r.out ==> b in r.cache || b == parent)
    decreases g.Keys - visiting, 1, |deps|
  {
    hide Own;
    if deps != [] {
      var pre, dep := deps[..|deps| - 1], deps[|deps| - 1];
      ResolveDepsMarks(g, cache, visiting, pre, out, parent, a, b, markA, markB);
      if dep in g {
        var mid := ResolveDeps(g, cache, visiting, pre, out);
        ResolveMarks(g, mid.cache, visiting, dep, a, b, markA, markB);
        ResolveGrows(g, mid.cache, visiting, dep);
      }
    }
  }

  lemma {:induction false} RunMarks(g: Makefile, order: seq<string>, a: string, b: string, markA: string, markB: string)
    requires forall name :: name in order ==> name in g
    requires a != b && OnlyMark(g, a, markA) && OnlyMark(g, b, markB)
    ensures Marks(g, ResolveAll(g, order), a, b, markA, markB)
  {
    hide Resolve, OnlyMark;
    if order != [] {
      RunMarks(g, order[..|order| - 1], a, b, markA, markB);
      ResolveMarks(g, ResolveAll(g, order[..|order| - 1]), {}, order[|order| - 1], a, b, markA, markB);
    }
  }

  /** The same dependencies with other recipes. */
  ghost predicate SameShape(g: Makefile, h: Makefile) {
    g.Keys == h.Keys && forall x :: x in g ==> g[x].deps == h[x].deps
  }

  lemma ShapeKeepsReach(g: Makefile, h: Makefile, a: string, b: string)
    requires SameShape(g, h) && Reaches(g, a, b)
    ensures Reaches(h, a, b)
  {
    var p :| IsPath(g, p) && p[0] == a && p[|p| - 1] == b;
    assert forall i :: 0 <= i < |p| - 1 ==> Edge(g, p[i], p[i + 1]) && Edge(h, p[i], p[i + 1]);
    assert IsPath(h, p);
  }

  /** The makefile with only two telling recipes. */
  function Marked(g: Makefile, a: string, b: string): Makefile {
    map x | x in g ::
      Rule(g[x].deps, if x == a then ["check_translations.py"] else if x == b then ["validate_docs.py"] else [])
  }

  lemma MarkedRecipes()
    ensures Direct(["check_translations.py"]) == {"translation_drift"}
    ensures Direct(["validate_docs.py"]) == {"docs_prose"}
    ensures Direct([]) == {}
  {
    var c, d, h := "check_translations.py", "validate_docs.py", "validate_hacs.py";
    assert Severity.Lower(Joined([c])) == c && Severity.Lower(Joined([d])) == d && Severity.Lower(Joined([])) == "";
    assert OccursAt(c, c, 0) && OccursAt(d, d, 0);
    NotInside(c, d);
    NotInside(c, h);
    assert !Contains(d, h) by {
      assert d[9] != h[9];
      assert forall i :: 0 <= i <= |d| && OccursAt(d, h, i) ==> i == 0 && d[0..16][9] == d[9];
    }
  }

  /** The first character of the part never appears early enough. */
  lemma NotInside(text: string, part: string)
    requires part != [] && forall i :: 0 <= i <= |text| - |part| ==> text[i] != part[0]
    ensures !Contains(text, part)
  {
    assert forall i :: 0 <= i <= |text| && OccursAt(text, part, i) ==> text[i] == text[i..i + |part|][0];
  }

  lemma MarkedIsWrongSomewhere(g: Makefile, order: seq<string>, a: string, b: string)
    requires Covers(g, order) && a != b && Reaches(g, a, b) && Reaches(g, b, a)
    ensures SameShape(g, Marked(g, a, b)) && !CacheExact(Marked(g, a, b), ResolveAll(Marked(g, a, b), order))
  {
    hide Direct, Reaches;
    var h := Marked(g, a, b);
    ShapeKeepsReach(g, h, a, b);
    ShapeKeepsReach(g, h, b, a);
    ReachesAreTargets(g, a, b);
    MarkedRecipes();
    RunMarks(h, order, a, b, "translation_drift", "docs_prose");
    EveryTargetCached(h, order);
    assert Implements(h, b, "translation_drift") by {
      assert "translation_drift" in Own(h, a);
    }
    assert Implements(h, a, "docs_prose") by {
      assert "docs_prose" in Own(h, b);
    }
  }

  lemma ReachesAreTargets(g: Makefile, a: string, b: string)
    requires Reaches(g, a, b)
    ensures a in g && b in g
  {
    var p :| IsPath(g, p) && p[0] == a && p[|p| - 1] == b;
    assert |p| > 1 ==> Edge(g, p[|p| - 2], p[|p| - 2 + 1]);
  }

  lemma ShapeKeepsNoMutual(g: Makefile, h: Makefile)
    requires SameShape(g, h) && NoMutualDependency(g)
    ensures NoMutualDependency(h)
  {
    hide Reaches;
    forall a, b | Reaches(h, a, b) && Reaches(h, b, a) ensures a == b {
      ShapeKeepsReach(h, g, a, b);
      ShapeKeepsReach(h, g, b, a);
    }
  }

  /** Exactly when the cache agrees with plain reachability: for any dependencies and any iteration
      order, every target is exact whatever the recipes are, if and only if no two distinct targets
      depend on each other. */
  lemma ExactExactlyWithoutMutualDependency(g: Makefile, order: seq<string>)
    requires Covers(g, order)
    ensures NoMutualDependency(g) <==>
            forall h: Makefile :: SameShape(g, h) ==>
                CacheExact(h, ResolveAll(h, order)) && ResolveAll(h, order).Keys == h.Keys
  {
    hide CacheExact, Reaches, ResolveAll;
    if NoMutualDependency(g) {
      forall h: Makefile | SameShape(g, h)
        ensures CacheExact(h, ResolveAll(h, order)) && ResolveAll(h, order).Keys == h.Keys
      {
        ShapeKeepsNoMutual(g, h);
        CapabilitiesAreExact(h, order);
        EveryTargetCached(h, order);
      }
    } else {
      var a, b :| Reaches(g, a, b) && Reaches(g, b, a) && a != b;
      MarkedIsWrongSomewhere(g, order, a, b);
      assert !CacheExact(Marked(g, a, b), ResolveAll(Marked(g, a, b), order));
    }
  }

  // ---- contiguous runs ----

  /** _contains_subsequence: an empty needle is never found. */
  method ContainsSubsequence(haystack: seq<string>, needle: seq<string>) returns (found: bool)
    ensures found <==>
            && needle != []
            && exists i :: 0 <= i <= |haystack| - |needle| && haystack[i..][..|needle|] == needle
  {
    if needle == [] || |needle| > |haystack| {
      return false;
    }
    var first := needle[0];
    for i := 0 to |haystack| - |needle| + 1
      invariant forall j :: 0 <= j < i ==> haystack[j..][..|needle|] != needle
    {
      if haystack[i] == first && haystack[i..][..|needle|] == needle {
        return true;
      }
      assert haystack[i] != first ==> haystack[i..][..|needle|][0] != needle[0];
    }
    return false;
  }
}
