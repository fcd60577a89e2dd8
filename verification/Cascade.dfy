/**
  The cascade on a first build: the walk of applyAggregates in hugolib/content_map_page.go, which hands the
  compiled cascades down the tree, and setMetaPost in hugolib/page__meta.go, which merges and applies them.
 */
module Cascade {
  import opened Common
  import opened DocTree

  type Matcher = nat
  type Value = nat
  type Params = map<string, Value>
  type Cascade = map<Matcher, Params>

  function Lookup(c: Option<Cascade>, m: Matcher, key: string): Option<Value>
  {
    if c.Some? && m in c.value && key in c.value[m] then Some(c.value[m][key]) else None
  }

  /** The cascade of a page on top of what comes from above: for every matcher and key its own value wins. */
  function Merge(own: Cascade, above: Cascade): Cascade
  {
    map m | m in own.Keys + above.Keys :: Entry(own, above, m)
  }

  function Entry(own: Cascade, above: Cascade, m: Matcher): Params
    requires m in own || m in above
  {
    if m !in above then own[m] else if m !in own then above[m] else Filled(own[m], above[m])
  }

  /** `params` with the entries of `v` whose keys are missing. */
  function Filled(params: Params, v: Params): Params
  {
    v + params
  }

  function Compile(own: Option<Cascade>, above: Option<Cascade>): Option<Cascade>
  {
    if above == None then own else if own == None then above else Some(Merge(own.value, above.value))
  }

  lemma CompiledLookup(own: Option<Cascade>, above: Option<Cascade>, m: Matcher, key: string)
    ensures Lookup(Compile(own, above), m, key)
         == if Lookup(own, m, key).Some? then Lookup(own, m, key) else Lookup(above, m, key)
  {}

  /**
    What the page may end up with: its front matter, and for every other key a value that some cascade entry
    whose matcher matches the page gives it. Map iteration decides between several.
   */
  ghost predicate Applied(front: Params, cascade: Option<Cascade>, matches: Matcher -> bool, params: Params)
  {
    && (forall key :: key in front ==> key in params && params[key] == front[key])
    && (forall key :: key in params && key !in front ==>
          exists m :: matches(m) && Lookup(cascade, m, key) == Some(params[key]))
    && (forall key, m :: matches(m) && Lookup(cascade, m, key).Some? ==> key in params)
  }

  /** The part of a page that setMetaPost works on. */
  class PageState {
    const matches: Matcher -> bool
    var params: Params
    var cascadeCompiled: Option<Cascade>

    constructor (front: Params, own: Option<Cascade>, matches: Matcher -> bool)
      ensures params == front && cascadeCompiled == own && this.matches == matches
    {
      params, cascadeCompiled, this.matches := front, own, matches;
    }

    /** Merges what comes from above into the page's cascade and applies the result to the page itself. */
    method SetMetaPost(above: Option<Cascade>)
      modifies this
      ensures cascadeCompiled == Compile(old(cascadeCompiled), above)
      ensures Applied(old(params), cascadeCompiled, matches, params)
    {
      if above.Some? {
        if cascadeCompiled.Some? {
          var merged := MergeInto(cascadeCompiled.value, above.value);
          cascadeCompiled := Some(merged);
        } else {
          cascadeCompiled := above;
        }
      }
      if cascadeCompiled.Some? {
        ApplyToSelf(cascadeCompiled.value);
      }
    }

    /** Cascade is also applied to the page itself, in no particular order. */
    method ApplyToSelf(cascade: Cascade)
      modifies this`params
      ensures Applied(old(params), Some(cascade), matches, params)
    {
      var todo := cascade.Keys;
      while todo != {}
        invariant todo <= cascade.Keys
        invariant forall key :: key in old(params) ==> key in params && params[key] == old(params)[key]
        invariant forall key :: key in params && key !in old(params) ==>
                    exists m :: matches(m) && Lookup(Some(cascade), m, key) == Some(params[key])
        invariant forall key, m :: m !in todo && matches(m) && Lookup(Some(cascade), m, key).Some? ==> key in params
        decreases |todo|
      {
        var m :| m in todo;
        todo := todo - {m};
        if matches(m) {
          params := AddMissing(params, cascade[m]);
        }
      }
    }
  }

  /** A map built up to `goal` except for the keys still to do, for which it holds what it began with. */
  ghost predicate BuiltUp<K(!new), V>(built: map<K, V>, start: map<K, V>, goal: map<K, V>, todo: set<K>)
  {
    && (forall k :: k in goal && k !in todo ==> k in built && built[k] == goal[k])
    && (forall k :: k in todo && k in start ==> k in built && built[k] == start[k])
    && (forall k :: k in built ==> k in goal && (k in todo ==> k in start))
  }

  lemma BuildOne<K(!new), V>(built: map<K, V>, start: map<K, V>, goal: map<K, V>, todo: set<K>, k: K, v: V)
    requires BuiltUp(built, start, goal, todo) && k in goal && goal[k] == v
    ensures BuiltUp(built[k := v], start, goal, todo - {k})
  {}

  lemma AllBuilt<K(!new), V>(built: map<K, V>, start: map<K, V>, goal: map<K, V>)
    requires BuiltUp(built, start, goal, {})
    ensures built == goal
  {
    assert built.Keys == goal.Keys;
  }

  /** Adds the entries of `v` whose keys are missing, in no particular order. */
  method AddMissing(params0: Params, v: Params) returns (params: Params)
    ensures params == Filled(params0, v)
  {
    params := params0;
    var todo := v.Keys;
    ghost var goal := Filled(params0, v);
    while todo != {}
      invariant todo <= v.Keys
      invariant BuiltUp(params, params0, goal, todo)
      decreases |todo|
    {
      var key :| key in todo;
      BuildOne(params, params0, goal, todo, key, goal[key]);
      todo := todo - {key};
      if key !in params {
        params := params[key := v[key]];
      } else {
        assert params[key := params[key]] == params;
      }
    }
    AllBuilt(params, params0, goal);
  }

  /** The merge of two cascades as the source does it, one matcher after the other in no particular order. */
  method MergeInto(own: Cascade, above: Cascade) returns (compiled: Cascade)
    ensures compiled == Merge(own, above)
  {
    compiled := own;
    var todo := above.Keys;
    ghost var goal := Merge(own, above);
    while todo != {}
      invariant todo <= above.Keys
      invariant BuiltUp(compiled, own, goal, todo)
      decreases |todo|
    {
      var m :| m in todo;
      var entry := above[m];
      if m in compiled {
        entry := AddMissing(compiled[m], above[m]);
      }
      BuildOne(compiled, own, goal, todo, m, entry);
      compiled := compiled[m := entry];
      todo := todo - {m};
    }
    AllBuilt(compiled, own, goal);
  }

  datatype Page = Page(branch: bool, term: bool, own: Option<Cascade>, front: Params, matches: Matcher -> bool)

  type PageTree = Tree<Page>

  /** Terms are left to a later pass. */
  predicate Visited(t: PageTree, k: string)
  {
    Here(t, k) && !t[k].value.term
  }

  /** The branch pages that the walk visits: they may hand a cascade down. */
  predicate Carrier(t: PageTree, k: string)
  {
    Visited(t, k) && t[k].value.branch
  }

  function Carriers(t: PageTree): set<string>
  {
    set k | k in t && Carrier(t, k)
  }

  /** What the page at `k` gets from above: at the top the site's own cascade. */
  function Above(t: PageTree, conf: Option<Cascade>, k: string): Option<Cascade>
    decreases |k|, 0
  {
    if k == "" then conf else Passed(t, conf, k[..|k| - 1])
  }

  /** The compiled cascade of the page at `k`, when the site's own cascade is `conf`. */
  function CompiledAt(t: PageTree, conf: Option<Cascade>, k: string): Option<Cascade>
    requires Visited(t, k)
    decreases |k|, 1
  {
    Compile(t[k].value.own, Above(t, conf, k))
  }

  /** The page at `s` hands its cascade down. */
  predicate Passes(t: PageTree, conf: Option<Cascade>, s: string)
    decreases |s|, 2
  {
    Carrier(t, s) && (s == "" || CompiledAt(t, conf, s).Some?)
  }

  /** The cascade that is found for `s`: that of the longest prefix, character by character, that hands one down. */
  function Passed(t: PageTree, conf: Option<Cascade>, s: string): Option<Cascade>
    decreases |s|, 3
  {
    if Passes(t, conf, s) then CompiledAt(t, conf, s)
    else if s == "" then None
    else Passed(t, conf, s[..|s| - 1])
  }

  type Data = map<string, Option<Cascade>>

  /** The walk's shared data: what the branch pages that it has come past hand down. */
  ghost predicate Holds(data: Data, t: PageTree, conf: Option<Cascade>, past: seq<string>)
  {
    && (forall s :: s in data <==> s in past && Passes(t, conf, s))
    && (forall s :: s in data ==> data[s] == CompiledAt(t, conf, s))
  }

  function Find(data: Data, s: string): Option<Cascade>
  {
    var r := LongestKey(data.Keys, s);
    if r.Some? && r.value in data then data[r.value] else None
  }

  /** The lookup in the shared data finds what the pages above hand down: all of them have been visited before. */
  lemma {:induction false} FindIsPassed(data: Data, t: PageTree, conf: Option<Cascade>, order: seq<string>, i: nat, s: string)
    requires Walks(order, t.Keys) && i < |order| && Holds(data, t, conf, order[..i])
    requires HasPrefix(order[i], s) && s != order[i]
    ensures Find(data, s) == Passed(t, conf, s)
    decreases |s|
  {
    if s in t {
      var j :| 0 <= j < |order| && order[j] == s;
      PrefixIsNotAfter(s, order[i]);
      assert j < i;
      assert order[..i][j] == s;
    }
    if !Passes(t, conf, s) && s != "" {
      var p := s[..|s| - 1];
      assert order[i][..|p|] == s[..|p|];
      FindIsPassed(data, t, conf, order, i, p);
    }
  }

  /** For the key itself, which hands down nothing yet. */
  lemma FindForKey(data: Data, t: PageTree, conf: Option<Cascade>, order: seq<string>, i: nat)
    requires Walks(order, t.Keys) && i < |order| && Holds(data, t, conf, order[..i]) && order[i] != ""
    ensures Find(data, order[i]) == Passed(t, conf, order[i][..|order[i]| - 1])
  {
    var k := order[i];
    if k in order[..i] {
      var j :| 0 <= j < i && order[j] == k;
      assert k[..|k|] == k;
      PrefixIsNotAfter(k, k);
    }
    FindIsPassed(data, t, conf, order, i, k[..|k| - 1]);
  }

  ghost predicate Fresh(page: PageState, p: Page)
    reads page
  {
    page.cascadeCompiled == p.own && page.params == p.front && page.matches == p.matches
  }

  /** The page has been given the cascade `above`: it is compiled with its own and applied to its params. */
  ghost predicate Settled(page: PageState, p: Page, above: Option<Cascade>)
    reads page
  {
    page.cascadeCompiled == Compile(p.own, above) && Applied(p.front, Compile(p.own, above), p.matches, page.params)
  }

  lemma HoldsMore(data0: Data, data: Data, t: PageTree, conf: Option<Cascade>, past: seq<string>, k: string)
    requires Holds(data0, t, conf, past) && Visited(t, k)
    requires data == if Passes(t, conf, k) then data0[k := CompiledAt(t, conf, k)] else data0
    ensures Holds(data, t, conf, past + [k])
  {}

  /** The callback of the walk for one page. */
  method Handle(t: PageTree, conf: Option<Cascade>, data0: Data, keyPage: string, page: PageState, ghost order: seq<string>, ghost i: nat)
    returns (data: Data)
    requires WellFormed(t, Carriers(t)) && Walks(order, t.Keys) && i < |order| && order[i] == keyPage && Visited(t, keyPage)
    requires Fresh(page, t[keyPage].value) && Holds(data0, t, conf, order[..i])
    modifies page
    ensures Settled(page, t[keyPage].value, Above(t, conf, keyPage))
    ensures Holds(data, t, conf, order[..i + 1])
  {
    data := data0;
    var cascade := None;
    if keyPage == "" {
      cascade := conf;
      if page.cascadeCompiled == None {
        data := data[keyPage := cascade];
      }
    } else {
      FindForKey(data, t, conf, order, i);
      cascade := Find(data, keyPage);
    }
    assert cascade == Above(t, conf, keyPage);
    page.SetMetaPost(cascade);
    assert page.cascadeCompiled == CompiledAt(t, conf, keyPage);
    if t[keyPage].value.branch {
      if page.cascadeCompiled.Some? {
        data := data[keyPage := page.cascadeCompiled];
      }
    }
    assert order[..i + 1] == order[..i] + [keyPage];
    HoldsMore(data0, data, t, conf, order[..i], keyPage);
  }

  /** A page that is a resource of a leaf bundle. */
  datatype Bundled = Bundled(key: string, state: PageState, content: Page)

  ghost function States(bundled: seq<Bundled>): set<PageState>
  {
    set b | b in bundled :: b.state
  }

  /**
    What the lookup finds for a resource of the page at hand, whose key need not be in the page tree: what reaches
    the page itself. The pages in between, if any, have not been visited yet.
   */
  lemma {:induction false} FindForResource(data: Data, t: PageTree, conf: Option<Cascade>, order: seq<string>, i: nat, s: string)
    requires Walks(order, t.Keys) && i < |order| && Holds(data, t, conf, order[..i + 1])
    requires HasPrefix(s, order[i])
    ensures Find(data, s) == Passed(t, conf, order[i])
    decreases |s|
  {
    var k := order[i];
    if |s| > |k| {
      NotYetPast(t, order, i, s);
      var p := s[..|s| - 1];
      assert p[..|k|] == s[..|k|];
      FindForResource(data, t, conf, order, i, p);
    } else {
      assert s == k;
      FindAtKey(data, t, conf, order, i);
    }
  }

  /** What extends a key comes after it. */
  lemma NotYetPast(t: PageTree, order: seq<string>, i: nat, s: string)
    requires Walks(order, t.Keys) && i < |order| && HasPrefix(s, order[i]) && s != order[i]
    ensures s !in order[..i + 1]
  {
    if s in order[..i + 1] {
      var j :| 0 <= j < i + 1 && order[j] == s;
      PrefixIsNotAfter(order[i], s);
    }
  }

  lemma FindAtKey(data: Data, t: PageTree, conf: Option<Cascade>, order: seq<string>, i: nat)
    requires Walks(order, t.Keys) && i < |order| && Holds(data, t, conf, order[..i + 1])
    ensures Find(data, order[i]) == Passed(t, conf, order[i])
  {
    var k := order[i];
    assert order[..i + 1] == order[..i] + [k];
    if !Passes(t, conf, k) && k != "" {
      assert Holds(data, t, conf, order[..i]);
      assert k[..|k| - 1] == k[..|k| - 1][..|k| - 1];
      FindIsPassed(data, t, conf, order, i, k[..|k| - 1]);
    }
  }

  ghost predicate AllFresh(bundled: seq<Bundled>)
    reads States(bundled)
  {
    forall b :: b in bundled ==> Fresh(b.state, b.content)
  }

  ghost predicate AllSettled(bundled: seq<Bundled>, above: Option<Cascade>)
    reads States(bundled)
  {
    forall b :: b in bundled ==> Settled(b.state, b.content, above)
  }

  ghost predicate Distinct(bundled: seq<Bundled>)
  {
    forall i, j :: 0 <= i < j < |bundled| ==> bundled[i].state != bundled[j].state
  }

  /** The callback of the inner walk: the pages in a leaf bundle get what the bundle's own page gets. */
  method HandleResources(t: PageTree, conf: Option<Cascade>, data: Data, keyPage: string, bundled: seq<Bundled>, ghost order: seq<string>, ghost i: nat)
    requires WellFormed(t, Carriers(t)) && Walks(order, t.Keys) && i < |order| && order[i] == keyPage
    requires Visited(t, keyPage) && !t[keyPage].value.branch && Holds(data, t, conf, order[..i + 1])
    requires AllFresh(bundled) && Distinct(bundled) && forall b :: b in bundled ==> HasPrefix(b.key, keyPage)
    modifies States(bundled)
    ensures AllSettled(bundled, Above(t, conf, keyPage))
  {
    ghost var above := Above(t, conf, keyPage);
    for n := 0 to |bundled|
      invariant forall j :: 0 <= j < n ==> Settled(bundled[j].state, bundled[j].content, above)
      invariant forall j :: n <= j < |bundled| ==> Fresh(bundled[j].state, bundled[j].content)
    {
      assert bundled[n] in bundled;
      FindForResource(data, t, conf, order, i, bundled[n].key);
      var cascade := Find(data, bundled[n].key);
      bundled[n].state.SetMetaPost(cascade);
    }
  }

  /** What the walk comes past at a key: a page and the pages bundled with it. */
  datatype Bundle = Bundle(state: PageState, bundled: seq<Bundled>)

  ghost function Footprint(b: Bundle): set<PageState>
  {
    {b.state} + States(b.bundled)
  }

  ghost predicate FreshBundle(b: Bundle, t: PageTree, k: string)
    reads Footprint(b)
  {
    Here(t, k) ==> Fresh(b.state, t[k].value) && AllFresh(b.bundled)
  }

  /** The pages have what they get from above; the page of a term is as it was, since it is left to a later pass. */
  ghost predicate SettledBundle(b: Bundle, t: PageTree, conf: Option<Cascade>, k: string)
    reads Footprint(b)
  {
    Here(t, k) ==>
      if t[k].value.term then Fresh(b.state, t[k].value)
      else Settled(b.state, t[k].value, Above(t, conf, k)) && AllSettled(b.bundled, Above(t, conf, k))
  }

  /** Only leaf bundles have pages among their resources, all of them below the page; every page has a state of its own. */
  ghost predicate IsBundle(b: Bundle, t: PageTree, k: string)
  {
    && b.state !in States(b.bundled) && Distinct(b.bundled)
    && (Visited(t, k) && t[k].value.branch ==> b.bundled == [])
    && (forall r :: r in b.bundled ==> HasPrefix(r.key, k))
  }

  /** The callback of the walk with the walk over the resources that it starts. */
  method HandleBundle(t: PageTree, conf: Option<Cascade>, data0: Data, keyPage: string, b: Bundle, ghost order: seq<string>, ghost i: nat)
    returns (data: Data)
    requires WellFormed(t, Carriers(t)) && Walks(order, t.Keys) && i < |order| && order[i] == keyPage
    requires IsBundle(b, t, keyPage) && FreshBundle(b, t, keyPage) && Holds(data0, t, conf, order[..i])
    modifies Footprint(b)
    ensures SettledBundle(b, t, conf, keyPage) && Holds(data, t, conf, order[..i + 1])
  {
    if !Visited(t, keyPage) {
      assert order[..i + 1] == order[..i] + [keyPage];
      return data0;
    }
    data := Handle(t, conf, data0, keyPage, b.state, order, i);
    if !t[keyPage].value.branch {
      HandleResources(t, conf, data, keyPage, b.bundled, order, i);
    }
  }

  /** All that the walk modifies. */
  ghost function Footprints(bundles: seq<Bundle>): set<PageState>
  {
    set b, p | b in bundles && p in Footprint(b) :: p
  }

  /**
    The walk of a first build: afterwards every page that is not a term has the cascade compiled from its own and
    from what the longest prefix hands down, applied to its params, and so have the pages in its bundle, which get
    from above what it gets itself.
   */
  method ApplyAggregates(t: PageTree, conf: Option<Cascade>, order: seq<string>, bundles: seq<Bundle>)
    requires WellFormed(t, Carriers(t)) && Walks(order, t.Keys) && |bundles| == |order|
    requires forall i :: 0 <= i < |order| ==> IsBundle(bundles[i], t, order[i]) && FreshBundle(bundles[i], t, order[i])
    requires forall i, j :: 0 <= i < j < |bundles| ==> Footprint(bundles[i]) !! Footprint(bundles[j])
    modifies Footprints(bundles)
    ensures forall i :: 0 <= i < |order| ==> SettledBundle(bundles[i], t, conf, order[i])
  {
    var data: Data := map[];
    for i := 0 to |order|
      invariant Holds(data, t, conf, order[..i])
      invariant forall j :: 0 <= j < i ==> SettledBundle(bundles[j], t, conf, order[j])
      invariant forall j :: i <= j < |order| ==> FreshBundle(bundles[j], t, order[j])
    {
      data := HandleBundle(t, conf, data, order[i], bundles[i], order, i);
    }
  }

  /** The nearest carrier above `k`, by path; at the top, the home page. */
  function NearestCarrier(t: PageTree, k: string): (b: string)
    ensures k != "" ==> |b| < |k|
    ensures b == "" || Carrier(t, b)
  {
    NearestOrHome(Carriers(t), k)
  }

  /** The value that the cascade documentation promises: from the page itself, or from the nearest ancestor that defines it. */
  function Promised(t: PageTree, conf: Option<Cascade>, k: string, m: Matcher, key: string): Option<Value>
    decreases |k|
  {
    if !Visited(t, k) then None
    else if Lookup(t[k].value.own, m, key).Some? then Lookup(t[k].value.own, m, key)
    else if k == "" then Lookup(conf, m, key)
    else Promised(t, conf, NearestCarrier(t, k), m, key)
  }

  /** A page that hands its cascade to `k` although it is above it as a string only, and nearer than any page above it. */
  ghost predicate Stray(t: PageTree, conf: Option<Cascade>, k: string, b: string)
  {
    Passes(t, conf, b) && HasPrefix(k, b) && b != k && |b| > |NearestCarrier(t, k)|
  }

  /** Prefixes of `s` that are longer than `n` and hand nothing down make no difference. */
  lemma {:induction false} PassedFrom(t: PageTree, conf: Option<Cascade>, s: string, n: string)
    requires HasPrefix(s, n)
    requires forall b :: HasPrefix(s, b) && |b| > |n| ==> !Passes(t, conf, b)
    ensures Passed(t, conf, s) == Passed(t, conf, n)
    decreases |s|
  {
    if |s| == |n| {
      assert s == s[..|s|] == n;
    } else {
      assert s[..|s|] == s && HasPrefix(s, s);
      var p := s[..|s| - 1];
      assert p[..|n|] == s[..|n|];
      forall b | HasPrefix(p, b) && |b| > |n| ensures !Passes(t, conf, b) {
        assert s[..|b|] == p[..|b|];
      }
      PassedFrom(t, conf, p, n);
    }
  }

  /** A branch page, or the home page, hands down exactly its compiled cascade; without one, nothing reaches past it. */
  lemma PassedAtCarrier(t: PageTree, conf: Option<Cascade>, n: string)
    requires WellFormed(t, Carriers(t)) && (n == "" || Carrier(t, n))
    ensures Passed(t, conf, n) == if Visited(t, n) then CompiledAt(t, conf, n) else None
  {}

  /** Without strays, what reaches `k` is the cascade of the nearest branch page above it. */
  lemma InheritsFromNearest(t: PageTree, conf: Option<Cascade>, k: string)
    requires WellFormed(t, Carriers(t)) && k in t && k != "" && forall b :: !Stray(t, conf, k, b)
    ensures var n := NearestCarrier(t, k);
            Passed(t, conf, k[..|k| - 1]) == if Visited(t, n) then CompiledAt(t, conf, n) else None
  {
    var n, s := NearestCarrier(t, k), k[..|k| - 1];
    NearestOrHomeIsAbove(Carriers(t), k);
    assert k[..|n|] == k[..|n| + 1][..|n|] == n;
    assert s[..|n|] == k[..|n|];
    forall b | HasPrefix(s, b) && |b| > |n| ensures !Passes(t, conf, b) {
      assert k[..|b|] == s[..|b|];
      assert !Stray(t, conf, k, b);
    }
    PassedFrom(t, conf, s, n);
    PassedAtCarrier(t, conf, n);
  }

  /** With a stray, something else reaches it: the compiled cascade of a page that is no ancestor. */
  lemma {:induction false} InheritsFromStray(t: PageTree, conf: Option<Cascade>, k: string, s: string, b0: string) returns (b: string)
    requires WellFormed(t, Carriers(t)) && IsKey(k) && k != ""
    requires HasPrefix(k, s) && |s| < |k| && HasPrefix(s, b0) && Stray(t, conf, k, b0)
    ensures Stray(t, conf, k, b) && !Under(k, b) && Passed(t, conf, s) == CompiledAt(t, conf, b)
    decreases |s|
  {
    if Passes(t, conf, s) {
      b := s;
      if Under(k, b) {
        NearestIsNearest(Carriers(t), k, b);
      }
      assert |b0| <= |s|;
    } else {
      assert s[..|s|] == s;
      var p := s[..|s| - 1];
      assert k[..|p|] == s[..|p|];
      assert p[..|b0|] == s[..|b0|];
      b := InheritsFromStray(t, conf, k, p, b0);
    }
  }

  ghost predicate NoStrays(t: PageTree, conf: Option<Cascade>)
  {
    forall k, b :: Visited(t, k) && k != "" ==> !Stray(t, conf, k, b)
  }

  /** Without strays every page gets, for every matcher and key, the promised value. */
  lemma {:induction false} CascadeAsPromised(t: PageTree, conf: Option<Cascade>, k: string, m: Matcher, key: string)
    requires WellFormed(t, Carriers(t)) && NoStrays(t, conf) && Visited(t, k)
    ensures Lookup(CompiledAt(t, conf, k), m, key) == Promised(t, conf, k, m, key)
    decreases |k|
  {
    if k != "" {
      var n := NearestCarrier(t, k);
      InheritsFromNearest(t, conf, k);
      CompiledLookup(t[k].value.own, Passed(t, conf, k[..|k| - 1]), m, key);
      if Visited(t, n) {
        CascadeAsPromised(t, conf, n, m, key);
      }
    } else {
      CompiledLookup(t[k].value.own, conf, m, key);
    }
  }

  /** The pages in a leaf bundle, too: their own value, else that promised from the bundle's nearest carrier on. */
  lemma BundledAsPromised(t: PageTree, conf: Option<Cascade>, k: string, own: Option<Cascade>, m: Matcher, key: string)
    requires WellFormed(t, Carriers(t)) && NoStrays(t, conf) && Visited(t, k) && k != ""
    ensures Lookup(Compile(own, Above(t, conf, k)), m, key)
         == if Lookup(own, m, key).Some? then Lookup(own, m, key) else Promised(t, conf, NearestCarrier(t, k), m, key)
  {
    InheritsFromNearest(t, conf, k);
    CompiledLookup(own, Above(t, conf, k), m, key);
    if Visited(t, NearestCarrier(t, k)) {
      CascadeAsPromised(t, conf, NearestCarrier(t, k), m, key);
    }
  }

  /** Keys that overlap only as ancestors have no strays. */
  lemma NoOverlapNoStrays(t: PageTree, conf: Option<Cascade>)
    requires WellFormed(t, Carriers(t))
    requires NoOverlap(t.Keys)
    ensures NoStrays(t, conf)
  {
    forall k, b | Visited(t, k) && k != "" ensures !Stray(t, conf, k, b) {
      if Passes(t, conf, b) && HasPrefix(k, b) && b != k {
        NearestIsNearest(Carriers(t), k, b);
      }
    }
  }

  /** The params of a page: front matter first, else the promised value, when only one matching entry defines the key. */
  lemma ParamsAsPromised(t: PageTree, conf: Option<Cascade>, k: string, params: Params, key: string, m: Matcher)
    requires WellFormed(t, Carriers(t)) && NoStrays(t, conf) && Visited(t, k)
    requires Applied(t[k].value.front, CompiledAt(t, conf, k), t[k].value.matches, params)
    requires t[k].value.matches(m)
    requires forall m1 :: t[k].value.matches(m1) && m1 != m ==> Promised(t, conf, k, m1, key) == None
    ensures (if key in params then Some(params[key]) else None)
         == if key in t[k].value.front then Some(t[k].value.front[key]) else Promised(t, conf, k, m, key)
  {
    CascadeAsPromised(t, conf, k, m, key);
    if key !in t[k].value.front && key in params {
      var m1 :| t[k].value.matches(m1) && Lookup(CompiledAt(t, conf, k), m1, key) == Some(params[key]);
      CascadeAsPromised(t, conf, k, m1, key);
    }
  }

  /** A page that inherits from the wrong section: "/a" is a prefix of "/ab" as a string only. */
  lemma StrayCascade(matches: Matcher -> bool)
    ensures var t: PageTree := map["/a" := Some(Page(true, false, Some(map[0 := map["x" := 1]]), map[], matches)),
                               "/ab" := Some(Page(false, false, None, map[], matches))];
            && WellFormed(t, Carriers(t)) && Lookup(CompiledAt(t, None, "/ab"), 0, "x") == Some(1) && Promised(t, None, "/ab", 0, "x") == None
  {
    var t: PageTree := map["/a" := Some(Page(true, false, Some(map[0 := map["x" := 1]]), map[], matches)),
                       "/ab" := Some(Page(false, false, None, map[], matches))];
    assert "/ab"[..2] == "/a" && "/a"[..1] == "/" && "/"[..0] == "";
    assert Passed(t, None, "/") == None by {
      assert Passed(t, None, "") == None;
    }
    assert Passes(t, None, "/a") && Passed(t, None, "/a") == CompiledAt(t, None, "/a") == Some(map[0 := map["x" := 1]]);
    assert LastSlash("/") == 0 && LastSlash("/a") == 0 && LastSlash("/ab") == 0;
    assert NearestCarrier(t, "/ab") == "";
  }
}
